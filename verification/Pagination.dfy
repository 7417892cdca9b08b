/** Pages of a result set, from the query's two numbers to SQL's offset and limit and back through
    the echoed metadata. */
module Pagination {
  import opened Wrappers
  import Q = QueryBackedList
  import R = ListRoute

  const DEFAULT_PAGE_SIZE: nat := 20
  const MAX_PAGE_SIZE: nat := 100
  const I64_MAX: int := 0x7FFF_FFFF_FFFF_FFFF

  type U32 = n: nat | n < 0x1_0000_0000

  datatype Pagination = Pagination(pageParameter: Option<U32>, pageSizeParameter: Option<U32>) {
    function Page(): (n: U32) {
      if pageParameter.None? || pageParameter.value < 1 then 1 else pageParameter.value
    }

    function PageSize(): (size: U32)
      ensures 1 <= size <= MAX_PAGE_SIZE
    {
      var size: U32 := if pageSizeParameter.None? then DEFAULT_PAGE_SIZE else pageSizeParameter.value;
      if size < 1 then 1 else if size > MAX_PAGE_SIZE then MAX_PAGE_SIZE else size
    }

    function Offset(): (n: int) {
      (Page() - 1) * PageSize()
    }

    function Limit(): (n: int) {
      PageSize()
    }

    function Meta(total: nat): (meta: PageMeta) {
      PageMeta(Page(), PageSize(), total)
    }
  }

  datatype PageMeta = PageMeta(page: U32, pageSize: U32, total: nat)

  predicate Holds(p: Pagination, row: nat) {
    p.Offset() <= row < p.Offset() + p.Limit()
  }

  /** SQL's numbers are never negative and fit an `i64`, whatever two `u32`s the caller sends. */
  lemma OffsetFits(p: Pagination)
    ensures 0 <= p.Offset() && p.Offset() + p.Limit() <= I64_MAX
  {
    assert (p.Page() - 1) * p.PageSize() <= 0xFFFF_FFFE * p.PageSize();
  }

  /** A caller that sends back the page and size it was told gets the very same rows. */
  lemma EchoKeepsTheRows(p: Pagination, total: nat)
    ensures var meta := p.Meta(total);
            var again := Pagination(Some(meta.page), Some(meta.pageSize));
            again.Offset() == p.Offset() && again.Limit() == p.Limit() && again.Meta(total) == meta
  {
  }

  lemma Quotient(row: nat, size: nat, page: nat)
    requires size >= 1 && page >= 1
    ensures (page - 1) * size <= row < (page - 1) * size + size <==> page - 1 == row / size
  {
    var q := row / size;
    assert row == size * q + row % size;
    assert size * q == q * size;
    if page - 1 < q {
      Ordered(page - 1, q, size);
    } else if q < page - 1 {
      Ordered(q, page - 1, size);
    }
  }

  lemma {:induction false} Ordered(a: nat, b: nat, size: nat)
    requires a < b
    ensures a * size + size <= b * size
    decreases b
  {
    assert b * size == (b - 1) * size + size;
    if a < b - 1 {
      Ordered(a, b - 1, size);
    }
  }

  lemma RowsTile(row: nat, size: nat, page: nat, total: nat)
    requires size >= 1 && page >= 1
    ensures (page - 1) * size <= row < (page - 1) * size + size <==> page == row / size + 1
    ensures row < total ==> 1 <= row / size + 1 <= Q.TotalPages(total, size)
  {
    Quotient(row, size, page);
    if row < total {
      PagesCover(row, total, size);
    }
  }

  /** The pages tile the result set. Among all pages of one size a row is held by one and only one,
      and for a row of a set of `total` rows that page is one of the browser's 1 to `totalPages`. */
  lemma PagesTile(p: Pagination, row: nat, total: nat)
    ensures Holds(p, row) <==> p.Page() == row / p.PageSize() + 1
    ensures row < total ==> 1 <= row / p.PageSize() + 1 <= Q.TotalPages(total, p.PageSize())
    ensures Holds(p, row) && row < total ==> p.Page() <= Q.TotalPages(total, p.PageSize())
  {
    var page: nat, size: nat := p.Page(), p.PageSize();
    assert p.Offset() == (page - 1) * size && p.Limit() == size;
    RowsTile(row, size, page, total);
  }

  lemma PagesCover(row: nat, total: nat, size: nat)
    requires size >= 1 && row < total
    ensures row / size + 1 <= Q.TotalPages(total, size)
  {
    var pages := (total + size - 1) / size;
    var q := row / size;
    assert total + size - 1 == size * pages + (total + size - 1) % size;
    assert row == size * q + row % size;
    if pages < q {
      Ordered(pages, q, size);
    }
  }

  /** No page the browser offers is past the rows: the last one holds a row, unless there is none. */
  lemma LastPageIsNotEmpty(total: nat, size: nat)
    requires 1 <= size && 1 <= total
    ensures (Q.TotalPages(total, size) - 1) * size < total
  {
    var pages := (total + size - 1) / size;
    assert total + size - 1 == size * pages + (total + size - 1) % size;
    assert size * pages == pages * size;
    assert (pages - 1) * size == pages * size - size;
  }

  lemma CountedPageStartsInsideTheRows(page: nat, total: nat, size: nat)
    requires 1 <= size && 1 <= total && 1 <= page <= Q.TotalPages(total, size)
    ensures 0 <= (page - 1) * size < total
  {
    var pages := Q.TotalPages(total, size);
    LastPageIsNotEmpty(total, size);
    if page < pages {
      Ordered(page - 1, pages - 1, size);
    }
  }

  /** From a control in the browser to SQL: whatever page is asked for, the one the list turns to,
      written to the URL, read back and sent with the size on screen, starts inside the rows. */
  lemma TurnedPageStartsInsideTheRows(next: int, total: nat, size: U32)
    requires 1 <= size <= MAX_PAGE_SIZE && 1 <= total
    requires R.ClampedPage(next, Q.TotalPages(total, size)) < 0x1_0000_0000
    ensures var page := R.ClampedPage(next, Q.TotalPages(total, size));
            0 <= Pagination(Some(page), Some(size)).Offset() < total
  {
    var page := R.ClampedPage(next, Q.TotalPages(total, size));
    var p := Pagination(Some(page), Some(size));
    assert p.Page() == page && p.PageSize() == size;
    CountedPageStartsInsideTheRows(page, total, size);
  }
}
