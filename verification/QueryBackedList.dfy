/** A paginated list whose loads overlap: each `apply` takes a ticket, and only the answer to the
    latest ticket is shown. `apply` has one await, so it is two stretches of code: up to the
    fetch, and from its answer on. */
module QueryBackedList {
  import opened Wrappers
  import opened Text

  type ListQuery = map<string, string>

  const DEFAULT_PAGE_SIZE: nat := 20
  const PAGE := "page"
  const PAGE_SIZE := "pageSize"

  // ------------------------------------------------------------------
  // Numbers read from the URL
  // ------------------------------------------------------------------

  /** ECMAScript's white space and line terminators. */
  predicate IsScriptWhitespace(c: char) {
    var n := c as int;
    || 0x09 <= n <= 0x0D || n == 0x20 || n == 0xA0 || n == 0x1680 || 0x2000 <= n <= 0x200A
    || n == 0x2028 || n == 0x2029 || n == 0x202F || n == 0x205F || n == 0x3000 || n == 0xFEFF
  }

  function SkipWhitespace(s: string): (text: string) {
    if s == [] || !IsScriptWhitespace(s[0]) then s else SkipWhitespace(s[1..])
  }

  function LeadingDigits(s: string): (digits: string)
    ensures digits <= s && forall i :: 0 <= i < |digits| ==> IsDigit(digits[i])
  {
    if s == [] || !IsDigit(s[0]) then [] else [s[0]] + LeadingDigits(s[1..])
  }

  /** `Number.parseInt(text, 10)`, with None for NaN. */
  function ParseInt(text: string): (r: Option<int>) {
    var s := SkipWhitespace(text);
    var negative := s != [] && s[0] == '-';
    var digits := LeadingDigits(if s != [] && (s[0] == '-' || s[0] == '+') then s[1..] else s);
    if digits == [] then None
    else
      var magnitude: int := DigitsValue(digits);
      Some(if negative then -magnitude else magnitude)
  }

  function PositiveIntOr(value: Option<string>, fallback: nat): (n: nat)
    requires fallback >= 1
    ensures n >= 1
  {
    var parsed := if value.Some? then ParseInt(value.value) else None;
    if parsed.Some? && parsed.value > 0 then parsed.value else fallback
  }

  function PageFromQuery(value: Option<string>): (page: nat)
    ensures page >= 1
  {
    PositiveIntOr(value, 1)
  }

  lemma {:induction false} LeadingDigitsWhole(s: string)
    requires forall i :: 0 <= i < |s| ==> IsDigit(s[i])
    ensures LeadingDigits(s) == s
  {
    if s == [] {
    } else {
      LeadingDigitsWhole(s[1..]);
    }
  }

  /** A page number written to the URL is read back as itself. */
  lemma PageReadsBack(n: nat)
    requires n >= 1
    ensures PageFromQuery(Some(Decimal(n))) == n
  {
    var s := Decimal(n);
    assert IsDigit(s[0]);
    LeadingDigitsWhole(s);
    DecimalRoundTrip(n);
  }

  // ------------------------------------------------------------------
  // The list's state
  // ------------------------------------------------------------------

  datatype Page<T> = Page(items: seq<T>, total: nat, page: nat, pageSize: nat)

  datatype Outcome<T> = Answered(result: Page<T>) | Failed(message: string)

  /** Everything the list exposes, and the ticket counter behind it. */
  datatype View<T> = View(
    items: seq<T>, page: nat, pageSize: nat, total: nat, isLoading: bool, error: string,
    filters: ListQuery, hasLoaded: bool, latest: nat)

  function InitialView<T>(): (view: View<T>) {
    View([], 1, DEFAULT_PAGE_SIZE, 0, false, "", map[], false, 0)
  }

  function Lookup(query: ListQuery, key: string): (r: Option<string>) {
    if key in query then Some(query[key]) else None
  }

  function Started<T>(v: View<T>, query: ListQuery): (view: View<T>) {
    v.(page := PageFromQuery(Lookup(query, PAGE)),
       pageSize := PositiveIntOr(Lookup(query, PAGE_SIZE), DEFAULT_PAGE_SIZE),
       filters := query - {PAGE, PAGE_SIZE},
       latest := v.latest + 1, isLoading := true, error := "")
  }

  function Finished<T>(v: View<T>, ticket: nat, outcome: Outcome<T>): (view: View<T>) {
    if ticket != v.latest then v
    else match outcome
      case Answered(r) =>
        v.(items := r.items, total := r.total, page := r.page, pageSize := r.pageSize,
           hasLoaded := true, isLoading := false)
      case Failed(message) =>
        v.(items := [], total := 0, error := message, hasLoaded := true, isLoading := false)
  }

  function TotalPages(total: nat, pageSize: nat): (pages: nat)
    ensures pages >= 1
  {
    var size := if pageSize < 1 then 1 else pageSize;
    var pages := (total + size - 1) / size;
    if pages < 1 then 1 else pages
  }

  predicate IsEmpty<T(==)>(v: View<T>) {
    v.hasLoaded && !v.isLoading && v.error == "" && v.items == []
  }

  class List<T> {
    var items: seq<T>
    var page: nat
    var pageSize: nat
    var total: nat
    var isLoading: bool
    var error: string
    var filters: ListQuery
    var hasLoaded: bool
    var latest: nat

    ghost function Current(): (view: View<T>)
      reads this
    {
      View(items, page, pageSize, total, isLoading, error, filters, hasLoaded, latest)
    }

    constructor ()
      ensures Current() == InitialView()
    {
      items, page, pageSize, total := [], 1, DEFAULT_PAGE_SIZE, 0;
      isLoading, error, filters, hasLoaded, latest := false, "", map[], false, 0;
    }

    /** `apply` up to its await: what it will fetch, and the ticket it fetches under. */
    method Begin(query: ListQuery) returns (ticket: nat)
      modifies this
      ensures Current() == Started(old(Current()), query)
      ensures ticket == latest
    {
      var rawPage, rawPageSize, rest := Lookup(query, PAGE), Lookup(query, PAGE_SIZE), query - {PAGE, PAGE_SIZE};
      page := PageFromQuery(rawPage);
      pageSize := PositiveIntOr(rawPageSize, DEFAULT_PAGE_SIZE);
      filters := rest;
      latest := latest + 1;
      ticket := latest;
      isLoading := true;
      error := "";
    }

    /** `apply` from its await on, for the load that holds `ticket`. */
    method Finish(ticket: nat, outcome: Outcome<T>)
      modifies this
      ensures Current() == Finished(old(Current()), ticket, outcome)
    {
      if ticket != latest {
        return;
      }
      match outcome {
        case Answered(result) =>
          items := result.items;
          total := result.total;
          page := result.page;
          pageSize := result.pageSize;
          hasLoaded := true;
        case Failed(message) =>
          items := [];
          total := 0;
          error := message;
          hasLoaded := true;
      }
      isLoading := false;
    }
  }

  // ------------------------------------------------------------------
  // Every interleaving of loads
  // ------------------------------------------------------------------

  datatype Event<T> = Begin(query: ListQuery) | Finish(ticket: nat, outcome: Outcome<T>)

  /** The view, and for ticket `t` the query at `t - 1` and its outcome once it has one. */
  datatype Run<T> = Run(view: View<T>, queries: seq<ListQuery>, outcomes: seq<Option<Outcome<T>>>)

  predicate MayHappen<T>(run: Run<T>, event: Event<T>) {
    event.Finish? ==> 1 <= event.ticket <= |run.outcomes| && run.outcomes[event.ticket - 1].None?
  }

  function Happen<T>(run: Run<T>, event: Event<T>): (after: Run<T>)
    requires MayHappen(run, event)
  {
    match event
    case Begin(query) => Run(Started(run.view, query), run.queries + [query], run.outcomes + [None])
    case Finish(ticket, outcome) =>
      Run(Finished(run.view, ticket, outcome), run.queries, run.outcomes[ticket - 1 := Some(outcome)])
  }

  function NewRun<T>(): (after: Run<T>) {
    Run(InitialView(), [], [])
  }

  function After<T>(events: seq<Event<T>>): (after: Run<T>)
    decreases |events|
  {
    if events == [] then NewRun()
    else
      var before, event := After(events[..|events| - 1]), events[|events| - 1];
      if MayHappen(before, event) then Happen(before, event) else before
  }

  predicate IsRun<T>(events: seq<Event<T>>)
    decreases |events|
  {
    events == [] ||
    (IsRun(events[..|events| - 1]) && MayHappen(After(events[..|events| - 1]), events[|events| - 1]))
  }

  /** One `apply` with nothing else going on, from a list that has never loaded. */
  function Alone<T>(query: ListQuery, outcome: Outcome<T>): (view: View<T>) {
    Finished(Started(InitialView(), query), 1, outcome)
  }

  /** The rows and total on screen are one load's own, or the empty pair. */
  ghost predicate FromOneLoad<T>(run: Run<T>) {
    || (run.view.items == [] && run.view.total == 0)
    || exists t :: 0 <= t < |run.outcomes| && run.outcomes[t].Some? && ShownFrom(run.view, run.outcomes[t].value)
  }

  predicate ShownFrom<T(==)>(v: View<T>, outcome: Outcome<T>) {
    outcome.Answered? && v.items == outcome.result.items && v.total == outcome.result.total
  }

  /** The view is the latest load's, pending or settled. */
  predicate ViewOk<T(==)>(run: Run<T>) {
    var n := |run.queries|;
    && |run.outcomes| == n && run.view.latest == n
    && (n == 0 ==> run.view == InitialView())
    && (n > 0 && run.outcomes[n - 1].None? ==>
          run.view == Started(run.view.(latest := n - 1), run.queries[n - 1]))
    && (n > 0 && run.outcomes[n - 1].Some? ==>
          run.view == Alone(run.queries[n - 1], run.outcomes[n - 1].value).(latest := n))
  }

  ghost predicate RunOk<T>(run: Run<T>) {
    ViewOk(run) && FromOneLoad(run)
  }

  lemma HappenKeepsFromOneLoad<T>(run: Run<T>, event: Event<T>)
    requires FromOneLoad(run) && |run.outcomes| == run.view.latest && MayHappen(run, event)
    ensures FromOneLoad(Happen(run, event))
  {
    var run' := Happen(run, event);
    if run'.view.items != [] || run'.view.total != 0 {
      if event.Finish? && event.ticket == run.view.latest {
        assert ShownFrom(run'.view, run'.outcomes[event.ticket - 1].value);
      } else {
        var t :| 0 <= t < |run.outcomes| && run.outcomes[t].Some? && ShownFrom(run.view, run.outcomes[t].value);
        assert run'.outcomes[t] == run.outcomes[t];
      }
    }
  }

  lemma BeginKeepsViewOk<T>(run: Run<T>, query: ListQuery)
    requires ViewOk(run)
    ensures ViewOk(Happen(run, Begin(query)))
  {
  }

  lemma FinishKeepsViewOk<T>(run: Run<T>, ticket: nat, outcome: Outcome<T>)
    requires ViewOk(run) && MayHappen(run, Finish(ticket, outcome))
    ensures ViewOk(Happen(run, Finish(ticket, outcome)))
  {
  }

  lemma HappenKeepsViewOk<T>(run: Run<T>, event: Event<T>)
    requires ViewOk(run) && MayHappen(run, event)
    ensures ViewOk(Happen(run, event))
  {
    match event
    case Begin(query) => BeginKeepsViewOk(run, query);
    case Finish(ticket, outcome) => FinishKeepsViewOk(run, ticket, outcome);
  }

  lemma HappenKeepsOk<T>(run: Run<T>, event: Event<T>)
    requires RunOk(run) && MayHappen(run, event)
    ensures RunOk(Happen(run, event))
  {
    HappenKeepsViewOk(run, event);
    HappenKeepsFromOneLoad(run, event);
  }

  lemma {:induction false} AfterIsOk<T>(events: seq<Event<T>>)
    requires IsRun(events)
    ensures RunOk(After(events))
    decreases |events|
  {
    if events == [] {
    } else {
      AfterIsOk(events[..|events| - 1]);
      HappenKeepsOk(After(events[..|events| - 1]), events[|events| - 1]);
    }
  }

  /** Whatever order overlapping loads answer or fail in, once the latest has settled every field
      of the list is what that one load leaves when it runs alone. */
  lemma LatestLoadDecides<T>(events: seq<Event<T>>)
    requires IsRun(events)
    ensures var run := After(events); var n := |run.queries|;
            && |run.outcomes| == n
            && (n > 0 && run.outcomes[n - 1].Some? ==>
                  run.view == Alone(run.queries[n - 1], run.outcomes[n - 1].value).(latest := n))
  {
    AfterIsOk(events);
  }

  /** In every state the list is loading exactly while its latest load is unanswered, what it says
      it asked for is that load's query, and rows and total never come from two loads. */
  lemma NeverMixesLoads<T>(events: seq<Event<T>>)
    requires IsRun(events)
    ensures var run := After(events); var n := |run.queries|;
            && |run.outcomes| == n
            && (run.view.isLoading <==> n > 0 && run.outcomes[n - 1].None?)
            && (n > 0 ==> run.view.filters == run.queries[n - 1] - {PAGE, PAGE_SIZE})
            && FromOneLoad(run)
  {
    AfterIsOk(events);
  }

  /** A superseded load changes nothing when it answers. */
  lemma SupersededLoadIsIgnored<T>(events: seq<Event<T>>, ticket: nat, outcome: Outcome<T>)
    requires IsRun(events + [Finish(ticket, outcome)])
    ensures var before, after := After(events), After(events + [Finish(ticket, outcome)]);
            ticket < |before.queries| ==> after.view == before.view
  {
    var all := events + [Finish(ticket, outcome)];
    assert all[..|events|] == events;
    AfterIsOk(events);
  }

  /** The list calls itself empty only after a load that succeeded and returned nothing: or after
      one that failed without saying anything, since no message is how "no failure" is written. */
  lemma EmptyExactlyWhen<T>(events: seq<Event<T>>)
    requires IsRun(events)
    ensures var run := After(events); var n := |run.queries|;
            && |run.outcomes| == n
            && (IsEmpty(run.view) <==>
                  && n > 0 && run.outcomes[n - 1].Some?
                  && match run.outcomes[n - 1].value
                     case Answered(r) => r.items == []
                     case Failed(message) => message == "")
  {
    AfterIsOk(events);
  }

  /** One load that fails and says nothing, and the list calls itself empty. */
  lemma SilentFailureLooksEmpty<T>(query: ListQuery) returns (events: seq<Event<T>>)
    ensures IsRun(events) && |After(events).queries| == 1 && After(events).outcomes == [Some(Failed(""))]
    ensures IsEmpty(After(events).view)
  {
    events := [Begin(query), Finish(1, Failed(""))];
    assert events[..1] == [Begin(query)] && events[..1][..0] == [];
    assert After(events[..1]) == Happen(NewRun(), Begin(query));
  }
}
