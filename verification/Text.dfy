/** The text operations several components share: Rust's `trim` and `split`, substrings, decimal
    numbers and keep-first de-duplication. A string is a sequence of Unicode scalar values. */
module Text {
  import opened Wrappers

  // ------------------------------------------------------------------
  // Whitespace and substrings
  // ------------------------------------------------------------------

  const NUL: char := '\0'

  /** The Unicode `White_Space` property, which is what `str::trim` removes. */
  predicate IsWhitespace(c: char) {
    var n := c as int;
    || 0x09 <= n <= 0x0D || n == 0x20 || n == 0x85 || n == 0xA0 || n == 0x1680
    || 0x2000 <= n <= 0x200A || n == 0x2028 || n == 0x2029 || n == 0x202F || n == 0x205F || n == 0x3000
  }

  ghost predicate Blank(s: string) {
    forall c :: c in s ==> IsWhitespace(c)
  }

  function TrimStart(s: string): (text: string) {
    if s == [] || !IsWhitespace(s[0]) then s else TrimStart(s[1..])
  }

  function TrimEnd(s: string): (text: string) {
    if s == [] || !IsWhitespace(s[|s| - 1]) then s else TrimEnd(s[..|s| - 1])
  }

  function Trim(s: string): (text: string) {
    TrimEnd(TrimStart(s))
  }

  lemma {:induction false} TrimStartSplits(s: string) returns (before: string)
    ensures s == before + TrimStart(s) && Blank(before)
    ensures TrimStart(s) == [] || !IsWhitespace(TrimStart(s)[0])
  {
    if s == [] || !IsWhitespace(s[0]) {
      before := [];
    } else {
      var rest := TrimStartSplits(s[1..]);
      before := [s[0]] + rest;
    }
  }

  lemma {:induction false} TrimEndSplits(s: string) returns (after: string)
    ensures s == TrimEnd(s) + after && Blank(after)
    ensures TrimEnd(s) == [] || !IsWhitespace(TrimEnd(s)[|TrimEnd(s)| - 1])
  {
    if s == [] || !IsWhitespace(s[|s| - 1]) {
      after := [];
    } else {
      var rest := TrimEndSplits(s[..|s| - 1]);
      after := rest + [s[|s| - 1]];
    }
  }

  /** What trimming means: blank text around a middle that neither starts nor ends with
      whitespace. */
  lemma TrimSplits(s: string) returns (before: string, after: string)
    ensures s == before + Trim(s) + after && Blank(before) && Blank(after)
    ensures Trim(s) == [] || (!IsWhitespace(Trim(s)[0]) && !IsWhitespace(Trim(s)[|Trim(s)| - 1]))
  {
    var t := TrimStart(s);
    before := TrimStartSplits(s);
    after := TrimEndSplits(t);
    assert before + (TrimEnd(t) + after) == before + TrimEnd(t) + after;
    assert TrimEnd(t) == [] || TrimEnd(t)[0] == t[0];
  }

  ghost predicate Contains(text: string, term: string) {
    exists i :: 0 <= i <= |text| && term <= text[i..]
  }

  // ------------------------------------------------------------------
  // Splitting on one character
  // ------------------------------------------------------------------

  /** `str::split`: the pieces between separators, so always at least one. */
  function Split(s: string, separator: char): (pieces: seq<string>)
    ensures |pieces| >= 1
  {
    if s == [] then [[]] else Onto(s[0], Split(s[1..], separator), separator)
  }

  /** The pieces of a text with one more character in front. */
  function Onto(c: char, pieces: seq<string>, separator: char): (more: seq<string>)
    requires |pieces| >= 1
    ensures |more| >= 1
  {
    if c == separator then [[]] + pieces else [[c] + pieces[0]] + pieces[1..]
  }

  lemma OntoJoined(c: char, a: seq<string>, b: seq<string>, separator: char)
    requires |a| >= 1
    ensures Onto(c, a + b, separator) == Onto(c, a, separator) + b
  {
    assert (a + b)[1..] == a[1..] + b;
  }

  /** Splitting distributes over text joined by the separator. */
  lemma {:induction false} SplitJoin(a: string, b: string, separator: char)
    ensures Split(a + [separator] + b, separator) == Split(a, separator) + Split(b, separator)
  {
    var joined := a + [separator] + b;
    if a == [] {
      assert joined[1..] == b;
    } else {
      assert joined[1..] == a[1..] + [separator] + b;
      SplitJoin(a[1..], b, separator);
      OntoJoined(a[0], Split(a[1..], separator), Split(b, separator), separator);
    }
  }

  lemma {:induction false} SplitWhole(s: string, separator: char)
    requires separator !in s
    ensures Split(s, separator) == [s]
  {
    if s == [] {
    } else {
      SplitWhole(s[1..], separator);
      assert [s[0]] + s[1..] == s;
    }
  }

  // ------------------------------------------------------------------
  // Decimal numbers
  // ------------------------------------------------------------------

  predicate IsDigit(c: char) {
    '0' <= c <= '9'
  }

  function Digit(n: nat): (c: char)
    requires n < 10
  {
    ('0' as int + n) as char
  }

  function Decimal(n: nat): (s: string)
    ensures s != [] && forall i :: 0 <= i < |s| ==> IsDigit(s[i])
  {
    if n < 10 then [Digit(n)] else Decimal(n / 10) + [Digit(n % 10)]
  }

  function DigitsValue(s: string): (n: nat)
    requires forall i :: 0 <= i < |s| ==> IsDigit(s[i])
  {
    if s == [] then 0
    else
      assert IsDigit(s[|s| - 1]);
      10 * DigitsValue(s[..|s| - 1]) + (s[|s| - 1] as int - '0' as int)
  }

  lemma {:induction false} DecimalRoundTrip(n: nat)
    ensures DigitsValue(Decimal(n)) == n
  {
    if n < 10 {
      assert DigitsValue([]) == 0;
      assert Decimal(n)[..0] == [];
    } else {
      DecimalRoundTrip(n / 10);
      assert Decimal(n)[..|Decimal(n)| - 1] == Decimal(n / 10);
    }
  }

  // ------------------------------------------------------------------
  // Keeping the first of equal items
  // ------------------------------------------------------------------

  ghost predicate Distinct<T>(s: seq<T>) {
    forall i, j :: 0 <= i < j < |s| ==> s[i] != s[j]
  }

  function KeepFirst<T(==,!new)>(s: seq<T>): (r: seq<T>)
    ensures forall x :: x in r <==> x in s
    ensures Distinct(r)
  {
    if s == [] then []
    else
      var kept := KeepFirst(s[..|s| - 1]);
      if s[|s| - 1] in kept then kept else kept + [s[|s| - 1]]
  }

  lemma KeepFirstStep<T(!new)>(s: seq<T>, i: nat)
    requires i < |s|
    ensures KeepFirst(s[..i + 1])
            == if s[i] in KeepFirst(s[..i]) then KeepFirst(s[..i]) else KeepFirst(s[..i]) + [s[i]]
  {
    assert s[..i + 1][..i] == s[..i];
  }

  /** The index where an item first occurs. */
  function FirstIndex<T(==)>(s: seq<T>, x: T): (i: nat)
    requires x in s
    ensures i < |s| && s[i] == x && x !in s[..i]
  {
    if s[0] == x then 0 else 1 + FirstIndex(s[1..], x)
  }

  /** What is kept stands in the order in which each item was first found. */
  lemma {:induction false} KeepFirstKeepsOrder<T(!new)>(s: seq<T>, i: nat, j: nat)
    requires i < j < |KeepFirst(s)|
    ensures FirstIndex(s, KeepFirst(s)[i]) < FirstIndex(s, KeepFirst(s)[j])
  {
    var init, last := s[..|s| - 1], s[|s| - 1];
    var kept := KeepFirst(init);
    var a, b := KeepFirst(s)[i], KeepFirst(s)[j];
    FirstIndexOfPrefix(init, last, a);
    assert init + [last] == s;
    if j < |kept| {
      KeepFirstKeepsOrder(init, i, j);
      FirstIndexOfPrefix(init, last, b);
    } else {
      assert b == last && b !in init;
    }
  }

  lemma {:induction false} FirstIndexOfPrefix<T>(init: seq<T>, last: T, x: T)
    requires x in init
    ensures FirstIndex(init + [last], x) == FirstIndex(init, x)
  {
    if init[0] == x {
    } else {
      assert (init + [last])[1..] == init[1..] + [last];
      FirstIndexOfPrefix(init[1..], last, x);
    }
  }
}
