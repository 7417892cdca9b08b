/** A list's `search` parameter, from the raw value to the LIKE pattern a repository binds. */
module Search {
  import opened Wrappers
  import opened Text

  // ------------------------------------------------------------------
  // PostgreSQL's LIKE (section 9.7.1 of its manual), with the default escape
  // ------------------------------------------------------------------

  const ANY_RUN: char := '%'
  const ANY_ONE: char := '_'
  const ESCAPE: char := '\\'

  /** PostgreSQL answers yes or no, or raises an error when the pattern runs out inside an
      escape. */
  datatype Answer = Yes | No | EndsInEscape

  function Like(text: string, pattern: string): (answer: Answer)
    decreases |pattern|, |text|
  {
    if pattern == [] then
      if text == [] then Yes else No
    else if pattern[0] == ANY_RUN then
      var here := Like(text, pattern[1..]);
      if here != No || text == [] then here else Like(text[1..], pattern)
    else if pattern[0] == ESCAPE then
      if |pattern| == 1 then EndsInEscape
      else if text == [] || text[0] != pattern[1] then No
      else Like(text[1..], pattern[2..])
    else if text == [] then No
    else if pattern[0] == ANY_ONE || pattern[0] == text[0] then Like(text[1..], pattern[1..])
    else No
  }

  /** ILIKE folds the case of both sides and then matches as LIKE does. A fold takes each character
      to text, which may be of any length. */
  ghost function ILike(text: string, pattern: string, fold: char -> string): (answer: Answer) {
    Like(Folded(text, fold), Folded(pattern, fold))
  }

  ghost function Folded(s: string, fold: char -> string): (text: string) {
    if s == [] then [] else fold(s[0]) + Folded(s[1..], fold)
  }

  // ------------------------------------------------------------------
  // Building the pattern
  // ------------------------------------------------------------------

  predicate IsSpecial(c: char) {
    c == ESCAPE || c == ANY_RUN || c == ANY_ONE
  }

  function Escaped(term: string): (text: string) {
    if term == [] then []
    else (if IsSpecial(term[0]) then [ESCAPE, term[0]] else [term[0]]) + Escaped(term[1..])
  }

  function ContainsPatternOf(term: string): (text: string) {
    [ANY_RUN] + Escaped(term) + [ANY_RUN]
  }

  lemma {:induction false} EscapedAppend(term: string, c: char)
    ensures Escaped(term + [c]) == Escaped(term) + if IsSpecial(c) then [ESCAPE, c] else [c]
  {
    if term == [] {
      assert Escaped([c][1..]) == [];
    } else {
      assert (term + [c])[1..] == term[1..] + [c];
      EscapedAppend(term[1..], c);
    }
  }

  method LikeContains(search: string) returns (pattern: string)
    ensures pattern == ContainsPatternOf(search)
  {
    pattern := [ANY_RUN];
    for i := 0 to |search|
      invariant pattern == [ANY_RUN] + Escaped(search[..i])
    {
      var character := search[i];
      EscapedAppend(search[..i], character);
      assert search[..i + 1] == search[..i] + [character];
      if character == ESCAPE || character == ANY_RUN || character == ANY_ONE {
        pattern := pattern + [ESCAPE];
      }
      pattern := pattern + [character];
    }
    assert search[..|search|] == search;
    pattern := pattern + [ANY_RUN];
  }

  // ------------------------------------------------------------------
  // The pattern means "contains this term"
  // ------------------------------------------------------------------

  lemma {:induction false} RunMatchesAnything(text: string)
    ensures Like(text, [ANY_RUN]) == Yes
  {
    assert [ANY_RUN][1..] == [];
    if text == [] {
    } else {
      RunMatchesAnything(text[1..]);
    }
  }

  lemma {:induction false} EscapedTermMatchesPrefix(text: string, term: string)
    ensures Like(text, Escaped(term) + [ANY_RUN]) == if term <= text then Yes else No
  {
    var pattern := Escaped(term) + [ANY_RUN];
    if term == [] {
      assert pattern == [ANY_RUN];
      RunMatchesAnything(text);
    } else {
      var rest := Escaped(term[1..]) + [ANY_RUN];
      assert pattern == (if IsSpecial(term[0]) then [ESCAPE, term[0]] else [term[0]]) + rest;
      assert if IsSpecial(term[0]) then pattern[2..] == rest else pattern[1..] == rest;
      if text != [] && text[0] == term[0] {
        EscapedTermMatchesPrefix(text[1..], term[1..]);
        assert term <= text <==> term[1..] <= text[1..];
      }
    }
  }

  /** PostgreSQL accepts a text against the compiled pattern exactly when the term is a
      contiguous part of it, and never raises its lone-escape error. */
  lemma {:induction false} PatternMeansContains(text: string, term: string)
    ensures Like(text, ContainsPatternOf(term)) == if Contains(text, term) then Yes else No
  {
    var pattern := ContainsPatternOf(term);
    assert pattern[1..] == Escaped(term) + [ANY_RUN];
    EscapedTermMatchesPrefix(text, term);
    assert text[0..] == text;
    if term <= text {
    } else if text == [] {
    } else {
      PatternMeansContains(text[1..], term);
      if Contains(text[1..], term) {
        var i :| 0 <= i <= |text[1..]| && term <= text[1..][i..];
        assert text[1..][i..] == text[i + 1..];
      }
      if Contains(text, term) {
        var i :| 0 <= i <= |text| && term <= text[i..];
        assert text[i..] == text[1..][i - 1..];
      }
    }
  }

  /** A case folding that moves no wildcard and makes none. */
  ghost predicate KeepsSpecials(fold: char -> string) {
    forall c :: if IsSpecial(c) then fold(c) == [c] else NoSpecials(fold(c))
  }

  predicate NoSpecials(s: string) {
    forall i :: 0 <= i < |s| ==> !IsSpecial(s[i])
  }

  lemma {:induction false} FoldedJoin(a: string, b: string, fold: char -> string)
    ensures Folded(a + b, fold) == Folded(a, fold) + Folded(b, fold)
  {
    if a == [] {
      assert a + b == b;
    } else {
      assert (a + b)[1..] == a[1..] + b;
      FoldedJoin(a[1..], b, fold);
    }
  }

  lemma FoldedOne(c: char, fold: char -> string)
    ensures Folded([c], fold) == fold(c)
  {
    assert Folded([c][1..], fold) == [];
  }

  lemma {:induction false} EscapedJoin(a: string, b: string)
    ensures Escaped(a + b) == Escaped(a) + Escaped(b)
  {
    if a == [] {
      assert a + b == b;
    } else {
      assert (a + b)[1..] == a[1..] + b;
      EscapedJoin(a[1..], b);
    }
  }

  lemma {:induction false} NothingToEscape(s: string)
    requires NoSpecials(s)
    ensures Escaped(s) == s
  {
    if s != [] {
      NothingToEscape(s[1..]);
    }
  }

  lemma OneFoldedEscaped(c: char, fold: char -> string)
    requires KeepsSpecials(fold)
    ensures Folded(if IsSpecial(c) then [ESCAPE, c] else [c], fold) == Escaped(fold(c))
  {
    FoldedOne(c, fold);
    if IsSpecial(c) {
      assert [ESCAPE] + [c] == [ESCAPE, c];
      FoldedJoin([ESCAPE], [c], fold);
      FoldedOne(ESCAPE, fold);
      assert Escaped([c][1..]) == [];
    } else {
      NothingToEscape(fold(c));
    }
  }

  lemma {:induction false} FoldingCommutesWithEscaping(term: string, fold: char -> string)
    requires KeepsSpecials(fold)
    ensures Folded(Escaped(term), fold) == Escaped(Folded(term, fold))
  {
    if term == [] {
    } else {
      FoldingCommutesWithEscaping(term[1..], fold);
      var head := if IsSpecial(term[0]) then [ESCAPE, term[0]] else [term[0]];
      FoldedJoin(head, Escaped(term[1..]), fold);
      OneFoldedEscaped(term[0], fold);
      EscapedJoin(fold(term[0]), Folded(term[1..], fold));
    }
  }

  /** The queries bind the pattern to ILIKE: under any folding that leaves the wildcards alone it
      means "contains this term, up to case". */
  lemma PatternMeansContainsUpToCase(text: string, term: string, fold: char -> string)
    requires KeepsSpecials(fold)
    ensures ILike(text, ContainsPatternOf(term), fold)
            == if Contains(Folded(text, fold), Folded(term, fold)) then Yes else No
  {
    FoldingCommutesWithEscaping(term, fold);
    FoldedOne(ANY_RUN, fold);
    FoldedJoin([ANY_RUN] + Escaped(term), [ANY_RUN], fold);
    FoldedJoin([ANY_RUN], Escaped(term), fold);
    assert Folded(ContainsPatternOf(term), fold) == ContainsPatternOf(Folded(term, fold));
    PatternMeansContains(Folded(text, fold), Folded(term, fold));
  }

  function Unescaped(s: string): (text: string) {
    if s == [] then []
    else if s[0] == ESCAPE && |s| > 1 then [s[1]] + Unescaped(s[2..])
    else [s[0]] + Unescaped(s[1..])
  }

  lemma {:induction false} UnescapedEscaped(term: string)
    ensures Unescaped(Escaped(term)) == term
  {
    if term == [] {
    } else {
      var head := if IsSpecial(term[0]) then [ESCAPE, term[0]] else [term[0]];
      assert Escaped(term)[|head|..] == Escaped(term[1..]);
      UnescapedEscaped(term[1..]);
    }
  }

  /** Distinct terms are distinct patterns. */
  lemma PatternsAreDistinct(a: string, b: string)
    ensures ContainsPatternOf(a) == ContainsPatternOf(b) <==> a == b
  {
    if ContainsPatternOf(a) == ContainsPatternOf(b) {
      assert Escaped(a) == ContainsPatternOf(a)[1..|ContainsPatternOf(a)| - 1];
      assert Escaped(b) == ContainsPatternOf(b)[1..|ContainsPatternOf(b)| - 1];
      UnescapedEscaped(a);
      UnescapedEscaped(b);
    }
  }

  // ------------------------------------------------------------------
  // Reading the parameter
  // ------------------------------------------------------------------

  datatype Refusal = Refusal(path: string, rule: string, code: string)

  function NulRefusal(path: string): (r: Refusal) {
    Refusal(path, "pattern", "INVALID_CHARACTER")
  }

  function ParseSearch(path: string, value: Option<string>): (r: Result<Option<string>, Refusal>) {
    if value.None? || Trim(value.value) == [] then Ok(None)
    else if NUL in Trim(value.value) then Err(NulRefusal(path))
    else Ok(Some(Trim(value.value)))
  }

  /** The whole rule, over every raw value and every row: a NUL anywhere is refused and nothing
      else is; all whitespace is no search; anything else binds a pattern PostgreSQL matches with
      exactly the rows that contain the trimmed term. */
  lemma SearchRule(path: string, raw: string, row: string)
    ensures var r := ParseSearch(path, Some(raw));
            && (r.Err? <==> NUL in raw)
            && (r.Err? ==> r.error.path == path)
            && (r == Ok(None) <==> Blank(raw))
            && (r.Ok? && r.value.Some? ==>
                  && NUL !in r.value.value
                  && Like(row, ContainsPatternOf(r.value.value)) == if Contains(row, Trim(raw)) then Yes else No)
  {
    var before, after := TrimSplits(raw);
    PatternMeansContains(row, Trim(raw));
    assert forall c :: c in raw <==> c in before || c in Trim(raw) || c in after;
    assert Trim(raw) != [] ==> Trim(raw)[0] in raw;
  }

  /** What a repository binds: a refusal exactly for a NUL, nothing exactly for no value or blank
      text, and else a pattern that accepts exactly the rows that contain the trimmed term. */
  method ContainsPattern(value: Option<string>) returns (r: Result<Option<string>, Refusal>)
    ensures r.Err? <==> value.Some? && NUL in value.value
    ensures r.Err? ==> r.error == NulRefusal("search")
    ensures r == Ok(None) <==> value.None? || Blank(value.value)
    ensures r.Ok? && r.value.Some? ==>
              && r.value.value == ContainsPatternOf(Trim(value.value))
              && forall row :: Like(row, r.value.value) == if Contains(row, Trim(value.value)) then Yes else No
  {
    var term := ParseSearch("search", value);
    if value.Some? {
      forall row ensures Like(row, ContainsPatternOf(Trim(value.value))) == if Contains(row, Trim(value.value)) then Yes else No {
        PatternMeansContains(row, Trim(value.value));
      }
      SearchRule("search", value.value, "");
    }
    match term {
      case Err(e) => r := Err(e);
      case Ok(None) => r := Ok(None);
      case Ok(Some(search)) =>
        var pattern := LikeContains(search);
        r := Ok(Some(pattern));
    }
  }
}
