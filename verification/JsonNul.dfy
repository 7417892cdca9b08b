/** Refusing a NUL anywhere in a JSON body: a byte scan that may only skip the walk, and the walk
    over the decoded tree that decides. Text is its UTF-8 bytes, as Rust holds it. */
module JsonNul {
  import opened Wrappers
  import T = Text

  type Byte = b: nat | b < 256
  type Bytes = seq<Byte>

  const NUL: Byte := 0
  const QUOTE: Byte := 0x22
  const BACKSLASH: Byte := 0x5C
  const COMMA: Byte := 0x2C
  const COLON: Byte := 0x3A
  const DOT: Byte := 0x2E
  const MINUS: Byte := 0x2D
  const ZERO: Byte := 0x30
  const OPEN_BRACKET: Byte := 0x5B
  const CLOSE_BRACKET: Byte := 0x5D
  const OPEN_BRACE: Byte := 0x7B
  const CLOSE_BRACE: Byte := 0x7D
  const LETTER_U: Byte := 0x75

  /** How deep `serde_json` lets a value nest. */
  const DEPTH_LIMIT: nat := 128

  // ------------------------------------------------------------------
  // The decoded tree
  // ------------------------------------------------------------------

  /** An object's members are in key order, each key once: the map is a B-tree. */
  datatype Value =
    | Null | Bool(b: bool) | Number(digits: Bytes) | String(text: Bytes)
    | Array(items: seq<Value>) | Object(members: seq<(Bytes, Value)>)

  predicate Less(a: Bytes, b: Bytes) {
    b != [] && (a == [] || a[0] < b[0] || (a[0] == b[0] && Less(a[1..], b[1..])))
  }

  function Insert(members: seq<(Bytes, Value)>, key: Bytes, value: Value): (r: seq<(Bytes, Value)>)
    ensures (key, value) in r
    ensures forall m :: m in r ==> m == (key, value) || m in members
    ensures forall m :: m in members && m.0 != key ==> m in r
  {
    if members == [] then [(key, value)]
    else if key == members[0].0 then [(key, value)] + members[1..]
    else if Less(key, members[0].0) then [(key, value)] + members
    else [members[0]] + Insert(members[1..], key, value)
  }

  ghost predicate Sorted(members: seq<(Bytes, Value)>) {
    forall i, j :: 0 <= i < j < |members| ==> Less(members[i].0, members[j].0)
  }

  lemma {:induction false} LessIsAnOrder(a: Bytes, b: Bytes, c: Bytes)
    ensures !Less(a, a)
    ensures Less(a, b) && Less(b, c) ==> Less(a, c)
    ensures Less(a, b) || a == b || Less(b, a)
    decreases |a|
  {
    if a != [] {
      LessIsAnOrder(a[1..], if b == [] then b else b[1..], if c == [] then c else c[1..]);
      if b != [] && a[0] == b[0] && a[1..] == b[1..] {
        assert a == [a[0]] + a[1..] && b == [b[0]] + b[1..];
      }
    }
  }

  lemma SortedWithFirst(first: (Bytes, Value), rest: seq<(Bytes, Value)>)
    requires Sorted(rest) && forall m :: m in rest ==> Less(first.0, m.0)
    ensures Sorted([first] + rest)
  {
  }

  lemma FirstIsLeast(members: seq<(Bytes, Value)>, m: (Bytes, Value))
    requires Sorted(members) && members != [] && m in members[1..]
    ensures Less(members[0].0, m.0)
  {
  }

  lemma {:induction false} InsertKeepsSorted(members: seq<(Bytes, Value)>, key: Bytes, value: Value)
    requires Sorted(members)
    ensures Sorted(Insert(members, key, value))
  {
    if members != [] {
      var first, rest := members[0], members[1..];
      if key == first.0 {
        forall m | m in rest ensures Less(key, m.0) {
          FirstIsLeast(members, m);
        }
        SortedWithFirst((key, value), rest);
      } else if Less(key, first.0) {
        forall m | m in members ensures Less(key, m.0) {
          LessIsAnOrder(key, first.0, m.0);
        }
        SortedWithFirst((key, value), members);
      } else {
        LessIsAnOrder(key, first.0, key);
        InsertKeepsSorted(rest, key, value);
        forall m | m in Insert(rest, key, value) ensures Less(first.0, m.0) {
          if m != (key, value) {
            FirstIsLeast(members, m);
          }
        }
        SortedWithFirst(first, Insert(rest, key, value));
      }
    }
  }

  /** Reading a key again replaces what it held: the members stay in key order, and the last value
      read for a key is the one that is kept. */
  lemma {:induction false} LastOfEqualKeysIsKept(members: seq<(Bytes, Value)>, key: Bytes, value: Value)
    requires Sorted(members)
    ensures Sorted(Insert(members, key, value))
    ensures forall m :: m in Insert(members, key, value) && m.0 == key ==> m.1 == value
  {
    InsertKeepsSorted(members, key, value);
    var r := Insert(members, key, value);
    forall m | m in r && m.0 == key ensures m.1 == value {
      if m != (key, value) {
        OtherMembersHaveOtherKeys(r, key, value, m);
      }
    }
  }

  lemma OtherMembersHaveOtherKeys(r: seq<(Bytes, Value)>, key: Bytes, value: Value, m: (Bytes, Value))
    requires Sorted(r) && (key, value) in r && m in r && m != (key, value)
    ensures m.0 != key
  {
    var i :| 0 <= i < |r| && r[i] == m;
    var j :| 0 <= j < |r| && r[j] == (key, value);
    LessIsAnOrder(key, key, key);
    assert if i < j then Less(r[i].0, r[j].0) else Less(r[j].0, r[i].0);
  }

  // ------------------------------------------------------------------
  // Reading a value (RFC 8259), as serde_json reads one
  // ------------------------------------------------------------------

  /** What was read, and where reading stopped. */
  datatype Read<+T> = Read(value: T, next: nat)

  predicate IsSpace(b: Byte) {
    b == 0x20 || b == 0x0A || b == 0x0D || b == 0x09
  }

  function SkipSpace(b: Bytes, i: nat): (j: nat)
    requires i <= |b|
    ensures i <= j <= |b|
    decreases |b| - i
  {
    if i < |b| && IsSpace(b[i]) then SkipSpace(b, i + 1) else i
  }

  predicate At(b: Bytes, i: nat, c: Byte) {
    i < |b| && b[i] == c
  }

  function HexDigit(c: Byte): (r: Option<nat>) {
    if 0x30 <= c <= 0x39 then Some(c - 0x30)
    else if 0x41 <= c <= 0x46 then Some(c - 0x41 + 10)
    else if 0x61 <= c <= 0x66 then Some(c - 0x61 + 10)
    else None
  }

  function Hex4(b: Bytes, i: nat): (r: Option<nat>)
    ensures r.Some? ==> i + 4 <= |b| && r.value < 0x10000
    ensures r == Some(0) ==> b[i] == ZERO && b[i + 1] == ZERO && b[i + 2] == ZERO && b[i + 3] == ZERO
  {
    if |b| < i + 4 then None
    else
      var d := (HexDigit(b[i]), HexDigit(b[i + 1]), HexDigit(b[i + 2]), HexDigit(b[i + 3]));
      if d.0.None? || d.1.None? || d.2.None? || d.3.None? then None
      else if d.0.value < 16 && d.1.value < 16 && d.2.value < 16 && d.3.value < 16
      then Some(0x1000 * d.0.value + 0x100 * d.1.value + 0x10 * d.2.value + d.3.value)
      else None
  }

  /** The UTF-8 form of a code point: only U+0000 has a zero byte. */
  function Utf8(n: nat): (r: Bytes)
    requires n < 0x110000
    ensures NUL in r ==> n == 0
  {
    if n < 0x80 then [n]
    else if n < 0x800 then [0xC0 + n / 0x40, 0x80 + n % 0x40]
    else if n < 0x10000 then [0xE0 + n / 0x1000, 0x80 + n / 0x40 % 0x40, 0x80 + n % 0x40]
    else [0xF0 + n / 0x40000, 0x80 + n / 0x1000 % 0x40, 0x80 + n / 0x40 % 0x40, 0x80 + n % 0x40]
  }

  /** One escape, from the byte after its backslash. A lone surrogate is refused. */
  function ReadEscape(b: Bytes, i: nat): (r: Option<Read<Bytes>>)
    requires i <= |b|
    ensures r.Some? ==> i < r.value.next <= |b|
    ensures r.Some? && NUL in r.value.value ==>
              i + 5 == r.value.next && b[i] == LETTER_U && Hex4(b, i + 1) == Some(0)
  {
    if i == |b| then None
    else
      var c := b[i];
      if c == QUOTE || c == BACKSLASH || c == 0x2F then Some(Read([c], i + 1))
      else if c == 0x62 then Some(Read([0x08], i + 1))
      else if c == 0x66 then Some(Read([0x0C], i + 1))
      else if c == 0x6E then Some(Read([0x0A], i + 1))
      else if c == 0x72 then Some(Read([0x0D], i + 1))
      else if c == 0x74 then Some(Read([0x09], i + 1))
      else if c != LETTER_U then None
      else
        var first := Hex4(b, i + 1);
        if first.None? || 0xDC00 <= first.value <= 0xDFFF then None
        else if first.value < 0xD800 || 0xDFFF < first.value then Some(Read(Utf8(first.value), i + 5))
        else if !At(b, i + 5, BACKSLASH) || !At(b, i + 6, LETTER_U) then None
        else
          var second := Hex4(b, i + 7);
          if second.None? || second.value < 0xDC00 || 0xDFFF < second.value then None
          else Some(Read(Utf8(0x10000 + 0x400 * (first.value - 0xD800) + (second.value - 0xDC00)), i + 11))
  }

  /** A string from the byte after its opening quote to the byte after its closing one. */
  function ReadString(b: Bytes, i: nat): (r: Option<Read<Bytes>>)
    requires i <= |b|
    ensures r.Some? ==> i < r.value.next <= |b|
    decreases |b| - i
  {
    if i == |b| then None
    else if b[i] == QUOTE then Some(Read([], i + 1))
    else if b[i] < 0x20 then None
    else if b[i] == BACKSLASH then
      var escape := ReadEscape(b, i + 1);
      if escape.None? then None
      else
        var rest := ReadString(b, escape.value.next);
        if rest.None? then None else Some(Read(escape.value.value + rest.value.value, rest.value.next))
    else
      var rest := ReadString(b, i + 1);
      if rest.None? then None else Some(Read([b[i]] + rest.value.value, rest.value.next))
  }

  function SkipDigits(b: Bytes, i: nat): (j: nat)
    requires i <= |b|
    ensures i <= j <= |b|
    decreases |b| - i
  {
    if i < |b| && 0x30 <= b[i] <= 0x39 then SkipDigits(b, i + 1) else i
  }

  /** Past a fraction or an exponent that starts here, or None if it starts and has no digits. */
  function SkipPart(b: Bytes, i: nat, exponent: bool): (r: Option<nat>)
    requires i <= |b|
    ensures r.Some? ==> i <= r.value <= |b|
  {
    if exponent && (At(b, i, 0x65) || At(b, i, 0x45)) then
      var j := if At(b, i + 1, MINUS) || At(b, i + 1, 0x2B) then i + 2 else i + 1;
      if SkipDigits(b, j) == j then None else Some(SkipDigits(b, j))
    else if !exponent && At(b, i, DOT) then
      if SkipDigits(b, i + 1) == i + 1 then None else Some(SkipDigits(b, i + 1))
    else Some(i)
  }

  function ReadNumber(b: Bytes, i: nat): (r: Option<Read<Value>>)
    requires i <= |b|
    ensures r.Some? ==> i < r.value.next <= |b| && r.value.value.Number?
  {
    var start := if At(b, i, MINUS) then i + 1 else i;
    var whole := SkipDigits(b, start);
    if whole == start || (b[start] == ZERO && whole != start + 1) then None
    else
      var fraction := SkipPart(b, whole, false);
      if fraction.None? then None
      else
        var end := SkipPart(b, fraction.value, true);
        if end.None? then None else Some(Read(Number(b[i..end.value]), end.value))
  }

  function ReadWord(b: Bytes, i: nat, word: Bytes, value: Value): (r: Option<Read<Value>>)
    requires i <= |b| && word != []
    ensures r.Some? ==> i < r.value.next <= |b| && r.value.value == value
  {
    if i + |word| <= |b| && b[i..i + |word|] == word then Some(Read(value, i + |word|)) else None
  }

  function ReadValue(b: Bytes, from: nat, depth: nat): (r: Option<Read<Value>>)
    requires from <= |b|
    ensures r.Some? ==> from < r.value.next <= |b|
    decreases |b| - from, 2
  {
    var i := SkipSpace(b, from);
    if i == |b| then None else ReadValueAt(b, i, depth)
  }

  function ReadValueAt(b: Bytes, i: nat, depth: nat): (r: Option<Read<Value>>)
    requires i < |b|
    ensures r.Some? ==> i < r.value.next <= |b|
    decreases |b| - i, 1
  {
    if b[i] == QUOTE then
      var text := ReadString(b, i + 1);
      if text.None? then None else Some(Read(String(text.value.value), text.value.next))
    else if b[i] == OPEN_BRACKET then ReadArray(b, i, depth)
    else if b[i] == OPEN_BRACE then ReadObject(b, i, depth)
    else if b[i] == 0x6E then ReadWord(b, i, [0x6E, 0x75, 0x6C, 0x6C], Null)
    else if b[i] == 0x74 then ReadWord(b, i, [0x74, 0x72, 0x75, 0x65], Bool(true))
    else if b[i] == 0x66 then ReadWord(b, i, [0x66, 0x61, 0x6C, 0x73, 0x65], Bool(false))
    else ReadNumber(b, i)
  }

  function ReadArray(b: Bytes, i: nat, depth: nat): (r: Option<Read<Value>>)
    requires i < |b|
    ensures r.Some? ==> i < r.value.next <= |b| && r.value.value.Array?
    decreases |b| - i, 0
  {
    if depth <= 1 then None
    else if At(b, SkipSpace(b, i + 1), CLOSE_BRACKET) then Some(Read(Array([]), SkipSpace(b, i + 1) + 1))
    else
      var items := ReadItems(b, i + 1, depth - 1);
      if items.None? then None else Some(Read(Array(items.value.value), items.value.next))
  }

  function ReadObject(b: Bytes, i: nat, depth: nat): (r: Option<Read<Value>>)
    requires i < |b|
    ensures r.Some? ==> i < r.value.next <= |b| && r.value.value.Object?
    decreases |b| - i, 0
  {
    if depth <= 1 then None
    else if At(b, SkipSpace(b, i + 1), CLOSE_BRACE) then Some(Read(Object([]), SkipSpace(b, i + 1) + 1))
    else
      var members := ReadMembers(b, i + 1, depth - 1, []);
      if members.None? then None else Some(Read(Object(members.value.value), members.value.next))
  }

  /** One or more items and the closing bracket. */
  function ReadItems(b: Bytes, i: nat, depth: nat): (r: Option<Read<seq<Value>>>)
    requires i <= |b|
    ensures r.Some? ==> i < r.value.next <= |b|
    decreases |b| - i, 3
  {
    var item := ReadValue(b, i, depth);
    if item.None? then None
    else
      var j := SkipSpace(b, item.value.next);
      if At(b, j, CLOSE_BRACKET) then Some(Read([item.value.value], j + 1))
      else if !At(b, j, COMMA) then None
      else
        var rest := ReadItems(b, j + 1, depth);
        if rest.None? then None else Some(Read([item.value.value] + rest.value.value, rest.value.next))
  }

  /** One key, a colon and the value. */
  function ReadMember(b: Bytes, from: nat, depth: nat): (r: Option<Read<(Bytes, Value)>>)
    requires from <= |b|
    ensures r.Some? ==> from < r.value.next <= |b|
    decreases |b| - from, 3
  {
    var i := SkipSpace(b, from);
    if !At(b, i, QUOTE) then None
    else
      var key := ReadString(b, i + 1);
      if key.None? then None
      else
        var colon := SkipSpace(b, key.value.next);
        if !At(b, colon, COLON) then None
        else
          var value := ReadValue(b, colon + 1, depth);
          if value.None? then None else Some(Read((key.value.value, value.value.value), value.value.next))
  }

  /** One or more members and the closing brace, each inserted over an earlier equal key. */
  function ReadMembers(b: Bytes, i: nat, depth: nat, members: seq<(Bytes, Value)>)
      : (r: Option<Read<seq<(Bytes, Value)>>>)
    requires i <= |b|
    ensures r.Some? ==> i < r.value.next <= |b|
    decreases |b| - i, 4
  {
    var member := ReadMember(b, i, depth);
    if member.None? then None
    else
      var j := SkipSpace(b, member.value.next);
      var more := Insert(members, member.value.value.0, member.value.value.1);
      if At(b, j, CLOSE_BRACE) then Some(Read(more, j + 1))
      else if !At(b, j, COMMA) then None
      else ReadMembers(b, j + 1, depth, more)
  }

  /** Bytes after the value are not looked at here: the body is read again, and to its end, as the
      type the handler asked for. */
  function ReadBody(b: Bytes): (r: Option<Value>) {
    var r := ReadValue(b, 0, DEPTH_LIMIT);
    if r.None? then None else Some(r.value.value)
  }

  // ------------------------------------------------------------------
  // The fast scan never misses
  // ------------------------------------------------------------------

  const ESCAPED_NUL: Bytes := [BACKSLASH, LETTER_U, ZERO, ZERO, ZERO, ZERO]

  predicate EscapeAt(b: Bytes, k: nat) {
    k + |ESCAPED_NUL| <= |b| && b[k..k + |ESCAPED_NUL|] == ESCAPED_NUL
  }

  predicate MayHoldNul(b: Bytes) {
    exists k :: 0 <= k < |b| && EscapeAt(b, k)
  }

  ghost predicate EscapeIn(b: Bytes, from: nat, to: nat) {
    exists k :: from <= k && k + 6 <= to && EscapeAt(b, k)
  }

  predicate HasNul(v: Value) {
    match v
    case String(text) => NUL in text
    case Array(items) => exists i :: 0 <= i < |items| && HasNul(items[i])
    case Object(members) => exists i :: 0 <= i < |members| && (NUL in members[i].0 || HasNul(members[i].1))
    case _ => false
  }

  lemma {:induction false} NulInStringIsEscaped(b: Bytes, i: nat)
    requires i <= |b|
    requires var r := ReadString(b, i); r.Some? && NUL in r.value.value
    ensures EscapeIn(b, i, ReadString(b, i).value.next)
    decreases |b| - i
  {
    if b[i] == BACKSLASH {
      var escape := ReadEscape(b, i + 1).value;
      if NUL in escape.value {
        assert b[i..i + 6] == ESCAPED_NUL;
        assert EscapeAt(b, i);
      } else {
        NulInStringIsEscaped(b, escape.next);
      }
    } else {
      NulInStringIsEscaped(b, i + 1);
    }
  }

  ghost predicate AnyHasNul(items: seq<Value>) {
    exists v :: v in items && HasNul(v)
  }

  ghost predicate AnyMemberHasNul(members: seq<(Bytes, Value)>) {
    exists m :: m in members && (NUL in m.0 || HasNul(m.1))
  }

  lemma EscapeWidens(b: Bytes, i: nat, j: nat, from: nat, to: nat)
    requires EscapeIn(b, i, j) && from <= i && j <= to
    ensures EscapeIn(b, from, to)
  {
    var k :| i <= k && k + 6 <= j && EscapeAt(b, k);
    assert from <= k && k + 6 <= to;
  }

  lemma NulInSomeItem(v: Value)
    requires v.Array? && HasNul(v)
    ensures AnyHasNul(v.items)
  {
    var k :| 0 <= k < |v.items| && HasNul(v.items[k]);
    assert v.items[k] in v.items;
  }

  lemma NulInRest(item: Value, rest: seq<Value>)
    requires AnyHasNul([item] + rest) && !HasNul(item)
    ensures AnyHasNul(rest)
  {
    var v :| v in [item] + rest && HasNul(v);
    assert v in rest;
  }

  lemma NulInSomeMember(v: Value)
    requires v.Object? && HasNul(v)
    ensures AnyMemberHasNul(v.members)
  {
    var k :| 0 <= k < |v.members| && (NUL in v.members[k].0 || HasNul(v.members[k].1));
    assert v.members[k] in v.members;
  }

  lemma {:induction false} NulInValueIsEscaped(b: Bytes, from: nat, depth: nat)
    requires from <= |b|
    requires var r := ReadValue(b, from, depth); r.Some? && HasNul(r.value.value)
    ensures EscapeIn(b, from, ReadValue(b, from, depth).value.next)
    decreases |b| - from, 2
  {
    var i, end := SkipSpace(b, from), ReadValue(b, from, depth).value.next;
    if b[i] == QUOTE {
      NulInStringIsEscaped(b, i + 1);
      EscapeWidens(b, i + 1, end, from, end);
    } else if b[i] == OPEN_BRACKET {
      NulInArrayIsEscaped(b, i, depth);
      EscapeWidens(b, i, end, from, end);
    } else if b[i] == OPEN_BRACE {
      NulInObjectIsEscaped(b, i, depth);
      EscapeWidens(b, i, end, from, end);
    }
  }

  lemma {:induction false} NulInArrayIsEscaped(b: Bytes, i: nat, depth: nat)
    requires i < |b|
    requires var r := ReadArray(b, i, depth); r.Some? && HasNul(r.value.value)
    ensures EscapeIn(b, i, ReadArray(b, i, depth).value.next)
    decreases |b| - i, 0
  {
    var items := ReadArray(b, i, depth).value;
    NulInSomeItem(items.value);
    NulInItemsIsEscaped(b, i + 1, depth - 1);
    EscapeWidens(b, i + 1, items.next, i, items.next);
  }

  lemma {:induction false} NulInObjectIsEscaped(b: Bytes, i: nat, depth: nat)
    requires i < |b|
    requires var r := ReadObject(b, i, depth); r.Some? && HasNul(r.value.value)
    ensures EscapeIn(b, i, ReadObject(b, i, depth).value.next)
    decreases |b| - i, 0
  {
    var members := ReadObject(b, i, depth).value;
    NulInSomeMember(members.value);
    NulInMembersIsEscaped(b, i + 1, depth - 1, []);
    EscapeWidens(b, i + 1, members.next, i, members.next);
  }

  /** When the first item holds no NUL but the items read do, the rest is read after a comma. */
  lemma ItemsGoOn(b: Bytes, i: nat, depth: nat) returns (comma: nat)
    requires i <= |b|
    requires var r := ReadItems(b, i, depth); r.Some? && AnyHasNul(r.value.value)
    requires !HasNul(ReadValue(b, i, depth).value.value)
    ensures i <= comma < |b|
    ensures var r, rest := ReadItems(b, i, depth).value, ReadItems(b, comma + 1, depth);
            rest.Some? && AnyHasNul(rest.value.value) && rest.value.next == r.next
  {
    var item := ReadValue(b, i, depth).value;
    comma := SkipSpace(b, item.next);
    NulInRest(item.value, ReadItems(b, comma + 1, depth).value.value);
  }

  lemma {:induction false} NulInItemsIsEscaped(b: Bytes, i: nat, depth: nat)
    requires i <= |b|
    requires var r := ReadItems(b, i, depth); r.Some? && AnyHasNul(r.value.value)
    ensures EscapeIn(b, i, ReadItems(b, i, depth).value.next)
    decreases |b| - i, 3
  {
    var end := ReadItems(b, i, depth).value.next;
    var item := ReadValue(b, i, depth).value;
    if HasNul(item.value) {
      NulInValueIsEscaped(b, i, depth);
      EscapeWidens(b, i, item.next, i, end);
    } else {
      var comma := ItemsGoOn(b, i, depth);
      NulInItemsIsEscaped(b, comma + 1, depth);
      EscapeWidens(b, comma + 1, end, i, end);
    }
  }

  lemma InsertAddsNoNul(members: seq<(Bytes, Value)>, key: Bytes, value: Value)
    requires !AnyMemberHasNul(members) && NUL !in key && !HasNul(value)
    ensures !AnyMemberHasNul(Insert(members, key, value))
  {
  }

  lemma {:induction false} NulInMemberIsEscaped(b: Bytes, from: nat, depth: nat)
    requires from <= |b|
    requires var r := ReadMember(b, from, depth); r.Some? && (NUL in r.value.value.0 || HasNul(r.value.value.1))
    ensures EscapeIn(b, from, ReadMember(b, from, depth).value.next)
    decreases |b| - from, 3
  {
    var i := SkipSpace(b, from);
    var key := ReadString(b, i + 1).value;
    var colon := SkipSpace(b, key.next);
    var value := ReadValue(b, colon + 1, depth).value;
    if NUL in key.value {
      NulInStringIsEscaped(b, i + 1);
      EscapeWidens(b, i + 1, key.next, from, value.next);
    } else {
      NulInValueIsEscaped(b, colon + 1, depth);
      EscapeWidens(b, colon + 1, value.next, from, value.next);
    }
  }

  /** When neither the members so far nor the next one holds a NUL but the object read does, reading
      goes on after a comma, with members that hold none. */
  lemma MembersGoOn(b: Bytes, i: nat, depth: nat, members: seq<(Bytes, Value)>) returns (comma: nat, more: seq<(Bytes, Value)>)
    requires i <= |b| && !AnyMemberHasNul(members)
    requires var r := ReadMembers(b, i, depth, members); r.Some? && AnyMemberHasNul(r.value.value)
    requires var member := ReadMember(b, i, depth).value.value; NUL !in member.0 && !HasNul(member.1)
    ensures i <= comma < |b| && !AnyMemberHasNul(more)
    ensures ReadMembers(b, i, depth, members) == ReadMembers(b, comma + 1, depth, more)
  {
    var member := ReadMember(b, i, depth).value;
    comma := SkipSpace(b, member.next);
    more := Insert(members, member.value.0, member.value.1);
    InsertAddsNoNul(members, member.value.0, member.value.1);
  }

  /** Of the members read, one holding a NUL was there before or was escaped in these bytes. */
  lemma {:induction false} NulInMembersIsEscaped(b: Bytes, i: nat, depth: nat, members: seq<(Bytes, Value)>)
    requires i <= |b| && !AnyMemberHasNul(members)
    requires var r := ReadMembers(b, i, depth, members); r.Some? && AnyMemberHasNul(r.value.value)
    ensures EscapeIn(b, i, ReadMembers(b, i, depth, members).value.next)
    decreases |b| - i, 4
  {
    var end := ReadMembers(b, i, depth, members).value.next;
    var member := ReadMember(b, i, depth).value;
    if NUL in member.value.0 || HasNul(member.value.1) {
      NulInMemberIsEscaped(b, i, depth);
      EscapeWidens(b, i, member.next, i, end);
    } else {
      var comma, more := MembersGoOn(b, i, depth, members);
      NulInRestIsEscaped(b, i, comma, depth, members, more);
    }
  }

  lemma {:induction false} NulInRestIsEscaped(
      b: Bytes, i: nat, comma: nat, depth: nat, members: seq<(Bytes, Value)>, more: seq<(Bytes, Value)>)
    requires i <= comma < |b| && !AnyMemberHasNul(more)
    requires ReadMembers(b, i, depth, members) == ReadMembers(b, comma + 1, depth, more)
    requires var r := ReadMembers(b, i, depth, members); r.Some? && AnyMemberHasNul(r.value.value)
    ensures EscapeIn(b, i, ReadMembers(b, i, depth, members).value.next)
    decreases |b| - comma, 0
  {
    var end := ReadMembers(b, i, depth, members).value.next;
    NulInMembersIsEscaped(b, comma + 1, depth, more);
    EscapeWidens(b, comma + 1, end, i, end);
  }

  // ------------------------------------------------------------------
  // The walk
  // ------------------------------------------------------------------

  /** A number in decimal, as bytes. */
  function Digits(n: nat): (bytes: Bytes) {
    if n < 10 then [ZERO + n] else Digits(n / 10) + [ZERO + n % 10]
  }

  function Index(i: nat): (bytes: Bytes) {
    [OPEN_BRACKET] + Digits(i) + [CLOSE_BRACKET]
  }

  function Join(path: Bytes, field: Bytes): (bytes: Bytes) {
    if path == [] || path == [DOT] then field else path + [DOT] + field
  }

  const BODY: Bytes := [0x62, 0x6F, 0x64, 0x79]

  function Named(path: Bytes): (bytes: Bytes) {
    if path == [] then BODY else path
  }

  /** What the walk finds in `v`, in the order it finds it. */
  function Found(v: Value, path: Bytes): (r: seq<Bytes>)
    decreases v, 1, 0
  {
    match v
    case String(text) => if NUL in text then [Named(path)] else []
    case Array(items) => FoundIn(v, path, |items|)
    case Object(members) => FoundIn(v, path, |members|)
    case _ => []
  }

  /** ... in the first `n` items or members of `v` ... */
  function FoundIn(v: Value, path: Bytes, n: nat): (r: seq<Bytes>)
    requires HasParts(v, n)
    decreases v, 0, n
  {
    if n == 0 then [] else FoundIn(v, path, n - 1) + FoundInPart(v, path, n - 1)
  }

  /** ... and in the one at `k`. */
  function FoundInPart(v: Value, path: Bytes, k: nat): (r: seq<Bytes>)
    requires HasParts(v, k + 1)
    decreases v, 0, 0
  {
    if v.Array? then Found(v.items[k], path + Index(k))
    else
      var (key, member) := v.members[k];
      var at := Join(path, key);
      (if NUL in key then [at] else []) + Found(member, at)
  }

  predicate HasParts(v: Value, n: nat) {
    (v.Array? && n <= |v.items|) || (v.Object? && n <= |v.members|)
  }

  function NulPaths(v: Value): (r: seq<Bytes>) {
    T.KeepFirst(Found(v, []))
  }

  method Visit(value: Value, path: Bytes, found: seq<Bytes>) returns (all: seq<Bytes>)
    ensures all == found + Found(value, path)
    decreases value, 1
  {
    match value {
      case String(text) =>
        if NUL in text {
          all := found + [if path == [] then BODY else path];
        } else {
          all := found;
        }
      case Array(_) => all := VisitItems(value, path, found);
      case Object(_) => all := VisitMembers(value, path, found);
      case _ => all := found;
    }
  }

  method VisitItems(value: Value, path: Bytes, found: seq<Bytes>) returns (all: seq<Bytes>)
    requires value.Array?
    ensures all == found + FoundIn(value, path, |value.items|)
    decreases value, 0
  {
    all := found;
    for index := 0 to |value.items|
      invariant all == found + FoundIn(value, path, index)
    {
      all := Visit(value.items[index], path + Index(index), all);
      FoundInOneMore(value, path, found, index);
    }
  }

  lemma FoundInOneMore(v: Value, path: Bytes, found: seq<Bytes>, n: nat)
    requires HasParts(v, n + 1)
    ensures found + FoundIn(v, path, n + 1) == found + FoundIn(v, path, n) + FoundInPart(v, path, n)
  {
  }

  lemma MemberIsAPart(v: Value, path: Bytes, before: seq<Bytes>, k: nat)
    requires v.Object? && k < |v.members|
    ensures var (key, member) := v.members[k]; var at := Join(path, key);
            before + FoundInPart(v, path, k) == (if NUL in key then before + [at] else before) + Found(member, at)
  {
  }

  method VisitMembers(value: Value, path: Bytes, found: seq<Bytes>) returns (all: seq<Bytes>)
    requires value.Object?
    ensures all == found + FoundIn(value, path, |value.members|)
    decreases value, 0
  {
    all := found;
    for index := 0 to |value.members|
      invariant all == found + FoundIn(value, path, index)
    {
      ghost var before := all;
      var (key, member) := value.members[index];
      var at := Join(path, key);
      if NUL in key {
        all := all + [at];
      }
      all := Visit(member, at, all);
      MemberIsAPart(value, path, before, index);
      FoundInOneMore(value, path, found, index);
    }
  }

  method CollectNulPaths(body: Value) returns (paths: seq<Bytes>)
    ensures paths == NulPaths(body)
  {
    var found := Visit(body, [], []);
    assert found == Found(body, []);
    paths := RetainFirst(found);
  }

  ghost predicate SameItems(named: set<Bytes>, paths: seq<Bytes>) {
    forall p :: p in named <==> p in paths
  }

  lemma AddToBoth(named: set<Bytes>, paths: seq<Bytes>, p: Bytes)
    requires SameItems(named, paths)
    ensures SameItems(named + {p}, paths + [p])
  {
  }

  lemma RetainStep(found: seq<Bytes>, i: nat, named: set<Bytes>, paths: seq<Bytes>)
    requires i < |found| && Retained(found, i, named, paths)
    ensures if found[i] in named then Retained(found, i + 1, named, paths)
            else Retained(found, i + 1, named + {found[i]}, paths + [found[i]])
  {
    T.KeepFirstStep(found, i);
    AddToBoth(named, paths, found[i]);
  }

  /** What is kept of the first `i` names, in order and as a set. */
  ghost predicate Retained(found: seq<Bytes>, i: nat, named: set<Bytes>, paths: seq<Bytes>) {
    i <= |found| && paths == T.KeepFirst(found[..i]) && SameItems(named, paths)
  }

  /** `retain` over the names found, through a set of those already kept. */
  method RetainFirst(found: seq<Bytes>) returns (paths: seq<Bytes>)
    ensures paths == T.KeepFirst(found)
  {
    var named: set<Bytes> := {};
    paths := [];
    for i := 0 to |found|
      invariant Retained(found, i, named, paths)
    {
      RetainStep(found, i, named, paths);
      if found[i] !in named {
        named := named + {found[i]};
        paths := paths + [found[i]];
      }
    }
    assert found[..|found|] == found;
  }

  // ------------------------------------------------------------------
  // What the walk names
  // ------------------------------------------------------------------

  datatype Step = Item(index: nat) | Member(key: Bytes)

  /** A place in a tree that holds a NUL: a string, or a key and then the place ends there. */
  ghost predicate NulAt(v: Value, place: seq<Step>)
    decreases |place|
  {
    if place == [] then v.String? && NUL in v.text
    else match place[0]
      case Item(i) => v.Array? && i < |v.items| && NulAt(v.items[i], place[1..])
      case Member(key) =>
        v.Object? && exists k :: 0 <= k < |v.members| && NulAtMember(v.members[k], key, place[1..])
  }

  ghost predicate NulAtMember(member: (Bytes, Value), key: Bytes, rest: seq<Step>)
    decreases |rest| + 1, 0
  {
    member.0 == key && ((rest == [] && NUL in key) || NulAt(member.1, rest))
  }

  function Extended(path: Bytes, step: Step): (bytes: Bytes) {
    if step.Item? then path + Index(step.index) else Join(path, step.key)
  }

  function Rendered(path: Bytes, place: seq<Step>): (bytes: Bytes)
    decreases |place|
  {
    if place == [] then path else Rendered(Extended(path, place[0]), place[1..])
  }

  ghost predicate Names(v: Value, path: Bytes, name: Bytes) {
    exists place :: NulAt(v, place) && name == Named(Rendered(path, place))
  }

  lemma {:induction false} FoundIsAPlace(v: Value, path: Bytes, name: Bytes)
    requires name in Found(v, path)
    ensures Names(v, path, name)
    decreases v, 1, 0
  {
    match v
    case String(text) =>
      assert NulAt(v, []) && Rendered(path, []) == path;
    case Array(items) => FoundInIsAPlace(v, path, |items|, name);
    case Object(members) => FoundInIsAPlace(v, path, |members|, name);
  }

  lemma {:induction false} FoundInIsAPlace(v: Value, path: Bytes, n: nat, name: Bytes)
    requires HasParts(v, n)
    requires name in FoundIn(v, path, n)
    ensures Names(v, path, name)
    decreases v, 0, n
  {
    if name in FoundIn(v, path, n - 1) {
      FoundInIsAPlace(v, path, n - 1, name);
    } else {
      FoundInPartIsAPlace(v, path, n - 1, name);
    }
  }

  lemma {:induction false} FoundInPartIsAPlace(v: Value, path: Bytes, k: nat, name: Bytes)
    requires HasParts(v, k + 1) && name in FoundInPart(v, path, k)
    ensures Names(v, path, name)
    decreases v, 0, 0
  {
    if v.Array? {
      FoundIsAPlace(v.items[k], path + Index(k), name);
      ItemHoldsPlace(v, path, k, name);
    } else {
      var (key, member) := v.members[k];
      if name in Found(member, Join(path, key)) {
        FoundIsAPlace(member, Join(path, key), name);
        MemberHoldsPlace(v, path, k, name);
      } else {
        KeyIsAPlace(v, path, k);
      }
    }
  }

  lemma ItemHoldsPlace(v: Value, path: Bytes, i: nat, name: Bytes)
    requires v.Array? && i < |v.items| && Names(v.items[i], path + Index(i), name)
    ensures Names(v, path, name)
  {
    var rest :| NulAt(v.items[i], rest) && name == Named(Rendered(path + Index(i), rest));
    PlaceBelow(v, path, Item(i), rest);
  }

  lemma MemberHoldsPlace(v: Value, path: Bytes, k: nat, name: Bytes)
    requires v.Object? && k < |v.members| && Names(v.members[k].1, Join(path, v.members[k].0), name)
    ensures Names(v, path, name)
  {
    var (key, member) := v.members[k];
    var rest :| NulAt(member, rest) && name == Named(Rendered(Join(path, key), rest));
    assert NulAtMember(v.members[k], key, rest);
    PlaceBelow(v, path, Member(key), rest);
  }

  lemma KeyIsAPlace(v: Value, path: Bytes, k: nat)
    requires v.Object? && k < |v.members| && NUL in v.members[k].0
    ensures Names(v, path, Join(path, v.members[k].0))
  {
    var key := v.members[k].0;
    var at := Join(path, key);
    assert NulAtMember(v.members[k], key, []);
    PlaceBelow(v, path, Member(key), []);
    assert at != [] && Rendered(at, []) == at;
  }

  lemma PlaceBelow(v: Value, path: Bytes, step: Step, rest: seq<Step>)
    requires step.Item? ==> v.Array? && step.index < |v.items| && NulAt(v.items[step.index], rest)
    requires step.Member? ==> v.Object? && exists k :: 0 <= k < |v.members| && NulAtMember(v.members[k], step.key, rest)
    ensures NulAt(v, [step] + rest)
    ensures Rendered(path, [step] + rest) == Rendered(Extended(path, step), rest)
  {
    assert ([step] + rest)[1..] == rest;
  }

  lemma {:induction false} PlaceIsFound(v: Value, path: Bytes, place: seq<Step>)
    requires NulAt(v, place)
    ensures Named(Rendered(path, place)) in Found(v, path)
    decreases |place|, 1
  {
    if place == [] {
    } else if place[0].Item? {
      var i := place[0].index;
      PlaceIsFound(v.items[i], path + Index(i), place[1..]);
      InPartIsInWhole(v, path, i, Named(Rendered(path, place)));
    } else {
      var k :| 0 <= k < |v.members| && NulAtMember(v.members[k], place[0].key, place[1..]);
      MemberPlaceIsFound(v, path, k, place[1..]);
    }
  }

  lemma InPartIsInWhole(v: Value, path: Bytes, k: nat, name: Bytes)
    requires HasParts(v, k + 1) && name in FoundInPart(v, path, k)
    ensures name in Found(v, path)
  {
    FoundInGrows(v, path, k + 1, if v.Array? then |v.items| else |v.members|, name);
  }

  lemma {:induction false} MemberPlaceIsFound(v: Value, path: Bytes, k: nat, rest: seq<Step>)
    requires v.Object? && k < |v.members| && NulAtMember(v.members[k], v.members[k].0, rest)
    ensures Named(Rendered(Join(path, v.members[k].0), rest)) in Found(v, path)
    decreases |rest| + 1, 0
  {
    var (key, member) := v.members[k];
    var at := Join(path, key);
    var name := Named(Rendered(at, rest));
    assert name in Found(member, at) || (NUL in key && name == at) by {
      if NulAt(member, rest) {
        PlaceIsFound(member, at, rest);
      } else {
        assert Rendered(at, []) == at && Named(at) == at;
      }
    }
    InPartIsInWhole(v, path, k, name);
  }

  lemma {:induction false} FoundInGrows(v: Value, path: Bytes, m: nat, n: nat, name: Bytes)
    requires m <= n && HasParts(v, n) && name in FoundIn(v, path, m)
    ensures name in FoundIn(v, path, n)
    decreases n - m
  {
    if m < n {
      FoundInGrows(v, path, m, n - 1, name);
    }
  }

  /** The names reported are exactly the paths of the strings and keys that hold a NUL, each once,
      in the order in which each was first found. */
  lemma NulPathsNameEveryNul(v: Value, name: Bytes)
    ensures name in NulPaths(v) <==> Names(v, [], name)
    ensures T.Distinct(NulPaths(v))
    ensures forall i, j :: 0 <= i < j < |NulPaths(v)| ==>
              T.FirstIndex(Found(v, []), NulPaths(v)[i]) < T.FirstIndex(Found(v, []), NulPaths(v)[j])
  {
    if name in Found(v, []) {
      FoundIsAPlace(v, [], name);
    }
    if Names(v, [], name) {
      var place :| NulAt(v, place) && name == Named(Rendered([], place));
      PlaceIsFound(v, [], place);
    }
    forall i, j | 0 <= i < j < |NulPaths(v)|
      ensures T.FirstIndex(Found(v, []), NulPaths(v)[i]) < T.FirstIndex(Found(v, []), NulPaths(v)[j])
    {
      T.KeepFirstKeepsOrder(Found(v, []), i, j);
    }
  }

  predicate PartHasNul(v: Value, k: nat)
    requires HasParts(v, k + 1)
  {
    if v.Array? then HasNul(v.items[k]) else NUL in v.members[k].0 || HasNul(v.members[k].1)
  }

  ghost predicate SomePartHasNul(v: Value, n: nat)
    requires HasParts(v, n)
  {
    exists k :: 0 <= k < n && PartHasNul(v, k)
  }

  lemma HasNulInSomePart(v: Value, n: nat)
    requires HasParts(v, n) && n == (if v.Array? then |v.items| else |v.members|)
    ensures HasNul(v) <==> SomePartHasNul(v, n)
  {
    if HasNul(v) {
      if v.Array? {
        var k :| 0 <= k < n && HasNul(v.items[k]);
        assert PartHasNul(v, k);
      } else {
        var k :| 0 <= k < n && (NUL in v.members[k].0 || HasNul(v.members[k].1));
        assert PartHasNul(v, k);
      }
    }
  }

  lemma {:induction false} FoundIffHasNul(v: Value, path: Bytes)
    ensures Found(v, path) != [] <==> HasNul(v)
    decreases v, 1, 0
  {
    match v
    case Array(items) =>
      FoundInIffHasNul(v, path, |items|);
      HasNulInSomePart(v, |items|);
    case Object(members) =>
      FoundInIffHasNul(v, path, |members|);
      HasNulInSomePart(v, |members|);
    case _ =>
  }

  lemma {:induction false} FoundInIffHasNul(v: Value, path: Bytes, n: nat)
    requires HasParts(v, n)
    ensures FoundIn(v, path, n) != [] <==> SomePartHasNul(v, n)
    decreases v, 0, n
  {
    if n > 0 {
      FoundInIffHasNul(v, path, n - 1);
      FoundInPartIffHasNul(v, path, n - 1);
      SomePartStep(v, n - 1);
    }
  }

  lemma SomePartStep(v: Value, k: nat)
    requires HasParts(v, k + 1)
    ensures SomePartHasNul(v, k + 1) <==> SomePartHasNul(v, k) || PartHasNul(v, k)
  {
  }

  lemma {:induction false} FoundInPartIffHasNul(v: Value, path: Bytes, k: nat)
    requires HasParts(v, k + 1)
    ensures FoundInPart(v, path, k) != [] <==> PartHasNul(v, k)
    decreases v, 0, 0
  {
    if v.Array? {
      FoundIffHasNul(v.items[k], path + Index(k));
    } else {
      FoundIffHasNul(v.members[k].1, Join(path, v.members[k].0));
    }
  }

  /** No name is reported exactly when no string and no key at any depth holds a NUL. */
  lemma NothingNamedExactlyWithoutNul(v: Value)
    ensures NulPaths(v) == [] <==> !HasNul(v)
  {
    FoundIffHasNul(v, []);
    if Found(v, []) != [] {
      assert Found(v, [])[0] in NulPaths(v);
    } else {
      assert NulPaths(v) == [];
    }
  }

  // ------------------------------------------------------------------
  // The refusal
  // ------------------------------------------------------------------

  datatype Refusal = Unreadable | HoldsNul(paths: seq<Bytes>)

  function RefuseByWalk(b: Bytes): (r: Result<(), Refusal>) {
    match ReadBody(b)
    case None => Err(Unreadable)
    case Some(v) => if NulPaths(v) == [] then Ok(()) else Err(HoldsNul(NulPaths(v)))
  }

  method RefuseNulInBody(b: Bytes) returns (r: Result<(), Refusal>)
    ensures r == if MayHoldNul(b) then RefuseByWalk(b) else Ok(())
  {
    if !MayHoldNul(b) {
      return Ok(());
    }
    var body := ReadBody(b);
    if body.None? {
      return Err(Unreadable);
    }
    var paths := CollectNulPaths(body.value);
    return if paths == [] then Ok(()) else Err(HoldsNul(paths));
  }

  /** The scan never skips a body the walk would refuse for a NUL. With it and without it the
      answer is the same exactly for the bodies that read as a value or hold the escape; the others
      hold no NUL and are left to the reading that follows. */
  lemma FastScanNeverMisses(b: Bytes)
    ensures RefuseByWalk(b).Err? && RefuseByWalk(b).error.HoldsNul? ==> MayHoldNul(b)
    ensures (if MayHoldNul(b) then RefuseByWalk(b) else Ok(())) == RefuseByWalk(b)
            <==> ReadBody(b).Some? || MayHoldNul(b)
  {
    if ReadBody(b).Some? {
      var v := ReadBody(b).value;
      NothingNamedExactlyWithoutNul(v);
      if HasNul(v) {
        NulInValueIsEscaped(b, 0, DEPTH_LIMIT);
        var k :| 0 <= k && k + 6 <= ReadValue(b, 0, DEPTH_LIMIT).value.next && EscapeAt(b, k);
        assert MayHoldNul(b);
      }
    }
  }

  lemma {:induction false} PlainBytes(b: Bytes, i: nat, j: nat)
    requires i <= j < |b| && b[j] == QUOTE
    requires forall k :: i <= k < j ==> 0x20 <= b[k] && b[k] != QUOTE && b[k] != BACKSLASH
    ensures ReadString(b, i) == Some(Read(b[i..j], j + 1))
    decreases j - i
  {
    if i == j {
      assert b[i..j] == [];
    } else {
      PlainBytes(b, i + 1, j);
      assert b[i..j] == [b[i]] + b[i + 1..j];
    }
  }

  /** The scan alone decides nothing: an escaped backslash before `u0000` passes it and is no NUL. */
  lemma ScanIsNotTheDecision()
    ensures var b := [QUOTE, BACKSLASH] + ESCAPED_NUL + [QUOTE];
            MayHoldNul(b) && RefuseByWalk(b) == Ok(())
  {
    var b: Bytes := [QUOTE, BACKSLASH] + ESCAPED_NUL + [QUOTE];
    assert b[2..8] == ESCAPED_NUL && EscapeAt(b, 2);
    PlainBytes(b, 3, 8);
    var rest := b[3..8];
    assert ReadEscape(b, 2) == Some(Read([BACKSLASH], 3));
    assert ReadString(b, 1) == Some(Read([BACKSLASH] + rest, 9));
    assert ReadValueAt(b, 0, DEPTH_LIMIT) == Some(Read(String([BACKSLASH] + rest), 9));
    assert ReadBody(b) == Some(String([BACKSLASH] + rest));
    NothingNamedExactlyWithoutNul(String([BACKSLASH] + rest));
  }
}
