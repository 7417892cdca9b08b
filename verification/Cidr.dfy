/** An IP network as a masked address and a prefix length, and which addresses it contains. */
module Cidr {
  import opened Wrappers
  import opened Text
  import opened Addresses
  import opened Bits

  datatype Cidr = Cidr(network: IpAddr, prefix: nat)

  // ------------------------------------------------------------------
  // Masks, canonical addresses and containment
  // ------------------------------------------------------------------

  /** `mask32` and `mask128`, by the width of the word. */
  function Mask(width: nat, prefix: nat): (n: nat)
    requires prefix <= width
  {
    if prefix == 0 then 0 else ShiftedOnes(width, width - prefix)
  }

  const MAPPED_BLOCK: nat := 0xFFFF

  /** `::ffff:a.b.c.d`, and `::a.b.c.d` but for `::` and `::1`. */
  predicate CarriesV4(bits: U128) {
    bits / TWO32 == MAPPED_BLOCK || (bits / TWO32 == 0 && bits != 0 && bits != 1)
  }

  function Canonical(a: IpAddr): (address: IpAddr) {
    match a
    case V4(_) => a
    case V6(bits) => if CarriesV4(bits) then V4(bits % TWO32) else a
  }

  function Width(a: IpAddr): (n: nat) {
    if a.V4? then 32 else 128
  }

  function Number(a: IpAddr): (n: nat) {
    match a
    case V4(n) => n
    case V6(n) => n
  }

  /** What parsing yields: a prefix its family has, and an address with no bit past it. */
  predicate Parsed(net: Cidr) {
    && net.prefix <= Width(net.network)
    && And(Number(net.network), Mask(Width(net.network), net.prefix)) == Number(net.network)
  }

  predicate Contains(net: Cidr, address: IpAddr)
    requires net.prefix <= Width(net.network)
  {
    match (net.network, Canonical(address))
    case (V4(n), V4(a)) => And(n, Mask(32, net.prefix)) == And(a, Mask(32, net.prefix))
    case (V6(n), V6(a)) => And(n, Mask(128, net.prefix)) == And(a, Mask(128, net.prefix))
    case _ => false
  }

  // ------------------------------------------------------------------
  // Which addresses a network contains
  // ------------------------------------------------------------------

  /** How many addresses a prefix leaves. */
  function Size(net: Cidr): (n: nat)
    requires net.prefix <= Width(net.network)
  {
    Pow2(Width(net.network) - net.prefix)
  }

  lemma Width32()
    ensures Pow2(32) == TWO32
  {
    assert Pow2(4) == 16;
    Pow2Sum(4, 4);
    assert Pow2(8) == 0x100;
    Pow2Sum(8, 8);
    assert Pow2(16) == 0x1_0000;
    Pow2Sum(16, 16);
  }

  lemma Widths()
    ensures Pow2(32) == TWO32 && Pow2(128) == TWO128
  {
    Width32();
    Pow2Sum(32, 32);
    assert Pow2(64) == 0x1_0000_0000_0000_0000;
    Pow2Sum(64, 64);
  }

  lemma MaskClears(width: nat, prefix: nat, a: nat)
    requires prefix <= width && a < Pow2(width)
    ensures And(a, Mask(width, prefix)) == a - a % Pow2(width - prefix)
  {
    if prefix == 0 {
      RemainderIs(a, Pow2(width), 0, a);
    } else {
      ShiftedOnesAre(width, width - prefix);
      AndHighOnes(a, width, width - prefix);
    }
  }

  lemma NumbersFit(a: IpAddr)
    ensures Number(a) < Pow2(Width(a))
  {
    Widths();
  }

  lemma ParsedIsAligned(net: Cidr)
    requires Parsed(net)
    ensures Number(net.network) % Size(net) == 0
  {
    NumbersFit(net.network);
    MaskClears(Width(net.network), net.prefix, Number(net.network));
  }

  lemma MaskedAlikeExactlyOnInterval(width: nat, prefix: nat, n: nat, a: nat)
    requires prefix <= width && n < Pow2(width) && a < Pow2(width)
    requires And(n, Mask(width, prefix)) == n
    ensures And(n, Mask(width, prefix)) == And(a, Mask(width, prefix)) <==> n <= a < n + Pow2(width - prefix)
  {
    MaskClears(width, prefix, n);
    MaskClears(width, prefix, a);
    ClearedExactlyOnInterval(n, a, Pow2(width - prefix));
  }

  /** A parsed network contains exactly the addresses whose canonical form is of its own family and
      lies in the interval of 2^(width - prefix) numbers that starts at its address: an IPv4
      network therefore also the IPv6 forms that carry such an address, and an IPv6 network none
      of those. */
  lemma ContainsExactlyItsInterval(net: Cidr, address: IpAddr)
    requires Parsed(net)
    ensures var a := Canonical(address);
            Contains(net, address)
            <==> && a.V4? == net.network.V4?
                 && Number(net.network) <= Number(a) < Number(net.network) + Size(net)
  {
    var a := Canonical(address);
    if a.V4? == net.network.V4? {
      NumbersFit(a);
      NumbersFit(net.network);
      MaskedAlikeExactlyOnInterval(Width(a), net.prefix, Number(net.network), Number(a));
    }
  }

  /** Asking about an address and about its canonical form is the same question, and the canonical
      form of a canonical form is itself. */
  lemma CanonicalIsInvisible(net: Cidr, address: IpAddr)
    requires Parsed(net)
    ensures Canonical(Canonical(address)) == Canonical(address)
    ensures Contains(net, Canonical(address)) == Contains(net, address)
    ensures Canonical(address).V6? <==> address.V6? && !CarriesV4(address.v6)
  {
  }

  /** Of two networks of one family, the longer prefix lies inside the other or apart from it. */
  lemma NestedOrDisjoint(wide: Cidr, narrow: Cidr)
    requires Parsed(wide) && Parsed(narrow)
    requires wide.network.V4? == narrow.network.V4? && wide.prefix <= narrow.prefix
    ensures || (forall a :: Contains(narrow, a) ==> Contains(wide, a))
            || (forall a :: !(Contains(narrow, a) && Contains(wide, a)))
  {
    if a :| Contains(narrow, a) && Contains(wide, a) {
      forall b | Contains(narrow, b) ensures Contains(wide, b) {
        SharedAddressNests(wide, narrow, a, b);
      }
    }
  }

  lemma SharedAddressNests(wide: Cidr, narrow: Cidr, a: IpAddr, b: IpAddr)
    requires Parsed(wide) && Parsed(narrow)
    requires wide.network.V4? == narrow.network.V4? && wide.prefix <= narrow.prefix
    requires Contains(narrow, a) && Contains(wide, a) && Contains(narrow, b)
    ensures Contains(wide, b)
  {
    NumbersFit(Canonical(a));
    NumbersFit(Canonical(b));
    CoarserMaskFollows(Width(wide.network), wide.prefix, narrow.prefix, Number(Canonical(a)), Number(Canonical(b)));
  }

  lemma CoarserMaskFollows(width: nat, wide: nat, narrow: nat, x: nat, y: nat)
    requires wide <= narrow <= width && x < Pow2(width) && y < Pow2(width)
    requires And(x, Mask(width, narrow)) == And(y, Mask(width, narrow))
    ensures And(x, Mask(width, wide)) == And(y, Mask(width, wide))
  {
    MaskClears(width, narrow, x);
    MaskClears(width, narrow, y);
    MaskClears(width, wide, x);
    MaskClears(width, wide, y);
    Pow2Sum(width - narrow, narrow - wide);
    CoarserBlockFollows(x, y, Pow2(width - narrow), Pow2(narrow - wide));
  }

  /** An IPv6 network can parse and yet contain nothing: exactly when all its addresses carry an
      IPv4 one, that is when it lies in `::ffff:0:0/96`, or in `::/96` without `::` and `::1`. */
  lemma EmptyExactlyWhenAllCarryV4(net: Cidr)
    requires Parsed(net) && net.network.V6?
    ensures (forall a :: !Contains(net, a))
            <==> && net.prefix >= 96
                 && (net.network.v6 / TWO32 == MAPPED_BLOCK
                     || (net.network.v6 / TWO32 == 0 && net.network.v6 > 1))
  {
    var n := net.network.v6;
    Widths();
    ParsedIsAligned(net);
    if net.prefix >= 96 {
      HighPrefixBlock(net);
      forall a {
        ContainsExactlyItsInterval(net, a);
      }
      ContainsExactlyItsInterval(net, V6(n));
      if n == 0 || n == 1 {
        assert Canonical(V6(n)) == V6(n);
      }
    } else {
      LowPrefixBlock(net);
      var other := if CarriesV4(n) || n <= 1 then n + TWO32 else n;
      ContainsExactlyItsInterval(net, V6(other));
      assert Contains(net, V6(other));
    }
  }

  const MAPPED_NETWORK := Cidr(V6(MAPPED_BLOCK * TWO32), 96)

  /** `::ffff:0:0/96` parses, and contains no address. */
  lemma MappedNetworkIsEmpty()
    ensures Parsed(MAPPED_NETWORK) && forall a :: !Contains(MAPPED_NETWORK, a)
  {
    var n := MAPPED_BLOCK * TWO32;
    Widths();
    MaskClears(128, 96, n);
    RemainderIs(n, TWO32, MAPPED_BLOCK, 0);
    EmptyExactlyWhenAllCarryV4(MAPPED_NETWORK);
  }

  lemma HighPrefixBlock(net: Cidr)
    requires Parsed(net) && net.network.V6? && net.prefix >= 96
    ensures net.network.v6 % TWO32 + Size(net) <= TWO32
  {
    var n, size := net.network.v6, Size(net);
    Widths();
    ParsedIsAligned(net);
    Pow2Sum(128 - net.prefix, net.prefix - 96);
    AlignedFits(n, size, Pow2(net.prefix - 96));
  }

  lemma AlignedFits(n: nat, size: nat, times: nat)
    requires size >= 1 && times >= 1 && n % size == 0
    ensures size * times >= 1
    ensures n % (size * times) + size <= size * times
  {
    BlockOfBlock(n, size, times);
    MulGrows(times, size);
    var k := n / size;
    var q, s := k / times, k % times;
    Blocks(n, size);
    Blocks(k, times);
    Regroup(q, s, size, times);
    MulGrows(times - s, size);
    assert (times - s) * size == times * size - s * size;
  }

  lemma LowPrefixBlock(net: Cidr)
    requires Parsed(net) && net.network.V6? && net.prefix < 96
    ensures Size(net) >= 2 * TWO32 && net.network.v6 + TWO32 < TWO128
    ensures net.network.v6 / TWO32 % 2 == 0
  {
    var n, size := net.network.v6, Size(net);
    Widths();
    ParsedIsAligned(net);
    NumbersFit(net.network);
    Pow2Sum(33, 95 - net.prefix);
    Pow2Sum(32, 1);
    MulGrows(Pow2(95 - net.prefix), Pow2(33));
    assert size == Pow2(33) * Pow2(95 - net.prefix);
    AlignedToDivisor(n, Pow2(33), Pow2(95 - net.prefix));
    AlignedBelowTop(n);
  }

  lemma AlignedToDivisor(n: nat, size: nat, times: nat)
    requires size >= 1 && times >= 1 && size * times >= 1 && n % (size * times) == 0
    ensures n % size == 0
  {
    Blocks(n, size * times);
    var q := n / (size * times);
    assert n == q * (size * times);
    assert q * (size * times) == (q * times) * size by {
      Regroup(q, 0, size, times);
    }
    RemainderIs(n, size, q * times, 0);
  }

  lemma AlignedBelowTop(n: U128)
    requires n % (2 * TWO32) == 0
    ensures n + TWO32 < TWO128 && n / TWO32 % 2 == 0
  {
  }

  // ------------------------------------------------------------------
  // Reading and writing
  // ------------------------------------------------------------------

  function IndexOf(s: string, c: char): (r: Option<nat>)
    ensures r.Some? ==> r.value < |s| && s[r.value] == c && c !in s[..r.value]
    ensures r.None? ==> c !in s
  {
    if s == [] then None
    else if s[0] == c then Some(0)
    else
      var rest := IndexOf(s[1..], c);
      if rest.None? then None else Some(rest.value + 1)
  }

  /** `u8::from_str`: digits, after at most one plus sign, up to 255. */
  function ParseU8(s: string): (r: Option<nat>) {
    var digits := if s != [] && s[0] == '+' then s[1..] else s;
    if digits == [] || exists i :: 0 <= i < |digits| && !IsDigit(digits[i]) then None
    else if DigitsValue(digits) > 255 then None
    else Some(DigitsValue(digits))
  }

  /** The error echoes the text that did not parse. */
  function FromStr(raw: string, std: StandardText): (r: Result<Cidr, string>)
    ensures r.Ok? ==> r.value.prefix <= Width(r.value.network)
    ensures r.Err? ==> r.error == raw
  {
    var text := Trim(raw);
    var slash := IndexOf(text, '/');
    if slash.None? then Err(raw)
    else
      var address := std.readAddress(Trim(text[..slash.value]));
      var prefix := ParseU8(Trim(text[slash.value + 1..]));
      if address.None? || prefix.None? || prefix.value > Width(address.value) then Err(raw)
      else Ok(Cidr(Masked(address.value, prefix.value), prefix.value))
  }

  function Masked(a: IpAddr, prefix: nat): (m: IpAddr)
    requires prefix <= Width(a)
    ensures m.V4? == a.V4?
  {
    MaskedFits(a, prefix);
    match a
    case V4(n) => V4(And(n, Mask(32, prefix)))
    case V6(n) => V6(And(n, Mask(128, prefix)))
  }

  lemma MaskedFits(a: IpAddr, prefix: nat)
    requires prefix <= Width(a)
    ensures And(Number(a), Mask(Width(a), prefix)) <= Number(a)
  {
    NumbersFit(a);
    MaskClears(Width(a), prefix, Number(a));
  }

  /** Everything that parses is masked, whatever host bits were written. */
  lemma FromStrYieldsParsed(raw: string, std: StandardText)
    requires FromStr(raw, std).Ok?
    ensures Parsed(FromStr(raw, std).value)
  {
    var text := Trim(raw);
    var slash := IndexOf(text, '/').value;
    MaskedIsParsed(std.readAddress(Trim(text[..slash])).value, ParseU8(Trim(text[slash + 1..])).value);
  }

  lemma MaskTwice(width: nat, prefix: nat, a: nat)
    requires prefix <= width && a < Pow2(width)
    ensures And(And(a, Mask(width, prefix)), Mask(width, prefix)) == And(a, Mask(width, prefix))
  {
    var size := Pow2(width - prefix);
    MaskClears(width, prefix, a);
    ClearedIsAligned(a, size);
    MaskClears(width, prefix, a - a % size);
  }

  lemma MaskedIsParsed(a: IpAddr, prefix: nat)
    requires prefix <= Width(a)
    ensures Parsed(Cidr(Masked(a, prefix), prefix))
  {
    NumbersFit(a);
    MaskTwice(Width(a), prefix, Number(a));
  }

  function Display(net: Cidr, std: StandardText): (text: string) {
    std.write(net.network) + ['/'] + Decimal(net.prefix)
  }

  /** A parsed network, written and read again, is itself. */
  lemma DisplayReadsBack(net: Cidr, std: StandardText)
    requires Parsed(net) && Faithful(std)
    ensures FromStr(Display(net, std), std) == Ok(net)
  {
    var address, prefix := std.write(net.network), Decimal(net.prefix);
    var text := Display(net, std);
    assert WritesBack(std, net.network);
    assert IsDigit(prefix[0]) && IsDigit(prefix[|prefix| - 1]);
    TrimNothing(text);
    TrimNothing(address);
    TrimNothing(prefix);
    FirstSlash(address, prefix);
    assert text[..|address|] == address && text[|address| + 1..] == prefix;
    PrefixReadsBack(net.prefix);
  }

  lemma TrimNothing(s: string)
    requires s != [] && !IsWhitespace(s[0]) && !IsWhitespace(s[|s| - 1])
    ensures Trim(s) == s
  {
    assert "" + s == s;
    TrimPadded("", s);
  }

  lemma PrefixReadsBack(prefix: nat)
    requires prefix <= 128
    ensures ParseU8(Decimal(prefix)) == Some(prefix)
  {
    assert IsDigit(Decimal(prefix)[0]);
    DecimalRoundTrip(prefix);
  }

  lemma {:induction false} FirstSlash(address: string, prefix: string)
    requires '/' !in address
    ensures IndexOf(address + ['/'] + prefix, '/') == Some(|address|)
  {
    if address == [] {
    } else {
      assert (address + ['/'] + prefix)[1..] == address[1..] + ['/'] + prefix;
      FirstSlash(address[1..], prefix);
    }
  }

  // ------------------------------------------------------------------
  // A list of networks
  // ------------------------------------------------------------------

  function NonBlank(pieces: seq<string>): (r: seq<string>) {
    if pieces == [] then []
    else (if Trim(pieces[0]) == [] then [] else [Trim(pieces[0])]) + NonBlank(pieces[1..])
  }

  /** Every entry parsed, or the first error. */
  function Collected<T>(entries: seq<string>, parse: string -> Result<T, string>): (r: Result<seq<T>, string>) {
    if entries == [] then Ok([])
    else
      var first := parse(entries[0]);
      if first.Err? then Err(first.error)
      else
        var rest := Collected(entries[1..], parse);
        if rest.Err? then rest else Ok([first.value] + rest.value)
  }

  function Parser(std: StandardText): (r: string -> Result<Cidr, string>) {
    entry => FromStr(entry, std)
  }

  function ParseList(raw: string, std: StandardText): (r: Result<seq<Cidr>, string>) {
    Collected(NonBlank(Split(raw, ',')), Parser(std))
  }

  ghost predicate FirstBad<T>(entries: seq<string>, parse: string -> Result<T, string>, i: int, error: string) {
    && 0 <= i < |entries| && parse(entries[i]) == Err(error)
    && forall j :: 0 <= j < i ==> parse(entries[j]).Ok?
  }

  lemma FirstBadShifts<T>(entries: seq<string>, parse: string -> Result<T, string>, i: int, error: string)
    requires entries != [] && parse(entries[0]).Ok? && FirstBad(entries[1..], parse, i, error)
    ensures FirstBad(entries, parse, i + 1, error)
  {
    forall j | 0 <= j < i + 1 ensures parse(entries[j]).Ok? {
      if j > 0 {
        assert entries[j] == entries[1..][j - 1];
      }
    }
  }

  lemma {:induction false} CollectedIsAllOrNothing<T>(entries: seq<string>, parse: string -> Result<T, string>)
    ensures var r := Collected(entries, parse);
            && (r.Ok? ==>
                  && |r.value| == |entries|
                  && forall i :: 0 <= i < |entries| ==> parse(entries[i]) == Ok(r.value[i]))
            && (r.Err? ==> exists i :: FirstBad(entries, parse, i, r.error))
  {
    if entries == [] {
    } else if parse(entries[0]).Err? {
      assert FirstBad(entries, parse, 0, parse(entries[0]).error);
    } else {
      CollectedIsAllOrNothing(entries[1..], parse);
      var rest := Collected(entries[1..], parse);
      if rest.Err? {
        var i :| FirstBad(entries[1..], parse, i, rest.error);
        FirstBadShifts(entries, parse, i, rest.error);
      }
    }
  }

  /** All or nothing, in order, blanks skipped: a list parses exactly when every entry that is not
      blank does, to those networks and no other; otherwise the error echoes the first that does
      not. */
  lemma ParseListIsAllOrNothing(raw: string, std: StandardText)
    ensures var entries, r := NonBlank(Split(raw, ',')), ParseList(raw, std);
            && (r.Ok? ==>
                  && |r.value| == |entries|
                  && forall i :: 0 <= i < |entries| ==> FromStr(entries[i], std) == Ok(r.value[i]))
            && (r.Err? ==> exists i :: FirstBad(entries, Parser(std), i, r.error))
  {
    var entries := NonBlank(Split(raw, ','));
    CollectedIsAllOrNothing(entries, Parser(std));
    var r := Collected(entries, Parser(std));
    if r.Err? {
      var i :| FirstBad(entries, Parser(std), i, r.error);
    }
  }
}
