/** Network addresses, and the standard library's reading and writing of them, which is taken as
    given: `StandardText` holds the functions, `Faithful` what is relied on. */
module Addresses {
  import opened Wrappers
  import opened Text

  const TWO32: nat := 0x1_0000_0000
  const TWO128: nat := 0x1_0000_0000_0000_0000_0000_0000_0000_0000

  type U32 = n: nat | n < TWO32
  type U128 = n: nat | n < TWO128

  datatype IpAddr = V4(v4: U32) | V6(v6: U128)

  datatype StandardText = StandardText(
    readAddress: string -> Option<IpAddr>,
    readSocket: string -> Option<IpAddr>,
    write: IpAddr -> string)

  /** What is written reads back, and holds no comma, slash or surrounding whitespace. */
  ghost predicate Faithful(std: StandardText) {
    forall a :: WritesBack(std, a)
  }

  predicate WritesBack(std: StandardText, a: IpAddr) {
    var s := std.write(a);
    && std.readAddress(s) == Some(a)
    && ',' !in s && '/' !in s
    && s != [] && !IsWhitespace(s[0]) && !IsWhitespace(s[|s| - 1])
  }

  lemma {:induction false} TrimPadded(gap: string, s: string)
    requires Blank(gap) && s != [] && !IsWhitespace(s[0]) && !IsWhitespace(s[|s| - 1])
    ensures Trim(gap + s) == s
  {
    if gap == [] {
      assert gap + s == s;
    } else {
      assert (gap + s)[1..] == gap[1..] + s;
      TrimPadded(gap[1..], s);
    }
  }
}
