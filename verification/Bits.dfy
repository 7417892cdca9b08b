/** Masking on the naturals: bitwise `and` against a mask whose ones are all at the top. */
module Bits {
  function Pow2(n: nat): (p: nat)
    ensures p >= 1
  {
    if n == 0 then 1 else 2 * Pow2(n - 1)
  }

  function And(a: nat, b: nat): (n: nat) {
    if a == 0 || b == 0 then 0
    else (if a % 2 == 1 && b % 2 == 1 then 1 else 0) + 2 * And(a / 2, b / 2)
  }

  /** `MAX << shift` on words of `width` bits. */
  function ShiftedOnes(width: nat, shift: nat): (n: nat) {
    ((Pow2(width) - 1) * Pow2(shift)) % Pow2(width)
  }

  lemma {:induction false} Pow2Sum(a: nat, b: nat)
    ensures Pow2(a + b) == Pow2(a) * Pow2(b)
    decreases b
  {
    if b == 0 {
    } else {
      Pow2Sum(a, b - 1);
      assert Pow2(a + b) == 2 * Pow2(a + (b - 1));
    }
  }

  lemma MulGrows(x: nat, d: nat)
    requires x >= 1
    ensures x * d >= d
  {
    assert (x - 1) * d >= 0;
    assert (x - 1) * d == x * d - d;
  }

  lemma RemainderIs(a: nat, d: nat, q: nat, r: nat)
    requires r < d && a == q * d + r
    ensures a % d == r && a / d == q
  {
    var q', r' := a / d, a % d;
    assert a == d * q' + r';
    assert d * q' == q' * d;
    if q' < q {
      LargerQuotient(q', r', q, r, d);
    } else if q < q' {
      LargerQuotient(q, r, q', r', d);
    }
  }

  lemma LargerQuotient(q: nat, r: nat, q': nat, r': nat, d: nat)
    requires q < q' && r < d
    ensures q * d + r < q' * d + r'
  {
    MulGrows(q' - q, d);
    assert (q' - q) * d == q' * d - q * d;
  }

  lemma ShiftedOnesAre(width: nat, shift: nat)
    requires shift < width
    ensures Pow2(shift) <= Pow2(width)
    ensures ShiftedOnes(width, shift) == Pow2(width) - Pow2(shift)
  {
    Pow2Sum(shift, width - shift);
    ShiftedOnesProduct(Pow2(width), Pow2(shift), Pow2(width - shift));
  }

  lemma ShiftedOnesProduct(w: nat, s: nat, r: nat)
    requires s >= 1 && r >= 1 && w == s * r
    ensures s <= w && (w - 1) * s % w == w - s
  {
    MulGrows(r, s);
    assert r * s == s * r;
    var whole := (w - 1) * s;
    assert whole == w * s - s;
    assert (s - 1) * w == w * s - w;
    RemainderIs(whole, w, s - 1, w - s);
  }

  lemma {:induction false} AndOnes(a: nat, width: nat)
    requires a < Pow2(width)
    ensures And(a, Pow2(width) - 1) == a
    decreases width
  {
    if width == 0 || a == 0 {
    } else {
      AndOnes(a / 2, width - 1);
      assert (Pow2(width) - 1) / 2 == Pow2(width - 1) - 1;
    }
  }

  lemma HalvedRemainder(a: nat, half: nat)
    requires half >= 1
    ensures a % (2 * half) == 2 * (a / 2 % half) + a % 2
  {
    var q, r := a / 2 / half, a / 2 % half;
    assert a / 2 == q * half + r;
    assert a == q * (2 * half) + (2 * r + a % 2);
    RemainderIs(a, 2 * half, q, 2 * r + a % 2);
  }

  /** `and` with a mask of ones above bit `low` clears the bits below it. */
  lemma {:induction false} AndHighOnes(a: nat, width: nat, low: nat)
    requires low <= width && a < Pow2(width)
    ensures Pow2(low) <= Pow2(width)
    ensures And(a, Pow2(width) - Pow2(low)) == a - a % Pow2(low)
    decreases low
  {
    if low == 0 {
      AndOnes(a, width);
    } else {
      AndHighOnes(a / 2, width - 1, low - 1);
      AndDoubled(a, Pow2(width - 1) - Pow2(low - 1));
      HalvedRemainder(a, Pow2(low - 1));
    }
  }

  lemma AndDoubled(a: nat, mask: nat)
    ensures And(a, 2 * mask) == 2 * And(a / 2, mask)
  {
  }

  lemma Blocks(a: nat, size: nat)
    requires size >= 1
    ensures a == (a / size) * size + a % size
  {
    assert a == size * (a / size) + a % size;
  }

  /** Clearing low bits gives `n` exactly on the interval that starts at `n`. */
  lemma ClearedExactlyOnInterval(n: nat, a: nat, size: nat)
    requires size >= 1 && n % size == 0
    ensures a - a % size == n <==> n <= a < n + size
  {
    Blocks(n, size);
    if n <= a < n + size {
      RemainderIs(a, size, n / size, a - n);
    }
  }

  lemma SameBlock(a: nat, b: nat, size: nat)
    requires size >= 1 && a - a % size == b - b % size
    ensures a / size == b / size
  {
    Blocks(a, size);
    Blocks(b, size);
    RemainderIs(a, size, b / size, a % size);
  }

  /** Aligned blocks: what agrees on the small ones agrees on the large ones. */
  lemma CoarserBlockFollows(a: nat, b: nat, small: nat, times: nat)
    requires small >= 1 && times >= 1 && a - a % small == b - b % small
    ensures small * times >= 1
    ensures a - a % (small * times) == b - b % (small * times)
  {
    SameBlock(a, b, small);
    BlockOfBlock(a, small, times);
    BlockOfBlock(b, small, times);
  }

  lemma BlockOfBlock(a: nat, small: nat, times: nat)
    requires small >= 1 && times >= 1
    ensures small * times >= 1
    ensures a - a % (small * times) == (a / small / times) * (small * times)
  {
    PositiveProduct(small, times);
    Blocks(a, small);
    Blocks(a / small, times);
    NestedBlocks(a, small, times, a / small, a / small / times, a / small % times, a % small);
  }

  lemma PositiveProduct(a: nat, b: nat)
    requires a >= 1 && b >= 1
    ensures a * b >= 1
  {
    MulGrows(a, b);
  }

  lemma NestedBlocks(a: nat, small: nat, times: nat, k: nat, q: nat, s: nat, r: nat)
    requires small * times >= 1 && s < times && r < small
    requires a == k * small + r && k == q * times + s
    ensures a - a % (small * times) == q * (small * times)
  {
    MulSmaller(s, r, small, times);
    Regroup(q, s, small, times);
    RemainderIs(a, small * times, q, s * small + r);
  }

  lemma ClearedIsAligned(a: nat, size: nat)
    requires size >= 1
    ensures a % size <= a && (a - a % size) % size == 0
  {
    Blocks(a, size);
    RemainderIs(a - a % size, size, a / size, 0);
  }

  lemma MulSmaller(s: nat, r: nat, small: nat, times: nat)
    requires s < times && r < small
    ensures s * small + r < small * times
  {
    MulGrows(times - s, small);
    assert (times - s) * small == times * small - s * small;
  }

  lemma Regroup(q: nat, s: nat, small: nat, times: nat)
    ensures (q * times + s) * small == q * (small * times) + s * small
  {
    assert (q * times + s) * small == q * times * small + s * small;
    assert q * times * small == q * (times * small);
    assert times * small == small * times;
  }
}
