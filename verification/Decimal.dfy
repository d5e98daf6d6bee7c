/** Decimal digits, lowest first, and the multiply-and-shift forms of division by ten. */
module Decimal {

  const W32: nat := 0x1_0000_0000
  const U64: nat := 0x1_0000_0000_0000_0000

  /** The digits of n, lowest first, without leading zeros. */
  function Rev(n: nat): seq<nat> {
    if n < 10 then [n] else [n % 10] + Rev(n / 10)
  }

  /** The k lowest digits of n. */
  function Pad(n: nat, k: nat): seq<nat>
    decreases k
  {
    if k == 0 then [] else [n % 10] + Pad(n / 10, k - 1)
  }

  function Value(digits: seq<nat>): nat {
    if digits == [] then 0 else digits[0] + 10 * Value(digits[1..])
  }

  function Pow10(k: nat): nat {
    if k == 0 then 1 else 10 * Pow10(k - 1)
  }

  /** The digits are decimal, stand for n, and the last is not zero unless n is. */
  lemma {:induction false} RevIs(n: nat)
    ensures Value(Rev(n)) == n && |Rev(n)| >= 1
    ensures forall i :: 0 <= i < |Rev(n)| ==> Rev(n)[i] < 10
    ensures n > 0 ==> Rev(n)[|Rev(n)| - 1] != 0
  {
    if n < 10 {
      assert Rev(n)[1..] == [];
    } else {
      RevIs(n / 10);
      assert Rev(n)[1..] == Rev(n / 10);
    }
  }

  lemma {:induction false} PadIs(n: nat, k: nat)
    ensures |Pad(n, k)| == k && forall i :: 0 <= i < k ==> Pad(n, k)[i] < 10
    decreases k
  {
    if k > 0 {
      PadIs(n / 10, k - 1);
    }
  }

  lemma {:induction false} RevLength(n: nat, k: nat)
    requires n < Pow10(k) && k > 0
    ensures |Rev(n)| <= k
    decreases k
  {
    if n >= 10 {
      RevLength(n / 10, k - 1);
    }
  }

  /** The first k digits of a number that has more. */
  lemma {:induction false} RevSplit(n: nat, k: nat)
    requires n >= Pow10(k)
    ensures Rev(n) == Pad(n, k) + Rev(Shifted(n, k))
    decreases k
  {
    if k > 0 {
      Pow10Positive(k - 1);
      RevSplit(n / 10, k - 1);
    }
  }

  lemma {:induction false} Pow10Positive(k: nat)
    ensures Pow10(k) >= 1
  {
    if k > 0 {
      Pow10Positive(k - 1);
    }
  }

  /** n without its k lowest digits. */
  function Shifted(n: nat, k: nat): nat
    decreases k
  {
    if k == 0 then n else Shifted(n / 10, k - 1)
  }

  lemma {:induction false} PadSplit(n: nat, j: nat, k: nat)
    ensures Pad(n, j + k) == Pad(n, j) + Pad(Shifted(n, j), k)
    decreases j
  {
    if j > 0 {
      PadSplit(n / 10, j - 1, k);
    }
  }

  lemma Step10(low: nat, high: nat)
    ensures (low + 10 * high) % 10 == low % 10 && (low + 10 * high) / 10 == low / 10 + high
  {
  }

  lemma PadUnfold(n: nat)
    ensures Pad(n, 4) == [n % 10, n / 10 % 10, n / 10 / 10 % 10, n / 10 / 10 / 10 % 10]
  {
    assert Pad(n, 4) == [n % 10] + Pad(n / 10, 3);
    assert Pad(n / 10, 3) == [n / 10 % 10] + Pad(n / 10 / 10, 2);
    assert Pad(n / 10 / 10, 2) == [n / 10 / 10 % 10] + Pad(n / 10 / 10 / 10, 1);
    assert Pad(n / 10 / 10 / 10, 1) == [n / 10 / 10 / 10 % 10] + Pad(n / 10 / 10 / 10 / 10, 0);
  }

  lemma ShiftUnfold(n: nat)
    ensures Shifted(n, 4) == n / 10 / 10 / 10 / 10
  {
    assert Shifted(n, 4) == Shifted(n / 10, 3);
    assert Shifted(n / 10, 3) == Shifted(n / 10 / 10, 2);
    assert Shifted(n / 10 / 10, 2) == Shifted(n / 10 / 10 / 10, 1);
  }

  function Zeros(k: nat): seq<nat> {
    seq(k, _ => 0)
  }

  /** Padding a number that fits only adds zeros at the end. */
  lemma {:induction false} PadIsRev(n: nat, k: nat)
    requires n < Pow10(k) && k > 0
    ensures |Rev(n)| <= k && Pad(n, k) == Rev(n) + Zeros(k - |Rev(n)|)
    decreases k
  {
    if n < 10 {
      PadZero(k - 1);
    } else {
      PadIsRev(n / 10, k - 1);
    }
  }

  lemma {:induction false} PadZero(k: nat)
    ensures Pad(0, k) == Zeros(k)
  {
    if k > 0 {
      PadZero(k - 1);
    }
  }

  // ---------------------------------------------------------------- reciprocals

  /** (x * 0x1999999a) >> 32, the product taken in 64 bits. */
  function Tenth32(x: nat): nat {
    (x * 0x1999999a) % U64 / 0x1_0000_0000
  }

  /** (x * 0x199a) >> 16, (x * 0xccd) >> 15 and (x * 0xcd) >> 11, the product taken in 32 bits. */
  function Tenth16(x: nat): nat {
    (x * 0x199a) % W32 / 0x1_0000
  }

  function Tenth15(x: nat): nat {
    (x * 0xccd) % W32 / 0x8000
  }

  function Tenth11(x: nat): nat {
    (x * 0xcd) % W32 / 0x800
  }

  /** (x * 0x346DC5D7) >> 43, the product taken in 64 bits. */
  function Myriadth(x: nat): nat {
    (x * 0x346DC5D7) % U64 / 0x800_0000_0000
  }

  lemma Tenth32Is(x: nat)
    requires x < 1073741829
    ensures Tenth32(x) == x / 10
  {
    var q, r := x / 10, x % 10;
    assert x * 0x1999999a == q * 0x1_0000_0000 + (4 * q + 0x1999999a * r);
  }

  lemma Tenth16Is(x: nat)
    requires x < 16389
    ensures Tenth16(x) == x / 10
  {
    var q, r := x / 10, x % 10;
    assert x * 0x199a == q * 0x1_0000 + (4 * q + 0x199a * r);
  }

  lemma Tenth15Is(x: nat)
    requires x < 16389
    ensures Tenth15(x) == x / 10
  {
    var q, r := x / 10, x % 10;
    assert x * 0xccd == q * 0x8000 + (2 * q + 0xccd * r);
  }

  lemma Tenth11Is(x: nat)
    requires x < 1029
    ensures Tenth11(x) == x / 10
  {
    var q, r := x / 10, x % 10;
    assert x * 0xcd == q * 0x800 + (2 * q + 0xcd * r);
  }

  lemma MyriadthIs(x: nat)
    requires x < 1128869999
    ensures Myriadth(x) == x / 10000
  {
    var q, r := x / 10000, x % 10000;
    assert x == 10000 * q + r;
    MyriadthParts(q, r);
  }

  lemma MyriadthParts(q: nat, r: nat)
    requires r < 10000 && 10000 * q + r < 1128869999
    ensures Myriadth(10000 * q + r) == q
  {
    var s := 7792 * q + 0x346DC5D7 * r;
    assert (10000 * q + r) * 0x346DC5D7 == 0x800_0000_0000 * q + s;
    assert q <= 112886;
    assert s < 0x800_0000_0000 by {
      assert q <= 112885 || r <= 9998;
    }
    Quotient43(q, s);
  }

  lemma Quotient43(q: nat, s: nat)
    requires q <= 112886 && s < 0x800_0000_0000
    ensures (0x800_0000_0000 * q + s) % U64 / 0x800_0000_0000 == q
  {
    assert 0x800_0000_0000 * q + s < U64;
  }

  /** The stated ranges are exact: the next value fails. */
  lemma RangesAreExact()
    ensures Tenth32(1073741829) != 1073741829 / 10 && Tenth16(16389) != 16389 / 10 && Tenth15(16389) != 16389 / 10
    ensures Tenth11(1029) != 1029 / 10 && Myriadth(1128869999) != 1128869999 / 10000
  {
    assert 1073741829 * 0x1999999a == 107374183 * 0x1_0000_0000 + 2;
    assert 1128869999 * 0x346DC5D7 / 0x800_0000_0000 == 112887;
  }
}
