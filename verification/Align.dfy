/** Alignment of addresses, as the kernel's ALIGN macros compute it in 64-bit arithmetic. */
module Align {

  const W := 0x1_0000_0000_0000_0000

  predicate Aligned(x: int, a: int)
    requires a > 0
  {
    x % a == 0
  }

  /** x & ~(a - 1) for a power of two a. */
  function AlignDown(x: nat, a: nat): nat
    requires a > 0
  {
    x - x % a
  }

  /** ALIGN(x, a): (x + (a - 1)) & ~(a - 1), where the addition may wrap. */
  function AlignUp(x: nat, a: nat): nat
    requires a > 0
  {
    AlignDown((x + a - 1) % W, a)
  }

  lemma ModUnique(x: int, a: nat, q: int, r: nat)
    requires a > 0 && x == q * a + r && r < a
    ensures x % a == r
  {
    var d := x / a - q;
    assert d * a == r - x % a;
    ProductBounds(d, a);
  }

  lemma ProductBounds(d: int, a: nat)
    ensures d >= 1 ==> d * a >= a
    ensures d <= -1 ==> d * a <= -(a as int)
  {
  }

  lemma SmallMod(x: nat, a: nat)
    requires a > 0
    ensures x < a ==> x % a == x
  {
  }

  lemma MultipleAligned(k: int, a: nat)
    requires a > 0
    ensures Aligned(k * a, a)
  {
    ModUnique(k * a, a, k, 0);
  }

  lemma Combine(x: int, y: int, a: nat)
    requires a > 0 && Aligned(x, a) && Aligned(y, a)
    ensures Aligned(x + y, a) && Aligned(x - y, a)
  {
    var p, q := x / a, y / a;
    assert x == p * a && y == q * a;
    assert x + y == (p + q) * a && x - y == (p - q) * a;
    MultipleAligned(p + q, a);
    MultipleAligned(p - q, a);
  }

  /** Distinct aligned addresses are at least one unit apart. */
  lemma AlignedGap(x: int, y: int, a: nat)
    requires a > 0 && Aligned(x, a) && Aligned(y, a) && x < y
    ensures y - x >= a
  {
    Combine(y, x, a);
    SmallMod(y - x, a);
  }

  lemma DownFacts(x: nat, a: nat)
    requires a > 0
    ensures AlignDown(x, a) <= x < AlignDown(x, a) + a && Aligned(AlignDown(x, a), a)
    ensures forall y: nat :: Aligned(y, a) && y <= x ==> y <= AlignDown(x, a)
  {
    var q := x / a;
    assert AlignDown(x, a) == q * a;
    MultipleAligned(q, a);
    forall y: nat | Aligned(y, a) && y <= x
      ensures y <= AlignDown(x, a)
    {
      if y > AlignDown(x, a) {
        AlignedGap(AlignDown(x, a), y, a);
      }
    }
  }

  /** Below the wrap-around, AlignUp is the least aligned address that is not below x. */
  lemma UpFacts(x: nat, a: nat)
    requires a > 0 && x + a <= W
    ensures x <= AlignUp(x, a) < x + a && Aligned(AlignUp(x, a), a)
    ensures forall y: nat :: Aligned(y, a) && y >= x ==> y >= AlignUp(x, a)
  {
    ModUnique(x + a - 1, W, 0, x + a - 1);
    DownFacts(x + a - 1, a);
    forall y: nat | Aligned(y, a) && y >= x
      ensures y >= AlignUp(x, a)
    {
      if y < AlignUp(x, a) {
        AlignedGap(y, AlignUp(x, a), a);
      }
    }
  }

  /** Exactly when rounding up does round up: near the end of the address space it gives 0. */
  lemma UpWraps(x: nat, a: nat)
    requires 0 < a <= W && x < W
    ensures AlignUp(x, a) >= x <==> x + a <= W || x == 0
    ensures x + a > W ==> AlignUp(x, a) == 0
  {
    if x + a <= W {
      UpFacts(x, a);
    } else {
      ModUnique(x + a - 1, W, 1, x + a - 1 - W);
      ModUnique(x + a - 1 - W, a, 0, x + a - 1 - W);
    }
  }

  /** is_power_of_2 */
  predicate PowerOfTwo(a: nat) {
    a == 1 || (a > 1 && a % 2 == 0 && PowerOfTwo(a / 2))
  }

  lemma HalfAligned(x: nat, c: nat)
    requires c > 0
    ensures Aligned(x, 2 * c) <==> x % 2 == 0 && Aligned(x / 2, c)
  {
    if Aligned(x, 2 * c) {
      var q := x / (2 * c);
      assert x == q * (2 * c) == 2 * (q * c);
      MultipleAligned(q, c);
    } else if x % 2 == 0 && Aligned(x / 2, c) {
      var q := x / 2 / c;
      assert x / 2 == q * c && x == q * (2 * c);
      MultipleAligned(q, 2 * c);
    }
  }

  /** The larger of two powers of two is the stricter alignment. */
  lemma {:induction false} PowersNest(a: nat, b: nat, x: nat)
    requires PowerOfTwo(a) && PowerOfTwo(b) && a <= b && Aligned(x, b)
    ensures Aligned(x, a)
  {
    if a > 1 {
      HalfAligned(x, b / 2);
      PowersNest(a / 2, b / 2, x / 2);
      HalfAligned(x, a / 2);
    }
  }

  /** Rounding up where nothing wraps. */
  function Ceil(x: nat, a: nat): nat
    requires a > 0
  {
    AlignDown(x + a - 1, a)
  }

  lemma CeilFacts(x: nat, a: nat)
    requires a > 0
    ensures x <= Ceil(x, a) < x + a && Aligned(Ceil(x, a), a)
    ensures forall y: nat :: Aligned(y, a) && y >= x ==> y >= Ceil(x, a)
  {
    DownFacts(x + a - 1, a);
    forall y: nat | Aligned(y, a) && y >= x
      ensures y >= Ceil(x, a)
    {
      if y < Ceil(x, a) {
        AlignedGap(y, Ceil(x, a), a);
      }
    }
  }
}
