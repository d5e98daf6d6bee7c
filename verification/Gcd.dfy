/** Both binary greatest-common-divisor loops and the least common multiple. */
module Gcd {
  import opened Align
  import opened Shifts

  /** d divides n. */
  predicate Divides(d: nat, n: nat)
    decreases n
  {
    n == 0 || (0 < d <= n && Divides(d, n - d))
  }

  lemma {:induction false} DividesIs(d: nat, k: nat)
    ensures Divides(d, k * d)
  {
    if k > 0 && d > 0 {
      assert k * d - d == (k - 1) * d;
      DividesIs(d, k - 1);
    }
  }

  lemma {:induction false} Quotient(d: nat, n: nat) returns (k: nat)
    requires Divides(d, n)
    ensures n == k * d
    decreases n
  {
    if n == 0 {
      k := 0;
    } else {
      var j := Quotient(d, n - d);
      k := j + 1;
    }
  }

  lemma {:induction false} DividesSum(d: nat, x: nat, y: nat)
    requires Divides(d, x)
    ensures Divides(d, y) <==> Divides(d, x + y)
    decreases x
  {
    if x > 0 {
      DividesSum(d, x - d, y);
    }
  }

  lemma {:induction false} DividesBound(d: nat, n: nat)
    requires Divides(d, n) && n > 0
    ensures 0 < d <= n
  {
  }

  lemma {:induction false} DividesSelf(d: nat)
    ensures Divides(d, d)
  {
    assert d > 0 ==> Divides(d, d - d);
  }

  // ---------------------------------------------------------------- twos

  predicate Odd(n: nat) {
    n % 2 == 1
  }

  /** An odd number divides twice a if and only if it divides a. */
  lemma {:induction false} OddDividesTwice(d: nat, a: nat)
    requires Odd(d)
    ensures Divides(d, a + a) <==> Divides(d, a)
  {
    if Divides(d, a) {
      DividesSum(d, a, a);
    }
    if d <= a {
      assert a + a - d - d == (a - d) + (a - d);
      DividesSum(d, d, a + a - d);
      DividesSum(d, d, a + a - d - d);
      OddDividesTwice(d, a - d);
    }
  }

  lemma {:induction false} TwiceDividesTwice(d: nat, a: nat)
    ensures Divides(d + d, a + a) <==> Divides(d, a)
    decreases a
  {
    if 0 < d <= a {
      assert a + a - (d + d) == (a - d) + (a - d);
      TwiceDividesTwice(d, a - d);
    }
  }

  lemma {:induction false} DividesOdd(d: nat, n: nat)
    requires Divides(d, n) && Odd(n)
    ensures Odd(d)
    decreases n
  {
    if !Odd(d) {
      DividesOdd(d, n - d);
    }
  }

  /** What is left of n without its factors of two. */
  function OddPart(n: nat): (m: nat)
    requires n > 0
    ensures Odd(m) && m <= n
  {
    if Odd(n) then n else OddPart(n / 2)
  }

  lemma {:induction false} OddPartIsShift(n: nat)
    requires n > 0
    ensures Shift(n, Ffs(n)) == OddPart(n)
    decreases n
  {
    if !Odd(n) {
      OddPartIsShift(n / 2);
      ShiftAdds(n, 1, Ffs(n / 2));
      assert Shift(n, 1) == Shift(n, 0) / 2;
    }
  }

  /** a | b. */
  function Or(a: nat, b: nat): nat
    decreases a + b
  {
    if a == 0 then b
    else if b == 0 then a
    else 2 * Or(a / 2, b / 2) + if Odd(a) || Odd(b) then 1 else 0
  }

  lemma {:induction false} OrPositive(a: nat, b: nat)
    requires a > 0 || b > 0
    ensures Or(a, b) > 0
    decreases a + b
  {
    if a > 0 && b > 0 && !Odd(a) && !Odd(b) {
      OrPositive(a / 2, b / 2);
    }
  }

  // ---------------------------------------------------------------- greatest common divisors

  /** g divides both, and every common divisor divides g. */
  ghost predicate IsGcd(g: nat, a: nat, b: nat) {
    Divides(g, a) && Divides(g, b) && forall d :: Divides(d, a) && Divides(d, b) ==> Divides(d, g)
  }

  lemma GcdUnique(g: nat, h: nat, a: nat, b: nat)
    requires IsGcd(g, a, b) && IsGcd(h, a, b)
    ensures g == h
  {
    assert Divides(g, h) && Divides(h, g);
  }

  /** The same common divisors. */
  ghost predicate Alike(a: nat, b: nat, c: nat, e: nat) {
    forall d :: (Divides(d, a) && Divides(d, b)) <==> (Divides(d, c) && Divides(d, e))
  }

  lemma AlikeGcd(g: nat, a: nat, b: nat, c: nat, e: nat)
    requires Alike(a, b, c, e) && IsGcd(g, a, b)
    ensures IsGcd(g, c, e)
  {
    assert Divides(g, a) && Divides(g, b);
  }

  /** With an odd partner, factors of two do not matter. */
  lemma {:induction false} OddPartAlike(a: nat, b: nat)
    requires a > 0 && Odd(b)
    ensures Alike(OddPart(a), b, a, b)
    decreases a
  {
    if !Odd(a) {
      OddPartAlike(a / 2, b);
      HalfAlike(a / 2, b);
      assert a == a / 2 + a / 2;
    }
  }

  lemma HalfAlike(a: nat, b: nat)
    requires Odd(b)
    ensures Alike(a, b, a + a, b)
  {
    forall d | Divides(d, b)
      ensures Divides(d, a + a) <==> Divides(d, a)
    {
      DividesOdd(d, b);
      OddDividesTwice(d, a);
    }
  }

  lemma MinusAlike(a: nat, b: nat)
    requires a >= b
    ensures Alike(a - b, b, a, b)
  {
    forall d | Divides(d, b)
      ensures Divides(d, a - b) <==> Divides(d, a)
    {
      DividesSum(d, b, a - b);
    }
  }

  lemma DoubleGcd(g: nat, a: nat, b: nat)
    requires IsGcd(g, a, b)
    ensures IsGcd(g + g, a + a, b + b)
  {
    TwiceDividesTwice(g, a);
    TwiceDividesTwice(g, b);
    var a2, b2 := a + a, b + b;
    forall d | Divides(d, a2) && Divides(d, b2)
      ensures Divides(d, g + g)
    {
      if Odd(d) {
        OddDividesTwice(d, a);
        OddDividesTwice(d, b);
        OddDividesTwice(d, g);
      } else {
        var e := d / 2;
        assert d == e + e;
        TwiceDividesTwice(e, a);
        TwiceDividesTwice(e, b);
        TwiceDividesTwice(e, g);
      }
    }
  }

  /** The twos that a and b share, put back. */
  lemma {:induction false} Lift(g: nat, a: nat, b: nat)
    requires a > 0 && b > 0 && IsGcd(g, a, OddPart(b)) && Or(a, b) > 0
    ensures IsGcd(Up(g, Ffs(Or(a, b))), a, b)
    decreases b
  {
    if Odd(b) {
    } else if Odd(a) {
      OddPartAlike(b, a);
      assert Alike(a, OddPart(b), a, b);
      AlikeGcd(g, a, OddPart(b), a, b);
    } else {
      var x, y := a / 2, b / 2;
      assert a == x + x && b == y + y;
      HalfAlike(x, OddPart(b));
      AlikeGcd(g, a, OddPart(b), x, OddPart(b));
      OrPositive(x, y);
      assert Or(a, b) == 2 * Or(x, y);
      Lift(g, x, y);
      DoubleGcd(Up(g, Ffs(Or(x, y))), x, y);
    }
  }

  lemma ZeroGcd(a: nat)
    ensures IsGcd(a, a, 0) && IsGcd(a, 0, a)
  {
    DividesSelf(a);
  }

  lemma OneGcd(b: nat)
    ensures IsGcd(1, 1, b) && IsGcd(1, b, 1)
  {
    DividesIs(1, b);
    DividesSelf(1);
  }

  lemma SameGcd(a: nat)
    ensures IsGcd(a, a, a)
  {
    DividesSelf(a);
  }

  /** gcd() where __ffs is cheap. */
  method GcdFfs(a0: nat, b0: nat) returns (g: nat)
    ensures IsGcd(g, a0, b0)
  {
    var a, b := a0, b0;
    var r := Or(a, b);
    if a == 0 || b == 0 {
      ZeroGcd(r);
      return r;
    }
    OrPositive(a, b);
    OddPartIsShift(b);
    b := Shift(b, Ffs(b));
    if b == 1 {
      OneGcd(a0);
      Lift(1, a0, b0);
      return Up(1, Ffs(r));
    }
    while true
      invariant a > 0 && Odd(b) && b > 1 && Alike(a, b, a0, OddPart(b0))
      decreases a + b
    {
      OddPartAlike(a, b);
      OddPartIsShift(a);
      a := Shift(a, Ffs(a));
      if a == 1 {
        OneGcd(b);
        AlikeGcd(1, a, b, a0, OddPart(b0));
        Lift(1, a0, b0);
        return Up(1, Ffs(r));
      }
      if a == b {
        SameGcd(a);
        AlikeGcd(a, a, b, a0, OddPart(b0));
        Lift(a, a0, b0);
        return Up(a, Ffs(r));
      }
      if a < b {
        a, b := b, a;
      }
      MinusAlike(a, b);
      a := a - b;
    }
  }

  // ---------------------------------------------------------------- without __ffs

  lemma UpMinus(x: nat, y: nat, k: nat)
    requires x >= y
    ensures Up(x, k) >= Up(y, k) && Up(x - y, k) == Up(x, k) - Up(y, k)
  {
    UpAdds(x - y, y, k);
  }

  lemma UpHalf(x: nat, k: nat)
    requires !Odd(x)
    ensures Up(x, k) / 2 == Up(x / 2, k)
  {
    UpAdds(x / 2, x / 2, k);
  }

  lemma {:induction false} UpOrder(x: nat, y: nat, k: nat)
    ensures Up(x, k) < Up(y, k) <==> x < y
  {
    if k > 0 {
      UpOrder(x, y, k - 1);
    }
  }

  /** a & r, for r the single bit k. */
  predicate Bit(a: nat, k: nat) {
    Odd(Shift(a, k))
  }

  /** Both numbers are multiples of the bit they share. */
  lemma {:induction false} Shared(a: nat, b: nat) returns (x: nat, y: nat)
    requires a > 0 && b > 0 && Or(a, b) > 0
    ensures a == Up(x, Ffs(Or(a, b))) && b == Up(y, Ffs(Or(a, b))) && x > 0 && y > 0 && OddPart(y) == OddPart(b)
    decreases a + b
  {
    if Odd(a) || Odd(b) {
      x, y := a, b;
    } else {
      OrHalves(a, b);
      x, y := Shared(a / 2, b / 2);
      UpOnce(a, x, Ffs(Or(a / 2, b / 2)));
      UpOnce(b, y, Ffs(Or(a / 2, b / 2)));
    }
  }

  lemma UpOnce(a: nat, x: nat, k: nat)
    requires a / 2 == Up(x, k) && !Odd(a)
    ensures a == Up(x, k + 1)
  {
  }

  lemma OrHalves(a: nat, b: nat)
    requires a > 0 && b > 0 && !Odd(a) && !Odd(b)
    ensures Or(a / 2, b / 2) > 0 && Or(a, b) == 2 * Or(a / 2, b / 2) && Ffs(Or(a, b)) == 1 + Ffs(Or(a / 2, b / 2))
  {
    OrPositive(a / 2, b / 2);
    var half := Or(a / 2, b / 2);
    assert (2 * half) / 2 == half;
  }

  /** `while (!(b & r)) b >>= 1;` on a multiple of r. */
  method Strip(b0: nat, k: nat, ghost y: nat) returns (b: nat)
    requires b0 == Up(y, k) && y > 0
    ensures b == Up(OddPart(y), k) && b <= b0
  {
    b := b0;
    ghost var z := y;
    ShiftUp(z, k);
    while !Bit(b, k)
      invariant b == Up(z, k) && z > 0 && OddPart(z) == OddPart(y) && Shift(b, k) == z && b <= b0
      decreases z
    {
      UpHalf(z, k);
      z := z / 2;
      ShiftUp(z, k);
      b := b / 2;
    }
  }

  /** One subtraction: half the difference, made even with b if need be, and halved again. Nothing exceeds the larger input. */
  lemma OddStep(x: nat, y: nat)
    requires Odd(x) && Odd(y) && x > y
    ensures var h := (x - y) / 2;
            var n := if Odd(h) then (h + y) / 2 else h / 2;
            n > 0 && n < x && h + y <= x && Alike(n, y, x, y) && (Odd(h) ==> !Odd(h + y))
  {
    var h := (x - y) / 2;
    MinusAlike(x, y);
    HalfAlike(h, y);
    assert h + h == x - y;
    var n := if Odd(h) then (h + y) / 2 else h / 2;
    HalfAlike(n, y);
    if Odd(h) {
      assert n + n == h + y;
      MinusAlike(h + y, y);
    } else {
      assert n + n == h;
    }
  }

  /** The same step on multiples of the bit k. */
  method Subtract(a0: nat, b: nat, k: nat, ghost x: nat, ghost y: nat) returns (a: nat, ghost n: nat)
    requires a0 == Up(x, k) && b == Up(y, k) && Odd(x) && Odd(y) && x > y
    ensures a == Up(n, k) && 0 < n < x && Alike(n, y, x, y) && a <= a0
  {
    OddStep(x, y);
    ghost var h := (x - y) / 2;
    HalfDifference(x, y, k);
    a := (a0 - b) / 2;
    ShiftUp(h, k);
    if Bit(a, k) {
      UpAdds(h, y, k);
      UpHalf(h + y, k);
      a := a + b;
      n := (h + y) / 2;
    } else {
      UpHalf(h, k);
      n := h / 2;
    }
    a := a / 2;
    UpOrder(x, n, k);
  }

  lemma HalfDifference(x: nat, y: nat, k: nat)
    requires Odd(x) && Odd(y) && x > y
    ensures Up(x, k) >= Up(y, k) && (Up(x, k) - Up(y, k)) / 2 == Up((x - y) / 2, k)
  {
    UpMinus(x, y, k);
    UpHalf(x - y, k);
  }

  /** gcd() where normalisation is done by loops. */
  method GcdLoops(a0: nat, b0: nat) returns (g: nat)
    ensures IsGcd(g, a0, b0)
  {
    var a, b := a0, b0;
    if a == 0 || b == 0 {
      ZeroGcd(Or(a, b));
      return Or(a, b);
    }
    OrPositive(a, b);
    var k := Ffs(Or(a, b));
    var r := Up(1, k);
    ghost var x, y := Shared(a, b);
    b := Strip(b, k, y);
    ghost var c := OddPart(b0);
    y := c;
    SharedAlike(a0, b0, x, k);
    UpOne(y, k);
    if b == r {
      OneGcd(a0);
      Lift(1, a0, b0);
      return r;
    }
    while true
      invariant a == Up(x, k) && b == Up(y, k) && x > 0 && Odd(y) && y > 1 && Alike(x, y, a0, c)
      decreases x + y
    {
      a := Strip(a, k, x);
      OddPartAlike(x, y);
      x := OddPart(x);
      UpOne(x, k);
      UpOrder(x, y, k);
      UpOrder(y, x, k);
      if a == r {
        OneGcd(y);
        AlikeGcd(1, x, y, a0, c);
        Lift(1, a0, b0);
        return r;
      }
      if a == b {
        SameGcd(x);
        AlikeGcd(x, x, y, a0, c);
        Lift(x, a0, b0);
        return a;
      }
      if a < b {
        a, b := b, a;
        x, y := y, x;
      }
      a, x := Subtract(a, b, k, x, y);
    }
  }

  lemma UpOne(x: nat, k: nat)
    ensures Up(x, k) == Up(1, k) <==> x == 1
  {
    UpOrder(x, 1, k);
    UpOrder(1, x, k);
  }

  /** Scaling by a power of two does not matter beside an odd number. */
  lemma {:induction false} SharedAlike(a: nat, b: nat, x: nat, k: nat)
    requires a > 0 && b > 0 && a == Up(x, k) && x > 0
    ensures Alike(x, OddPart(b), a, OddPart(b))
    decreases k
  {
    if k > 0 {
      SharedAlike(a / 2, b, x, k - 1);
      HalfAlike(a / 2, OddPart(b));
      assert a == a / 2 + a / 2;
    }
  }

  /** The two loops agree. */
  method GcdBoth(a: nat, b: nat) returns (g: nat, h: nat)
    ensures g == h && IsGcd(g, a, b)
  {
    g := GcdFfs(a, b);
    h := GcdLoops(a, b);
    GcdUnique(g, h, a, b);
  }

  // ---------------------------------------------------------------- least common multiples

  const U64: nat := 0x1_0000_0000_0000_0000

  /** Both divide l, and l divides every common multiple. */
  ghost predicate IsLcm(l: nat, a: nat, b: nat) {
    Divides(a, l) && Divides(b, l) && forall m :: Divides(a, m) && Divides(b, m) ==> Divides(l, m)
  }

  /** Some multiple of a, less some multiple of b, is g. */
  ghost predicate Combines(g: int, a: nat, b: nat) {
    exists s: int, t: int :: g == s * a + t * b
  }

  lemma CombinesIs(s: int, t: int, a: nat, b: nat)
    ensures Combines(s * a + t * b, a, b)
  {
  }

  lemma CombinesMore(g: int, a: nat, b: nat)
    requires Combines(g, a, b)
    ensures Combines(g, a + b, b)
  {
    var s: int, t: int :| g == s * a + t * b;
    CombinesIs(s, t - s, a + b, b);
    Distribute(s, t, a, b);
  }

  lemma Distribute(s: int, t: int, a: int, b: int)
    ensures s * (a + b) + (t - s) * b == s * a + t * b
  {
    assert s * (a + b) == s * a + s * b;
    assert (t - s) * b == t * b - s * b;
  }

  lemma CombinesSwap(g: int, a: nat, b: nat)
    requires Combines(g, a, b)
    ensures Combines(g, b, a)
  {
    var s: int, t: int :| g == s * a + t * b;
    CombinesIs(t, s, b, a);
  }

  /** A greatest common divisor is a combination. */
  lemma {:induction false} Bezout(a: nat, b: nat) returns (g: nat)
    ensures IsGcd(g, a, b) && Combines(g, a, b)
    decreases a + b
  {
    if a == 0 || b == 0 {
      g := a + b;
      ZeroGcd(g);
      CombinesIs(1, 1, a, b);
      assert g == 1 * a + 1 * b;
    } else if a >= b {
      g := Bezout(a - b, b);
      MinusAlike(a, b);
      AlikeGcd(g, a - b, b, a, b);
      CombinesMore(g, a - b, b);
    } else {
      g := Bezout(a, b - a);
      MinusAlike(b, a);
      assert Alike(a, b - a, a, b);
      AlikeGcd(g, a, b - a, a, b);
      CombinesSwap(g, a, b - a);
      CombinesMore(g, b - a, a);
      CombinesSwap(g, b, a);
    }
  }

  /** m is a multiple of l when g times m is a multiple of g times l. */
  lemma Cancel(l: nat, m: nat, g: nat, u: int)
    requires g > 0 && m * g == l * g * u
    ensures Divides(l, m)
  {
    assert l * g * u == (l * u) * g;
    assert (m - l * u) * g == 0;
    assert m == l * u;
    if m > 0 {
      assert u > 0;
      DividesIs(l, u);
    }
  }

  lemma Factor(c: int, s: int, q: int, t: int, p: int)
    ensures s * (c * q) + t * (c * p) == c * (s * q + t * p)
  {
    assert s * (c * q) == c * (s * q);
    assert t * (c * p) == c * (t * p);
  }

  lemma Assoc(x: int, y: int, z: int)
    ensures x * (y * z) == (x * y) * z == (x * z) * y
  {
  }

  lemma CombineMultiples(m: int, g: int, a: int, b: int, s: int, t: int, p: int, q: int)
    requires g == s * a + t * b && m == p * a && m == q * b
    ensures m * g == (a * b) * (s * q + t * p)
  {
    assert m * (s * a + t * b) == m * (s * a) + m * (t * b);
    assert m * (s * a) == s * ((a * b) * q) by {
      Assoc(m, s, a);
      Assoc(a, q, b);
      Assoc(s, m, a);
    }
    assert m * (t * b) == t * ((a * b) * p) by {
      Assoc(m, t, b);
      Assoc(b, p, a);
      Assoc(t, m, b);
    }
    Factor(a * b, s, q, t, p);
  }

  /** A common multiple of a and b is a multiple of a * b / g. */
  lemma LcmDivides(a: nat, b: nat, g: nat, l: nat, m: nat, s: int, t: int)
    requires g == s * a + t * b && g > 0 && l * g == a * b && Divides(a, m) && Divides(b, m)
    ensures Divides(l, m)
  {
    var p := Quotient(a, m);
    var q := Quotient(b, m);
    CombineMultiples(m, g, a, b, s, t, p, q);
    Cancel(l, m, g, s * q + t * p);
  }

  lemma QuotientIs(x: nat, g: nat)
    requires g > 0
    ensures (x * g) / g == x
  {
    ModUnique(x * g, g, x, 0);
    ProductBounds((x * g) / g - x, g);
  }

  /** a / g * b is b / g * a, and g times it is a * b. */
  lemma LcmProducts(x: nat, y: nat, g: nat, a: nat, b: nat)
    requires g > 0 && a == x * g && b == y * g
    ensures a / g == x && x * b == y * a && (x * b) * g == a * b
  {
    QuotientIs(x, g);
    Assoc(x, y, g);
    Assoc(y, x, g);
    Assoc(x, b, g);
  }

  lemma LcmIs(a: nat, b: nat, g: nat)
    requires a > 0 && b > 0 && IsGcd(g, a, b)
    ensures g > 0 && IsLcm((a / g) * b, a, b)
  {
    DividesBound(g, a);
    var x := Quotient(g, a);
    var y := Quotient(g, b);
    LcmProducts(x, y, g, a, b);
    DividesIs(b, x);
    DividesIs(a, y);
    var h := Bezout(a, b);
    GcdUnique(g, h, a, b);
    LcmLeast(a, b, g, x * b);
  }

  lemma LcmLeast(a: nat, b: nat, g: nat, l: nat)
    requires Combines(g, a, b) && g > 0 && l * g == a * b
    ensures forall m :: Divides(a, m) && Divides(b, m) ==> Divides(l, m)
  {
    var s: int, t: int :| g == s * a + t * b;
    forall m | Divides(a, m) && Divides(b, m)
      ensures Divides(l, m)
    {
      LcmDivides(a, b, g, l, m, s, t);
    }
  }

  /** lcm(), in 64 bits: right exactly if the least common multiple fits. */
  method Lcm(a: nat, b: nat) returns (r: nat)
    ensures exists l: nat :: IsLcm(l, a, b)
    ensures forall l: nat :: IsLcm(l, a, b) ==> r == l % U64 && (IsLcm(r, a, b) <==> l < U64)
  {
    ghost var l: nat := 0;
    if a != 0 && b != 0 {
      var g := GcdFfs(a, b);
      LcmIs(a, b, g);
      l := (a / g) * b;
      r := ((a / g) * b) % U64;
    } else {
      r := 0;
    }
    forall m: nat | IsLcm(m, a, b)
      ensures r == m % U64 && (IsLcm(r, a, b) <==> m < U64)
    {
      LcmUnique(l, m, a, b);
      LcmFits(m, r, a, b);
    }
    assert IsLcm(l, a, b);
  }

  lemma LcmUnique(l: nat, m: nat, a: nat, b: nat)
    requires IsLcm(l, a, b) && IsLcm(m, a, b)
    ensures l == m
  {
    assert Divides(l, m) && Divides(m, l);
  }

  lemma LcmFits(l: nat, r: nat, a: nat, b: nat)
    requires IsLcm(l, a, b) && r == l % U64
    ensures IsLcm(r, a, b) <==> l < U64
  {
    if IsLcm(r, a, b) {
      assert Divides(l, r) && Divides(r, l);
      if r > 0 {
        DividesBound(l, r);
      }
      if l > 0 {
        DividesBound(r, l);
      }
    }
  }
}
