/** Both put_dec() algorithms and num_to_str(), writing into a buffer through a moving position. */
module PutDec {
  import opened Decimal

  function Chr(d: nat): char {
    if d < 10 then '0' + d as char else '?'
  }

  function Text(digits: seq<nat>): seq<char> {
    seq(|digits|, i requires 0 <= i < |digits| => Chr(digits[i]))
  }

  lemma TextAppend(x: seq<nat>, y: seq<nat>)
    ensures Text(x + y) == Text(x) + Text(y)
  {
  }

  /** From one state of the buffer to the next: the text so far was followed by these digits. */
  ghost predicate Wrote(was: seq<char>, now: seq<char>, at: nat, next: nat, digits: seq<nat>) {
    at <= |was| && next == at + |digits| && |now| == |was| && next <= |now| && now[..next] == was[..at] + Text(digits)
  }

  lemma WroteThen(a: seq<char>, b: seq<char>, c: seq<char>, i: nat, j: nat, k: nat, x: seq<nat>, y: seq<nat>)
    requires Wrote(a, b, i, j, x) && Wrote(b, c, j, k, y)
    ensures Wrote(a, c, i, k, x + y)
  {
    TextAppend(x, y);
  }

  /** `*buf++ = (q - 10 * r) + '0'`. */
  method Put(buf: array<char>, at: nat, q: nat, r: nat) returns (next: nat)
    requires at < buf.Length && r == q / 10
    modifies buf
    ensures Wrote(old(buf[..]), buf[..], at, next, [q % 10])
  {
    buf[at] := Chr(q - 10 * r);
    next := at + 1;
    assert q - 10 * r == q % 10;
  }

  /** The last digit: `*buf++ = q + '0'`. */
  method PutLast(buf: array<char>, at: nat, q: nat) returns (next: nat)
    requires at < buf.Length && q < 10
    modifies buf
    ensures Wrote(old(buf[..]), buf[..], at, next, [q])
  {
    buf[at] := Chr(q);
    next := at + 1;
  }

  /** Three digits of q, under 1000: the common end of the fixed-width routines. */
  method PutTail(buf: array<char>, at: nat, q: nat) returns (next: nat)
    requires at + 3 <= buf.Length && q < 1000
    modifies buf
    ensures Wrote(old(buf[..]), buf[..], at, next, [q % 10, q / 10 % 10, q / 10 / 10])
  {
    ghost var s0 := buf[..];
    var q2 := Tenth11(q);
    Tenth11Is(q);
    var i := Put(buf, at, q, q2);
    ghost var s1 := buf[..];
    var q3 := Tenth11(q2);
    Tenth11Is(q2);
    var j := Put(buf, i, q2, q3);
    ghost var s2 := buf[..];
    next := PutLast(buf, j, q3);
    WroteThen(s1, s2, buf[..], i, j, next, [q2 % 10], [q3]);
    WroteThen(s0, s1, buf[..], at, i, next, [q % 10], [q2 % 10] + [q3]);
  }

  /** Four digits, written out. */
  function Quad(n: nat): seq<nat> {
    [n % 10, n / 10 % 10, n / 10 / 10 % 10, n / 10 / 10 / 10 % 10]
  }

  lemma QuadOf(q: nat)
    requires q < 10000
    ensures var r := q / 10; Quad(q) == [q % 10] + [r % 10, r / 10 % 10, r / 10 / 10]
  {
  }

  lemma QuadIsPad(n: nat)
    ensures Quad(n) == Pad(n, 4)
  {
    PadUnfold(n);
  }

  /** put_dec_full4(): four digits of q. */
  method PutDecFull4(buf: array<char>, at: nat, q: nat) returns (next: nat)
    requires at + 4 <= buf.Length && q < 10000
    modifies buf
    ensures Wrote(old(buf[..]), buf[..], at, next, Quad(q))
  {
    ghost var s0 := buf[..];
    var r := Tenth15(q);
    Tenth15Is(q);
    var i := Put(buf, at, q, r);
    ghost var s1 := buf[..];
    next := PutTail(buf, i, r);
    WroteThen(s0, s1, buf[..], at, i, next, [q % 10], [r % 10, r / 10 % 10, r / 10 / 10]);
    QuadOf(q);
  }

  /** One digit with the wide reciprocal. */
  method PutWide(buf: array<char>, at: nat, q: nat) returns (next: nat, r: nat)
    requires at < buf.Length && q < 1073741829
    modifies buf
    ensures Wrote(old(buf[..]), buf[..], at, next, [q % 10]) && r == q / 10
  {
    r := Tenth32(q);
    Tenth32Is(q);
    next := Put(buf, at, q, r);
  }

  /** The same k times. */
  method PutWides(buf: array<char>, at: nat, q: nat, k: nat) returns (next: nat, r: nat)
    requires at + k <= buf.Length && q < 1073741829
    modifies buf
    ensures Wrote(old(buf[..]), buf[..], at, next, Pad(q, k)) && r == Shifted(q, k)
    decreases k
  {
    next, r := at, q;
    if k > 0 {
      ghost var s0 := buf[..];
      next, r := PutWide(buf, at, q);
      ghost var s1, i, x := buf[..], next, r;
      next, r := PutWides(buf, next, r, k - 1);
      WroteThen(s0, s1, buf[..], at, i, next, [q % 10], Pad(x, k - 1));
    }
  }

  /** put_dec_full9(): nine digits of q; after the first five the value is under 10000 and narrow products do. */
  method PutDecFull9(buf: array<char>, at: nat, q: nat) returns (next: nat)
    requires at + 9 <= buf.Length && q < 1000000000
    modifies buf
    ensures Wrote(old(buf[..]), buf[..], at, next, Pad(q, 9))
  {
    ghost var s0 := buf[..];
    var x;
    next, x := PutWides(buf, at, q, 5);
    ghost var s1, i := buf[..], next;
    FiveOff(q);
    var r := Tenth16(x);
    Tenth16Is(x);
    next := Put(buf, next, x, r);
    ghost var s2, j := buf[..], next;
    next := PutTail(buf, next, r);
    WroteThen(s1, s2, buf[..], i, j, next, [x % 10], [r % 10, r / 10 % 10, r / 10 / 10]);
    QuadOf(x);
    WroteThen(s0, s1, buf[..], at, i, next, Pad(q, 5), Quad(x));
    QuadIsPad(x);
    PadSplit(q, 5, 4);
  }

  lemma FiveOff(q: nat)
    requires q < 1000000000
    ensures Shifted(q, 5) < 10000
  {
    ShiftUnfold(q);
    ShiftMore(q, 4);
  }

  lemma {:induction false} ShiftMore(n: nat, k: nat)
    ensures Shifted(n, k + 1) == Shifted(n, k) / 10
    decreases k
  {
    if k > 0 {
      ShiftMore(n / 10, k - 1);
    }
  }

  /** put_dec_trunc8(): the digits of r, none padded. */
  method PutDecTrunc8(buf: array<char>, at: nat, r0: nat) returns (next: nat)
    requires at + |Rev(r0)| <= buf.Length && r0 < 100000000
    modifies buf
    ensures Wrote(old(buf[..]), buf[..], at, next, Rev(r0))
  {
    var r := r0;
    next := at;
    GoStart(buf[..], at, r0);
    while r >= 10000
      invariant r < 100000000 && Going(old(buf[..]), buf[..], at, next, r0, r)
    {
      RevIs(r);
      RevIs(r / 10);
      GoRoom(old(buf[..]), buf[..], at, next, r0, r);
      ghost var was, i, x := buf[..], next, r;
      next, r := PutWide(buf, next, r);
      GoOn(old(buf[..]), was, buf[..], at, i, next, r0, x, [x % 10], r);
    }
    GoRoom(old(buf[..]), buf[..], at, next, r0, r);
    ghost var was, i := buf[..], next;
    next := PutShort(buf, next, r);
    GoEnd(old(buf[..]), was, buf[..], at, i, next, r0, r);
  }

  /** Its last four digits, with early returns. */
  method PutShort(buf: array<char>, at: nat, r0: nat) returns (next: nat)
    requires at + |Rev(r0)| <= buf.Length && r0 < 10000
    modifies buf
    ensures Wrote(old(buf[..]), buf[..], at, next, Rev(r0))
  {
    ghost var s0 := buf[..];
    var q := Tenth16(r0);
    Tenth16Is(r0);
    RevIs(r0);
    next := Put(buf, at, r0, q);
    if q == 0 {
      return;
    }
    ghost var s1, i := buf[..], next;
    assert Rev(r0) == [r0 % 10] + Rev(q);
    next := PutThree(buf, next, q);
    WroteThen(s0, s1, buf[..], at, i, next, [r0 % 10], Rev(q));
  }

  method PutThree(buf: array<char>, at: nat, q: nat) returns (next: nat)
    requires at + |Rev(q)| <= buf.Length && q < 1000
    modifies buf
    ensures Wrote(old(buf[..]), buf[..], at, next, Rev(q))
  {
    ghost var s0 := buf[..];
    var r := Tenth11(q);
    Tenth11Is(q);
    RevIs(q);
    next := Put(buf, at, q, r);
    if r == 0 {
      return;
    }
    ghost var s1, i := buf[..], next;
    assert Rev(q) == [q % 10] + Rev(r);
    RevIs(r);
    var p := Tenth11(r);
    Tenth11Is(r);
    next := Put(buf, next, r, p);
    if p == 0 {
      WroteThen(s0, s1, buf[..], at, i, next, [q % 10], Rev(r));
      return;
    }
    ghost var s2, j := buf[..], next;
    assert Rev(r) == [r % 10] + Rev(p) && Rev(p) == [p];
    next := PutLast(buf, next, p);
    WroteThen(s1, s2, buf[..], i, j, next, [r % 10], [p]);
    WroteThen(s0, s1, buf[..], at, i, next, [q % 10], Rev(r));
  }

  /** What is written so far, and what is still to come, make up the number. */
  ghost predicate Going(was: seq<char>, now: seq<char>, at: nat, next: nat, n0: nat, n: nat) {
    exists done :: Wrote(was, now, at, next, done) && Rev(n0) == done + Rev(n)
  }

  lemma GoOn(a: seq<char>, b: seq<char>, c: seq<char>, at: nat, i: nat, next: nat, n0: nat, n: nat, group: seq<nat>, m: nat)
    requires Going(a, b, at, i, n0, n) && Wrote(b, c, i, next, group) && Rev(n) == group + Rev(m)
    ensures Going(a, c, at, next, n0, m)
  {
    var done :| Wrote(a, b, at, i, done) && Rev(n0) == done + Rev(n);
    WroteThen(a, b, c, at, i, next, done, group);
    assert done + (group + Rev(m)) == done + group + Rev(m);
  }

  lemma GoEnd(a: seq<char>, b: seq<char>, c: seq<char>, at: nat, i: nat, next: nat, n0: nat, n: nat)
    requires Going(a, b, at, i, n0, n) && Wrote(b, c, i, next, Rev(n))
    ensures Wrote(a, c, at, next, Rev(n0))
  {
    var done :| Wrote(a, b, at, i, done) && Rev(n0) == done + Rev(n);
    WroteThen(a, b, c, at, i, next, done, Rev(n));
  }

  lemma GoRoom(a: seq<char>, b: seq<char>, at: nat, i: nat, n0: nat, n: nat)
    requires Going(a, b, at, i, n0, n)
    ensures i + |Rev(n)| == at + |Rev(n0)| && |b| == |a|
  {
  }

  lemma GoStart(a: seq<char>, at: nat, n: nat)
    requires at <= |a|
    ensures Going(a, a, at, at, n, n)
  {
    assert Wrote(a, a, at, at, []) && Rev(n) == [] + Rev(n);
  }

  /** put_dec(), first algorithm: groups of nine digits. */
  method PutDecGroups(buf: array<char>, at: nat, n0: nat) returns (next: nat)
    requires at + |Rev(n0)| <= buf.Length && n0 < U64
    modifies buf
    ensures Wrote(old(buf[..]), buf[..], at, next, Rev(n0))
  {
    var n := n0;
    next := at;
    GoStart(buf[..], at, n0);
    if n >= 100000000 {
      while n >= 1000000000
        invariant Going(old(buf[..]), buf[..], at, next, n0, n)
      {
        Nine(n);
        GoRoom(old(buf[..]), buf[..], at, next, n0, n);
        ghost var was, i, x := buf[..], next, n;
        next := PutDecFull9(buf, next, n % 1000000000);
        n := n / 1000000000;
        GoOn(old(buf[..]), was, buf[..], at, i, next, n0, x, Pad(x % 1000000000, 9), n);
      }
      if n >= 100000000 {
        NineExactly(n);
        GoRoom(old(buf[..]), buf[..], at, next, n0, n);
        ghost var was, i := buf[..], next;
        next := PutDecFull9(buf, next, n);
        GoEnd(old(buf[..]), was, buf[..], at, i, next, n0, n);
        return;
      }
    }
    GoRoom(old(buf[..]), buf[..], at, next, n0, n);
    ghost var was, i := buf[..], next;
    next := PutDecTrunc8(buf, next, n);
    GoEnd(old(buf[..]), was, buf[..], at, i, next, n0, n);
  }

  lemma PowNine()
    ensures Pow10(9) == 1000000000 && Pow10(8) == 100000000
  {
    assert Pow10(3) == 1000;
    assert Pow10(6) == 1000000;
    assert Pow10(8) == 100000000;
  }

  lemma Nine(n: nat)
    requires n >= 1000000000
    ensures Rev(n) == Pad(n % 1000000000, 9) + Rev(n / 1000000000) && |Pad(n % 1000000000, 9)| == 9
  {
    PowNine();
    GroupSplit(n % 1000000000, n / 1000000000, 9, 1000000000 * (n / 1000000000));
  }

  /** A number in a low group of k digits and the rest. */
  lemma GroupSplit(low: nat, high: nat, k: nat, shifted: nat)
    requires low < Pow10(k) && shifted == Pow10(k) * high && high > 0 && shifted >= Pow10(k)
    ensures Rev(low + shifted) == Pad(low, k) + Rev(high) && |Pad(low, k)| == k
  {
    PadIs(low, k);
    Low(low, high, k, shifted);
    RevSplit(low + shifted, k);
  }

  /** Digits of a number given as a low part and a high part. */
  lemma {:induction false} Low(low: nat, high: nat, k: nat, shifted: nat)
    requires low < Pow10(k) && shifted == Pow10(k) * high
    ensures Pad(low + shifted, k) == Pad(low, k) && Shifted(low + shifted, k) == high
    decreases k
  {
    if k > 0 {
      var h := Pow10(k - 1) * high;
      assert shifted == 10 * h;
      Step10(low, h);
      Low(low / 10, high, k - 1, h);
    }
  }

  lemma NineExactly(n: nat)
    requires 100000000 <= n < 1000000000
    ensures Pad(n, 9) == Rev(n) && |Rev(n)| == 9
  {
    PowNine();
    RevSplit(n, 8);
    PadIs(n, 8);
    PadIsRev(n, 9);
    RevIs(Shifted(n, 8));
    assert Zeros(0) == [];
  }

  // ---------------------------------------------------------------- without 64-bit division

  lemma HelperParts(x: nat)
    requires x < 1128869999
    ensures var q := Myriadth(x);
            q == x / 10000 && Rest32(x, q) < 10000 && Quad(Rest32(x, q)) == Quad(x)
  {
    MyriadthIs(x);
    assert Rest32(x, x / 10000) == x % 10000;
    GroupPad(x);
  }

  /** put_dec_helper4(): four digits of x, and the rest. */
  method PutDecHelper4(buf: array<char>, at: nat, x: nat) returns (next: nat, q: nat)
    requires at + 4 <= buf.Length && x < 1128869999
    modifies buf
    ensures Wrote(old(buf[..]), buf[..], at, next, Quad(x)) && q == x / 10000
  {
    q := Myriadth(x);
    HelperParts(x);
    var low := Rest32(x, q);
    next := PutDecFull4(buf, at, low);
  }

  /** `x - q * 10000` in 32 bits. */
  function Rest32(x: nat, q: nat): nat {
    (x - q * 10000) % W32
  }

  /** A 64-bit number in four chunks of 16 bits; the running sums of the second algorithm. */
  datatype Chunked = Chunked(d3: nat, d2: nat, d1: nat, d0: nat) {
    function Q0(): nat {
      656 * d3 + 7296 * d2 + 5536 * d1 + d0
    }

    function Q1(): nat {
      Q0() / 10000 + 7671 * d3 + 9496 * d2 + 6 * d1
    }

    function Q2(): nat {
      Q1() / 10000 + 4749 * d3 + 42 * d2
    }

    function Q3(): nat {
      Q2() / 10000 + 281 * d3
    }

    function Whole(): nat {
      0x1_0000_0000_0000 * d3 + 0x1_0000_0000 * d2 + 0x1_0000 * d1 + d0
    }

    predicate Valid() {
      d3 < 0x1_0000 && d2 < 0x1_0000 && d1 < 0x1_0000 && d0 < 0x1_0000
    }
  }

  /** The digits of n, perhaps followed by zeros. */
  ghost predicate Padded(s: seq<nat>, n: nat) {
    if n == 0 then s == Zeros(|s|) else |s| >= |Rev(n)| && s == Rev(n) + Zeros(|s| - |Rev(n)|)
  }

  /** Four digits more. */
  lemma GroupHigh(low: nat, high: nat)
    requires low < 10000 && high > 0
    ensures Rev(low + 10000 * high) == Quad(low) + Rev(high)
  {
    QuadIsPad(low);
    assert Pow10(4) == 10000;
    GroupSplit(low, high, 4, 10000 * high);
  }

  lemma GroupLow(low: nat)
    requires low < 10000
    ensures Padded(Quad(low), low)
  {
    QuadIsPad(low);
    if low == 0 {
      PadZero(4);
    } else {
      assert Pow10(4) == 10000;
      PadIsRev(low, 4);
    }
  }

  lemma PaddedMore(g: seq<nat>, t: seq<nat>, low: nat, high: nat, n: nat)
    requires low < 10000 && n == low + 10000 * high && Padded(t, high)
    requires Padded(g, low) && (high > 0 ==> Rev(n) == g + Rev(high))
    ensures Padded(g + t, n)
  {
    if high > 0 {
      assert g + (Rev(high) + Zeros(|t| - |Rev(high)|)) == g + Rev(high) + Zeros(|t| - |Rev(high)|);
    } else if n > 0 {
      assert Rev(low) + Zeros(|g| - |Rev(low)|) + Zeros(|t|) == Rev(low) + Zeros(|g| + |t| - |Rev(low)|);
    }
  }

  /** The running sum q, and all that is above it. */
  lemma Group(q: nat, above: nat, t: seq<nat>)
    requires Padded(t, q / 10000 + above)
    ensures Padded(Quad(q) + t, q + 10000 * above)
  {
    var low, high := q % 10000, q / 10000 + above;
    GroupPad(q);
    GroupLow(low);
    if high > 0 {
      GroupHigh(low, high);
    }
    GroupSum(q, above);
    PaddedMore(Quad(low), t, low, high, q + 10000 * above);
  }

  lemma GroupSum(q: nat, above: nat)
    ensures q + 10000 * above == q % 10000 + 10000 * (q / 10000 + above)
  {
  }

  lemma GroupPad(q: nat)
    ensures Quad(q) == Quad(q % 10000)
  {
    QuadIsPad(q);
    QuadIsPad(q % 10000);
    assert Pow10(4) == 10000;
    Low(q % 10000, q / 10000, 4, 10000 * (q / 10000));
  }

  /** The sums give the digits in groups of four. */
  lemma Chunks(c: Chunked, t: seq<nat>)
    requires Padded(t, c.Q3())
    ensures Padded(Quad(c.Q0()) + (Quad(c.Q1()) + (Quad(c.Q2()) + t)), c.Whole())
  {
    var a1, a2, a3 := 7671 * c.d3 + 9496 * c.d2 + 6 * c.d1, 4749 * c.d3 + 42 * c.d2, 281 * c.d3;
    ChunkSum(c);
    ThreeGroups(c.Q0(), a1 + 10000 * (a2 + 10000 * a3), c.Q1(), a2 + 10000 * a3, c.Q2(), a3, t);
  }

  lemma ThreeGroups(q0: nat, b0: nat, q1: nat, b1: nat, q2: nat, b2: nat, t: seq<nat>)
    requires q1 + 10000 * b1 == q0 / 10000 + b0 && q2 + 10000 * b2 == q1 / 10000 + b1 && Padded(t, q2 / 10000 + b2)
    ensures Padded(Quad(q0) + (Quad(q1) + (Quad(q2) + t)), q0 + 10000 * b0)
  {
    Group(q2, b2, t);
    Group(q1, b1, Quad(q2) + t);
    Group(q0, b0, Quad(q1) + (Quad(q2) + t));
  }

  lemma ChunkSum(c: Chunked)
    ensures var a1, a2, a3 := 7671 * c.d3 + 9496 * c.d2 + 6 * c.d1, 4749 * c.d3 + 42 * c.d2, 281 * c.d3;
            && c.Whole() == c.Q0() + 10000 * (a1 + 10000 * (a2 + 10000 * a3))
            && c.Q1() + 10000 * (a2 + 10000 * a3) == c.Q0() / 10000 + (a1 + 10000 * (a2 + 10000 * a3))
            && c.Q2() + 10000 * a3 == c.Q1() / 10000 + (a2 + 10000 * a3)
            && c.Q3() == c.Q2() / 10000 + a3
  {
  }

  lemma PowTwelve()
    ensures Pow10(20) == 100000000000000000000
  {
    PowNine();
    assert Pow10(12) == 1000 * Pow10(9);
    assert Pow10(15) == 1000 * Pow10(12);
    assert Pow10(18) == 1000 * Pow10(15);
    assert Pow10(20) == 100 * Pow10(18);
  }

  /** No value that put_dec_helper4() is given is too large for it. */
  lemma ChunkBounds(c: Chunked)
    requires c.Valid()
    ensures c.Q0() < 1128869999 && c.Q1() <= 1125520955 && c.Q2() < 1128869999 && c.Q3() < 100000000
  {
  }

  /** put_dec(), second algorithm: groups of four digits from 16-bit chunks. */
  method PutDecChunks(buf: array<char>, at: nat, n: nat) returns (next: nat)
    requires at + 20 <= buf.Length && n < U64
    modifies buf
    ensures Wrote(old(buf[..]), buf[..], at, next, Rev(n))
  {
    PowTwelve();
    RevLength(n, 20);
    if n < 100000000 {
      next := PutDecTrunc8(buf, at, n);
      return;
    }
    var c := Chunked(n / 0x1_0000_0000_0000, n / 0x1_0000_0000 % 0x1_0000, n / 0x1_0000 % 0x1_0000, n % 0x1_0000);
    SplitChunks(n);
    ChunkBounds(c);
    var q;
    next, q := PutTwelve(buf, at, c);
    ghost var was, i, groups := buf[..], next, Quad(c.Q0()) + Quad(c.Q1()) + Quad(c.Q2());
    GroupsThen(c, if q == 0 then [] else Rev(q));
    if q != 0 {
      AllDigits(groups + Rev(q), n, groups, q);
      next := PutDecTrunc8(buf, next, q);
      WroteThen(old(buf[..]), was, buf[..], at, i, next, groups, Rev(q));
    } else {
      assert groups + [] == groups;
      next := Trim(buf, at, next, n, groups, old(buf[..]));
    }
  }

  lemma GroupsThen(c: Chunked, t: seq<nat>)
    requires t == if c.Q3() == 0 then [] else Rev(c.Q3())
    ensures Padded(Quad(c.Q0()) + Quad(c.Q1()) + Quad(c.Q2()) + t, c.Whole())
  {
    assert c.Q3() > 0 ==> t == Rev(c.Q3()) + Zeros(0);
    Chunks(c, t);
    Regroup(Quad(c.Q0()), Quad(c.Q1()), Quad(c.Q2()), t);
  }

  lemma Regroup(x: seq<nat>, y: seq<nat>, z: seq<nat>, t: seq<nat>)
    ensures x + (y + (z + t)) == x + y + z + t
  {
  }

  lemma LastZero(d: seq<nat>, k: nat)
    ensures k > 0 ==> (d + Zeros(k))[|d| + k - 1] == 0
    ensures k == 0 ==> d + Zeros(k) == d
  {
  }

  /** Digits that end in one that is not zero are all the digits. */
  lemma AllDigits(s: seq<nat>, n: nat, g: seq<nat>, q: nat)
    requires Padded(s, n) && n > 0 && q > 0 && s == g + Rev(q)
    ensures s == Rev(n)
  {
    RevIs(q);
    assert s[|s| - 1] == Rev(q)[|Rev(q)| - 1];
    var k := |s| - |Rev(n)|;
    LastZero(Rev(n), k);
  }

  lemma SplitChunks(n: nat)
    requires n < U64
    ensures var c := Chunked(n / 0x1_0000_0000_0000, n / 0x1_0000_0000 % 0x1_0000, n / 0x1_0000 % 0x1_0000, n % 0x1_0000);
            c.Valid() && c.Whole() == n
  {
    var a := n / 0x1_0000;
    var b := a / 0x1_0000;
    assert n / 0x1_0000_0000 == b;
    assert n / 0x1_0000_0000_0000 == b / 0x1_0000;
  }

  /** The twelve lowest digits, and what is left. */
  method PutTwelve(buf: array<char>, at: nat, c: Chunked) returns (next: nat, q: nat)
    requires at + 12 <= buf.Length && c.Valid()
    modifies buf
    ensures Wrote(old(buf[..]), buf[..], at, next, Quad(c.Q0()) + Quad(c.Q1()) + Quad(c.Q2())) && q == c.Q3()
  {
    ChunkBounds(c);
    ghost var s0 := buf[..];
    var j;
    j, q := PutEight(buf, at, c);
    ghost var s2 := buf[..];
    next, q := PutDecHelper4(buf, j, q + 4749 * c.d3 + 42 * c.d2);
    q := q + 281 * c.d3;
    WroteThen(s0, s2, buf[..], at, j, next, Quad(c.Q0()) + Quad(c.Q1()), Quad(c.Q2()));
  }

  method PutEight(buf: array<char>, at: nat, c: Chunked) returns (next: nat, q: nat)
    requires at + 8 <= buf.Length && c.Valid()
    modifies buf
    ensures Wrote(old(buf[..]), buf[..], at, next, Quad(c.Q0()) + Quad(c.Q1())) && q == c.Q1() / 10000
  {
    ChunkBounds(c);
    ghost var s0 := buf[..];
    var i;
    i, q := PutDecHelper4(buf, at, 656 * c.d3 + 7296 * c.d2 + 5536 * c.d1 + c.d0);
    ghost var s1 := buf[..];
    next, q := PutDecHelper4(buf, i, q + 7671 * c.d3 + 9496 * c.d2 + 6 * c.d1);
    WroteThen(s0, s1, buf[..], at, i, next, Quad(c.Q0()), Quad(c.Q1()));
  }

  /** `while (buf[-1] == '0') --buf;`: the zeros that no digit follows. It stops, since the number is not zero. */
  method Trim(buf: array<char>, ghost at: nat, next0: nat, ghost n: nat, ghost groups: seq<nat>, ghost was: seq<char>)
    returns (next: nat)
    requires n > 0 && Padded(groups, n) && Wrote(was, buf[..], at, next0, groups)
    ensures Wrote(was, buf[..], at, next, Rev(n))
  {
    next := next0;
    RevIs(n);
    ghost var k := |groups| - |Rev(n)|;
    while buf[next - 1] == '0'
      invariant 0 <= k && next <= buf.Length && Wrote(was, buf[..], at, next, Rev(n) + Zeros(k))
      decreases k
    {
      TrimOne(was, buf[..], at, next, Rev(n), k);
      next, k := next - 1, k - 1;
    }
    TrimEnd(was, buf[..], at, next, Rev(n), k);
  }

  lemma TrimOne(was: seq<char>, now: seq<char>, at: nat, next: nat, digits: seq<nat>, k: nat)
    requires Wrote(was, now, at, next, digits + Zeros(k)) && digits != [] && now[next - 1] == '0'
    requires 0 < digits[|digits| - 1] < 10
    ensures k > 0 && Wrote(was, now, at, next - 1, digits + Zeros(k - 1))
  {
    var all := digits + Zeros(k);
    assert now[next - 1] == Text(all)[|all| - 1];
    assert k == 0 ==> all == digits;
    if k > 0 {
      assert all[..|all| - 1] == digits + Zeros(k - 1);
      assert Text(all)[..|all| - 1] == Text(digits + Zeros(k - 1));
      assert now[..next - 1] == now[..next][..next - 1];
    }
  }

  lemma TrimEnd(was: seq<char>, now: seq<char>, at: nat, next: nat, digits: seq<nat>, k: nat)
    requires Wrote(was, now, at, next, digits + Zeros(k)) && digits != [] && now[next - 1] != '0'
    ensures k == 0 && Wrote(was, now, at, next, digits)
  {
    var all := digits + Zeros(k);
    assert now[next - 1] == Text(all)[|all| - 1];
    LastZero(digits, k);
  }

  // ---------------------------------------------------------------- num_to_str()

  /** The number as it is read, highest digit first. */
  function Numeral(n: nat): seq<char> {
    var t := Text(Rev(n));
    seq(|t|, i requires 0 <= i < |t| => t[|t| - 1 - i])
  }

  /** num_to_str(): the decimal text, or 0 and nothing written if it does not fit. */
  method NumToStr(buf: array<char>, size: int, num: nat, chunks: bool) returns (len: nat)
    requires size <= buf.Length && num < U64
    modifies buf
    ensures len == if |Numeral(num)| <= size then |Numeral(num)| else 0
    ensures len > 0 ==> buf[..len] == Numeral(num)
    ensures buf[len..] == old(buf[len..])
  {
    var tmp, n := Convert(num, chunks);
    if n > size {
      return 0;
    }
    CopyBack(buf, tmp, n, Text(Rev(num)));
    len := n;
  }

  method Convert(num: nat, chunks: bool) returns (tmp: array<char>, n: nat)
    requires num < U64
    ensures fresh(tmp) && n <= tmp.Length && tmp[..n] == Text(Rev(num)) && n == |Rev(num)| && n > 0
  {
    tmp := new char[24];
    PowTwelve();
    RevLength(num, 20);
    RevIs(num);
    if num <= 9 {
      tmp[0] := Chr(num);
      n := 1;
    } else if chunks {
      n := PutDecChunks(tmp, 0, num);
    } else {
      n := PutDecGroups(tmp, 0, num);
    }
  }

  /** Its copying loop. */
  method CopyBack(buf: array<char>, tmp: array<char>, n: nat, ghost t: seq<char>)
    requires buf != tmp && n <= buf.Length && n <= tmp.Length && tmp[..n] == t
    modifies buf
    ensures buf[..n] == seq(|t|, i requires 0 <= i < |t| => t[|t| - 1 - i])
    ensures buf[n..] == old(buf[n..])
  {
    for idx := 0 to n
      invariant tmp[..n] == t
      invariant forall i :: 0 <= i < idx ==> buf[i] == t[n - 1 - i]
      invariant buf[n..] == old(buf[n..])
    {
      assert tmp[n - idx - 1] == t[n - idx - 1];
      buf[idx] := tmp[n - idx - 1];
    }
  }
}
