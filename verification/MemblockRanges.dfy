/** The iterators over memory that is not reserved, forwards and backwards, and the searches built on them. A region of
    memory and a gap between reservations that intersect are a pair; each pair is one range. */
module MemblockRanges {
  import opened Align
  import opened MemblockRegions
  import opened MemblockType

  /** The bit of MEMBLOCK_NOMAP. */
  const NO_MAP: nat := 0

  /** What the iterators need of an array. */
  ghost predicate InOrder(rs: seq<Region>) {
    && (forall i :: 0 <= i < |rs| ==> End(rs[i]) <= TOP)
    && forall i, j :: 0 <= i < j < |rs| ==> End(rs[i]) <= rs[j].base
  }

  lemma GoodInOrder(rs: seq<Region>)
    requires Good(rs)
    ensures InOrder(rs)
  {
    if rs != [DUMMY] {
      forall i | 0 <= i < |rs|
        ensures End(rs[i]) <= TOP
      {
        SortedOne(rs, 0, i);
      }
      forall i, j | 0 <= i < j < |rs|
        ensures End(rs[i]) <= rs[j].base
      {
        SortedAt(rs, 0, i, j);
      }
    }
  }

  /** Gap j lies before reservation j. */
  function GapStart(b: seq<Region>, j: int): nat {
    if 0 < j <= |b| then End(b[j - 1]) else 0
  }

  function GapEnd(b: seq<Region>, j: int): nat {
    if 0 <= j < |b| then b[j].base else TOP
  }

  lemma GapOrder(b: seq<Region>, j: int, k: int)
    requires InOrder(b) && 0 <= j < k <= |b|
    ensures GapStart(b, j) <= GapEnd(b, j) <= GapStart(b, k) <= GapEnd(b, k) <= TOP
  {
  }

  /** Nomap memory is skipped unless asked for. */
  predicate Wanted(f: Flags, flags: Flags) {
    NO_MAP in flags || NO_MAP !in f
  }

  ghost predicate Meets(a: seq<Region>, b: seq<Region>, flags: Flags, i: int, j: int) {
    && 0 <= i < |a| && 0 <= j <= |b| && Wanted(a[i].flags, flags)
    && GapStart(b, j) < End(a[i]) && a[i].base < GapEnd(b, j)
  }

  function From(a: seq<Region>, b: seq<Region>, i: int, j: int): nat
    requires 0 <= i < |a|
  {
    if a[i].base > GapStart(b, j) then a[i].base else GapStart(b, j)
  }

  function To(a: seq<Region>, b: seq<Region>, i: int, j: int): nat
    requires 0 <= i < |a|
  {
    if End(a[i]) < GapEnd(b, j) then End(a[i]) else GapEnd(b, j)
  }

  datatype Cursor = Cursor(ia: int, ib: int)

  datatype Next = Done | Range(start: nat, end: nat, i: nat, j: nat)

  // ---------------------------------------------------------------- forwards

  /** The pairs from the cursor on. */
  ghost predicate Ahead(c: Cursor, i: int, j: int) {
    c.ia <= i && c.ib <= j
  }

  /** Every pair that was ahead of c is ahead of d too. */
  ghost predicate Skips(a: seq<Region>, b: seq<Region>, flags: Flags, c: Cursor, d: Cursor) {
    forall i, j :: Ahead(c, i, j) && Meets(a, b, flags, i, j) ==> Ahead(d, i, j)
  }

  /** __next_mem_range() returns the first pair from the cursor on and moves the cursor past it: no pair is skipped and none
      is met twice, and the pairs that remain lie higher. */
  ghost predicate Advances(a: seq<Region>, b: seq<Region>, flags: Flags, c: Cursor, d: Cursor, n: Next) {
    match n
    case Done => forall i, j :: Ahead(c, i, j) ==> !Meets(a, b, flags, i, j)
    case Range(start, end, pi, pj) =>
      && Meets(a, b, flags, pi, pj) && Ahead(c, pi, pj) && !Ahead(d, pi, pj)
      && start == From(a, b, pi, pj) && end == To(a, b, pi, pj)
      && c.ia <= d.ia <= |a| && c.ib <= d.ib <= |b| + 1 && c.ia + c.ib < d.ia + d.ib
      && (forall i, j :: Ahead(c, i, j) && Meets(a, b, flags, i, j) && (i != pi || j != pj) ==> Ahead(d, i, j))
      && forall i, j :: Ahead(d, i, j) && Meets(a, b, flags, i, j) ==> From(a, b, i, j) >= end
  }

  lemma SkipRegion(a: seq<Region>, b: seq<Region>, flags: Flags, c: Cursor)
    requires InOrder(a) && InOrder(b) && 0 <= c.ia < |a| && 0 <= c.ib
    requires !Wanted(a[c.ia].flags, flags) || c.ib > |b| || GapStart(b, c.ib) >= End(a[c.ia])
    ensures Skips(a, b, flags, c, Cursor(c.ia + 1, c.ib))
  {
    forall j | c.ib <= j && Meets(a, b, flags, c.ia, j)
      ensures false
    {
      if c.ib < j {
        GapOrder(b, c.ib, j);
      }
    }
  }

  lemma SkipGap(a: seq<Region>, b: seq<Region>, flags: Flags, c: Cursor)
    requires InOrder(a) && InOrder(b) && 0 <= c.ia < |a| && 0 <= c.ib <= |b| && a[c.ia].base >= GapEnd(b, c.ib)
    ensures Skips(a, b, flags, c, Cursor(c.ia, c.ib + 1))
  {
  }

  lemma TakePair(a: seq<Region>, b: seq<Region>, flags: Flags, c: Cursor)
    requires InOrder(a) && InOrder(b) && Meets(a, b, flags, c.ia, c.ib)
    ensures var d := if End(a[c.ia]) <= GapEnd(b, c.ib) then Cursor(c.ia + 1, c.ib) else Cursor(c.ia, c.ib + 1);
            Advances(a, b, flags, c, d, Range(From(a, b, c.ia, c.ib), To(a, b, c.ia, c.ib), c.ia, c.ib))
  {
    var d := if End(a[c.ia]) <= GapEnd(b, c.ib) then Cursor(c.ia + 1, c.ib) else Cursor(c.ia, c.ib + 1);
    forall i, j | Ahead(c, i, j) && Meets(a, b, flags, i, j)
      ensures (i == c.ia && j == c.ib) || (Ahead(d, i, j) && From(a, b, i, j) >= To(a, b, c.ia, c.ib))
    {
      if c.ib < j {
        GapOrder(b, c.ib, j);
      }
    }
  }

  lemma SkipsThen(a: seq<Region>, b: seq<Region>, flags: Flags, c: Cursor, m: Cursor, d: Cursor)
    requires Skips(a, b, flags, c, m) && Skips(a, b, flags, m, d)
    ensures Skips(a, b, flags, c, d)
  {
  }

  lemma SkipsThenAdvances(a: seq<Region>, b: seq<Region>, flags: Flags, c: Cursor, m: Cursor, d: Cursor, n: Next)
    requires Skips(a, b, flags, c, m) && Advances(a, b, flags, m, d, n) && c.ia <= m.ia && c.ib <= m.ib
    ensures Advances(a, b, flags, c, d, n)
  {
  }

  /** __next_mem_range(). */
  method NextMemRange(a: seq<Region>, b: seq<Region>, flags: Flags, c: Cursor) returns (n: Next, d: Cursor)
    requires InOrder(a) && InOrder(b) && 0 <= c.ia <= |a| && 0 <= c.ib <= |b| + 1
    ensures Advances(a, b, flags, c, d, n)
  {
    var ia, ib := c.ia, c.ib;
    while ia < |a|
      invariant c.ia <= ia <= |a| && c.ib <= ib <= |b| + 1
      invariant Skips(a, b, flags, c, Cursor(ia, ib))
    {
      if Wanted(a[ia].flags, flags) {
        var met;
        ghost var was := ib;
        met, ib := NextGap(a, b, flags, ia, ib);
        SkipsThen(a, b, flags, c, Cursor(ia, was), Cursor(ia, ib));
        if met {
          n := Range(From(a, b, ia, ib), To(a, b, ia, ib), ia, ib);
          d := if End(a[ia]) <= GapEnd(b, ib) then Cursor(ia + 1, ib) else Cursor(ia, ib + 1);
          TakePair(a, b, flags, Cursor(ia, ib));
          SkipsThenAdvances(a, b, flags, c, Cursor(ia, ib), d, n);
          return;
        }
      }
      SkipRegion(a, b, flags, Cursor(ia, ib));
      ia := ia + 1;
    }
    n, d := Done, c;
  }

  /** Its inner loop: the areas before each reservation, until one meets the region or lies above it. */
  method NextGap(a: seq<Region>, b: seq<Region>, flags: Flags, ia: nat, ib0: nat) returns (met: bool, ib: nat)
    requires InOrder(a) && InOrder(b) && ia < |a| && ib0 <= |b| + 1 && Wanted(a[ia].flags, flags)
    ensures ib0 <= ib <= |b| + 1 && Skips(a, b, flags, Cursor(ia, ib0), Cursor(ia, ib))
    ensures met ==> Meets(a, b, flags, ia, ib)
    ensures !met ==> ib > |b| || GapStart(b, ib) >= End(a[ia])
  {
    ib := ib0;
    while ib < |b| + 1 && GapStart(b, ib) < End(a[ia])
      invariant ib0 <= ib <= |b| + 1 && Skips(a, b, flags, Cursor(ia, ib0), Cursor(ia, ib))
    {
      if a[ia].base < GapEnd(b, ib) {
        return true, ib;
      }
      SkipGap(a, b, flags, Cursor(ia, ib));
      ib := ib + 1;
    }
    met := false;
  }

  // ---------------------------------------------------------------- backwards

  ghost predicate Behind(c: Cursor, i: int, j: int) {
    i <= c.ia && j <= c.ib
  }

  ghost predicate SkipsBack(a: seq<Region>, b: seq<Region>, flags: Flags, c: Cursor, d: Cursor) {
    forall i, j :: Behind(c, i, j) && Meets(a, b, flags, i, j) ==> Behind(d, i, j)
  }

  /** The same downwards: the last pair up to the cursor, and the pairs that remain lie lower. */
  ghost predicate Retreats(a: seq<Region>, b: seq<Region>, flags: Flags, c: Cursor, d: Cursor, n: Next) {
    match n
    case Done => forall i, j :: Behind(c, i, j) ==> !Meets(a, b, flags, i, j)
    case Range(start, end, pi, pj) =>
      && Meets(a, b, flags, pi, pj) && Behind(c, pi, pj) && !Behind(d, pi, pj)
      && start == From(a, b, pi, pj) && end == To(a, b, pi, pj)
      && -1 <= d.ia <= c.ia && -1 <= d.ib <= c.ib && d.ia + d.ib < c.ia + c.ib
      && (forall i, j :: Behind(c, i, j) && Meets(a, b, flags, i, j) && (i != pi || j != pj) ==> Behind(d, i, j))
      && forall i, j :: Behind(d, i, j) && Meets(a, b, flags, i, j) ==> To(a, b, i, j) <= start
  }

  lemma SkipRegionBack(a: seq<Region>, b: seq<Region>, flags: Flags, c: Cursor)
    requires InOrder(a) && InOrder(b) && 0 <= c.ia < |a| && c.ib <= |b|
    requires !Wanted(a[c.ia].flags, flags) || c.ib < 0 || GapEnd(b, c.ib) <= a[c.ia].base
    ensures SkipsBack(a, b, flags, c, Cursor(c.ia - 1, c.ib))
  {
    forall j | j <= c.ib && Meets(a, b, flags, c.ia, j)
      ensures false
    {
      if j < c.ib {
        GapOrder(b, j, c.ib);
      }
    }
  }

  lemma SkipGapBack(a: seq<Region>, b: seq<Region>, flags: Flags, c: Cursor)
    requires InOrder(a) && InOrder(b) && 0 <= c.ia < |a| && 0 <= c.ib <= |b| && End(a[c.ia]) <= GapStart(b, c.ib)
    ensures SkipsBack(a, b, flags, c, Cursor(c.ia, c.ib - 1))
  {
  }

  lemma TakePairBack(a: seq<Region>, b: seq<Region>, flags: Flags, c: Cursor)
    requires InOrder(a) && InOrder(b) && Meets(a, b, flags, c.ia, c.ib)
    ensures var d := if a[c.ia].base >= GapStart(b, c.ib) then Cursor(c.ia - 1, c.ib) else Cursor(c.ia, c.ib - 1);
            Retreats(a, b, flags, c, d, Range(From(a, b, c.ia, c.ib), To(a, b, c.ia, c.ib), c.ia, c.ib))
  {
    var d := if a[c.ia].base >= GapStart(b, c.ib) then Cursor(c.ia - 1, c.ib) else Cursor(c.ia, c.ib - 1);
    forall i, j | Behind(c, i, j) && Meets(a, b, flags, i, j)
      ensures (i == c.ia && j == c.ib) || (Behind(d, i, j) && To(a, b, i, j) <= From(a, b, c.ia, c.ib))
    {
      if j < c.ib {
        GapOrder(b, j, c.ib);
      }
    }
  }

  lemma SkipsBackThenRetreats(a: seq<Region>, b: seq<Region>, flags: Flags, c: Cursor, m: Cursor, d: Cursor, n: Next)
    requires SkipsBack(a, b, flags, c, m) && Retreats(a, b, flags, m, d, n) && m.ia <= c.ia && m.ib <= c.ib
    ensures Retreats(a, b, flags, c, d, n)
  {
  }

  /** __next_mem_range_rev(). */
  method NextMemRangeRev(a: seq<Region>, b: seq<Region>, flags: Flags, c: Cursor) returns (n: Next, d: Cursor)
    requires InOrder(a) && InOrder(b) && -1 <= c.ia < |a| && -1 <= c.ib <= |b|
    ensures Retreats(a, b, flags, c, d, n)
  {
    var ia, ib := c.ia, c.ib;
    while ia >= 0
      invariant -1 <= ia <= c.ia && -1 <= ib <= c.ib
      invariant SkipsBack(a, b, flags, c, Cursor(ia, ib))
    {
      if Wanted(a[ia].flags, flags) {
        var met;
        met, ib := NextGapRev(a, b, flags, ia, ib);
        if met {
          n := Range(From(a, b, ia, ib), To(a, b, ia, ib), ia, ib);
          d := if a[ia].base >= GapStart(b, ib) then Cursor(ia - 1, ib) else Cursor(ia, ib - 1);
          TakePairBack(a, b, flags, Cursor(ia, ib));
          SkipsBackThenRetreats(a, b, flags, c, Cursor(ia, ib), d, n);
          return;
        }
      }
      SkipRegionBack(a, b, flags, Cursor(ia, ib));
      ia := ia - 1;
    }
    n, d := Done, c;
  }

  method NextGapRev(a: seq<Region>, b: seq<Region>, flags: Flags, ia: nat, ib0: int) returns (met: bool, ib: int)
    requires InOrder(a) && InOrder(b) && ia < |a| && -1 <= ib0 <= |b| && Wanted(a[ia].flags, flags)
    ensures -1 <= ib <= ib0 && SkipsBack(a, b, flags, Cursor(ia, ib0), Cursor(ia, ib))
    ensures met ==> Meets(a, b, flags, ia, ib)
    ensures !met ==> ib < 0 || GapEnd(b, ib) <= a[ia].base
  {
    ib := ib0;
    while ib >= 0 && GapEnd(b, ib) > a[ia].base
      invariant -1 <= ib <= ib0 && SkipsBack(a, b, flags, Cursor(ia, ib0), Cursor(ia, ib))
    {
      if End(a[ia]) > GapStart(b, ib) {
        return true, ib;
      }
      SkipGapBack(a, b, flags, Cursor(ia, ib));
      ib := ib - 1;
    }
    met := false;
  }

  // ---------------------------------------------------------------- what the ranges are

  /** An address in memory of the wanted kind and not reserved. */
  ghost predicate IsFree(a: seq<Region>, b: seq<Region>, flags: Flags, x: nat) {
    && x < TOP && View(b, x) == Absent
    && View(a, x).Present? && Wanted(View(a, x).flags, flags)
  }

  lemma PairHolds(a: seq<Region>, b: seq<Region>, flags: Flags, i: nat, j: nat, x: nat)
    requires i < |a| && j <= |b| && a[i].base <= x < End(a[i]) && GapStart(b, j) <= x < GapEnd(b, j)
             && Wanted(a[i].flags, flags)
    ensures Meets(a, b, flags, i, j) && From(a, b, i, j) <= x < To(a, b, i, j)
  {
  }

  lemma FreeHasPair(a: seq<Region>, b: seq<Region>, flags: Flags, x: nat) returns (i: nat, j: nat)
    requires Good(a) && Good(b) && IsFree(a, b, flags, x)
    ensures Meets(a, b, flags, i, j) && From(a, b, i, j) <= x < To(a, b, i, j)
  {
    i := Holder(a, x);
    j := GapOf(b, x);
    PairHolds(a, b, flags, i, j, x);
  }

  /** The region that holds an address. */
  lemma {:induction false} Holder(rs: seq<Region>, x: nat) returns (i: nat)
    requires View(rs, x).Present?
    ensures i < |rs| && rs[i].base <= x < End(rs[i]) && View(rs, x) == Present(rs[i].flags)
  {
    if rs[0].base <= x < End(rs[0]) {
      i := 0;
    } else {
      var k := Holder(rs[1..], x);
      i := k + 1;
    }
  }

  /** The gap that holds an address that no region does. */
  lemma {:induction false} GapOf(b: seq<Region>, x: nat) returns (j: nat)
    requires View(b, x) == Absent && x < TOP
    ensures j <= |b| && GapStart(b, j) <= x < GapEnd(b, j)
  {
    if b == [] || x < b[0].base {
      j := 0;
    } else {
      var k := GapOf(b[1..], x);
      j := k + 1;
    }
  }

  lemma GapMisses(b: seq<Region>, j: int, x: nat)
    requires Good(b) && 0 <= j <= |b| && GapStart(b, j) <= x < GapEnd(b, j)
    ensures x < TOP && View(b, x) == Absent
  {
    GoodInOrder(b);
    forall k | 0 <= k < |b|
      ensures !(b[k].base <= x < End(b[k]))
    {
      if k + 1 < j {
        GapOrder(b, k + 1, j);
      } else if j < k {
        GapOrder(b, j, k);
      }
    }
    ViewMisses(b, x);
  }

  lemma PairIsFree(a: seq<Region>, b: seq<Region>, flags: Flags, i: int, j: int, x: nat)
    requires Good(a) && Good(b) && Meets(a, b, flags, i, j) && From(a, b, i, j) <= x < To(a, b, i, j)
    ensures IsFree(a, b, flags, x)
  {
    ViewHits(a, i, x);
    GapMisses(b, j, x);
  }

  /** A range does not end before it starts. It is empty only between two reservations that touch. */
  lemma PairIsRange(a: seq<Region>, b: seq<Region>, flags: Flags, i: int, j: int)
    requires InOrder(a) && InOrder(b) && Meets(a, b, flags, i, j)
    ensures From(a, b, i, j) <= To(a, b, i, j) <= TOP
    ensures GapStart(b, j) < GapEnd(b, j) && a[i].size > 0 ==> From(a, b, i, j) < To(a, b, i, j)
  {
    if j < |b| {
      GapOrder(b, j, |b|);
    } else if j > 0 {
      GapOrder(b, 0, j);
    }
  }

  /** Ranges in increasing order, apart from each other. */
  ghost predicate Rising(rs: seq<Next>) {
    && (forall k :: 0 <= k < |rs| ==> rs[k].Range?)
    && forall k, l :: 0 <= k < l < |rs| ==> rs[k].end <= rs[l].start
  }

  ghost predicate Covered(rs: seq<Next>, x: nat) {
    exists k :: 0 <= k < |rs| && rs[k].Range? && rs[k].start <= x < rs[k].end
  }

  ghost predicate Listed(out: seq<Next>, i: int, j: int) {
    exists k :: 0 <= k < |out| && out[k].Range? && out[k].i == i && out[k].j == j
  }

  /** The ranges collected so far: the pairs before the cursor, in order, all below the pairs still ahead. */
  ghost predicate Collected(a: seq<Region>, b: seq<Region>, flags: Flags, out: seq<Next>, c: Cursor) {
    && Rising(out)
    && (forall k :: 0 <= k < |out| ==> IsPair(a, b, flags, out[k]))
    && (forall i, j :: Meets(a, b, flags, i, j) && !Ahead(c, i, j) ==> Listed(out, i, j))
    && forall i, j, k :: Meets(a, b, flags, i, j) && Ahead(c, i, j) && 0 <= k < |out| ==> out[k].end <= From(a, b, i, j)
  }

  ghost predicate IsPair(a: seq<Region>, b: seq<Region>, flags: Flags, n: Next) {
    n.Range? && Meets(a, b, flags, n.i, n.j) && n.start == From(a, b, n.i, n.j) && n.end == To(a, b, n.i, n.j)
  }

  lemma CollectOne(a: seq<Region>, b: seq<Region>, flags: Flags, out: seq<Next>, c: Cursor, d: Cursor, n: Next)
    requires Collected(a, b, flags, out, c) && Advances(a, b, flags, c, d, n) && n.Range?
    ensures Collected(a, b, flags, out + [n], d)
  {
    var now := out + [n];
    assert now[|out|] == n;
    forall i, j | Meets(a, b, flags, i, j) && !Ahead(d, i, j)
      ensures Listed(now, i, j)
    {
      if i == n.i && j == n.j {
        assert now[|out|].i == i;
      } else {
        assert Listed(out, i, j);
        var k :| 0 <= k < |out| && out[k].Range? && out[k].i == i && out[k].j == j;
        assert now[k] == out[k];
      }
    }
  }

  lemma AllCollected(a: seq<Region>, b: seq<Region>, flags: Flags, out: seq<Next>, c: Cursor, x: nat)
    requires Good(a) && Good(b) && Collected(a, b, flags, out, c)
    requires forall i, j :: Ahead(c, i, j) ==> !Meets(a, b, flags, i, j)
    ensures Covered(out, x) <==> IsFree(a, b, flags, x)
  {
    if Covered(out, x) {
      var k :| 0 <= k < |out| && out[k].Range? && out[k].start <= x < out[k].end;
      PairIsFree(a, b, flags, out[k].i, out[k].j, x);
    }
    if IsFree(a, b, flags, x) {
      var i, j := FreeHasPair(a, b, flags, x);
      assert Listed(out, i, j);
    }
  }

  /** for_each_free_mem_range(): the ranges are exactly the free addresses, in order and disjoint. */
  method FreeRanges(a: seq<Region>, b: seq<Region>, flags: Flags) returns (out: seq<Next>)
    requires Good(a) && Good(b)
    ensures Rising(out)
    ensures forall x: nat :: Covered(out, x) <==> IsFree(a, b, flags, x)
  {
    GoodInOrder(a);
    GoodInOrder(b);
    out := [];
    var c := Cursor(0, 0);
    while true
      invariant 0 <= c.ia <= |a| && 0 <= c.ib <= |b| + 1
      invariant Collected(a, b, flags, out, c)
      decreases |a| + |b| + 1 - c.ia - c.ib
    {
      var n, d := NextMemRange(a, b, flags, c);
      if n == Done {
        break;
      }
      CollectOne(a, b, flags, out, c, d, n);
      out, c := out + [n], d;
    }
    forall x: nat
      ensures Covered(out, x) <==> IsFree(a, b, flags, x)
    {
      AllCollected(a, b, flags, out, c, x);
    }
  }

  /** for_each_free_mem_range_reverse(): the same ranges, from the highest to the lowest. */
  method FreeRangesRev(a: seq<Region>, b: seq<Region>, flags: Flags) returns (out: seq<Next>)
    requires Good(a) && Good(b)
    ensures Falling(out)
    ensures forall x: nat :: Covered(out, x) <==> IsFree(a, b, flags, x)
  {
    GoodInOrder(a);
    GoodInOrder(b);
    out := [];
    var c := Cursor(|a| - 1, |b|);
    while true
      invariant -1 <= c.ia < |a| && -1 <= c.ib <= |b|
      invariant CollectedBack(a, b, flags, out, c)
      decreases c.ia + c.ib + 2
    {
      var n, d := NextMemRangeRev(a, b, flags, c);
      if n == Done {
        break;
      }
      CollectOneBack(a, b, flags, out, c, d, n);
      out, c := out + [n], d;
    }
    forall x: nat
      ensures Covered(out, x) <==> IsFree(a, b, flags, x)
    {
      AllCollectedBack(a, b, flags, out, c, x);
    }
  }

  ghost predicate Falling(rs: seq<Next>) {
    && (forall k :: 0 <= k < |rs| ==> rs[k].Range?)
    && forall k, l :: 0 <= k < l < |rs| ==> rs[l].end <= rs[k].start
  }

  ghost predicate CollectedBack(a: seq<Region>, b: seq<Region>, flags: Flags, out: seq<Next>, c: Cursor) {
    && Falling(out)
    && (forall k :: 0 <= k < |out| ==> IsPair(a, b, flags, out[k]))
    && (forall i, j :: Meets(a, b, flags, i, j) && !Behind(c, i, j) ==> Listed(out, i, j))
    && forall i, j, k :: Meets(a, b, flags, i, j) && Behind(c, i, j) && 0 <= k < |out| ==> To(a, b, i, j) <= out[k].start
  }

  lemma CollectOneBack(a: seq<Region>, b: seq<Region>, flags: Flags, out: seq<Next>, c: Cursor, d: Cursor, n: Next)
    requires CollectedBack(a, b, flags, out, c) && Retreats(a, b, flags, c, d, n) && n.Range?
    ensures CollectedBack(a, b, flags, out + [n], d)
  {
    var now := out + [n];
    assert now[|out|] == n;
    forall i, j | Meets(a, b, flags, i, j) && !Behind(d, i, j)
      ensures Listed(now, i, j)
    {
      if i == n.i && j == n.j {
        assert now[|out|].i == i;
      } else {
        assert Listed(out, i, j);
        var k :| 0 <= k < |out| && out[k].Range? && out[k].i == i && out[k].j == j;
        assert now[k] == out[k];
      }
    }
  }

  lemma AllCollectedBack(a: seq<Region>, b: seq<Region>, flags: Flags, out: seq<Next>, c: Cursor, x: nat)
    requires Good(a) && Good(b) && CollectedBack(a, b, flags, out, c)
    requires forall i, j :: Behind(c, i, j) ==> !Meets(a, b, flags, i, j)
    ensures Covered(out, x) <==> IsFree(a, b, flags, x)
  {
    if Covered(out, x) {
      var k :| 0 <= k < |out| && out[k].Range? && out[k].start <= x < out[k].end;
      PairIsFree(a, b, flags, out[k].i, out[k].j, x);
    }
    if IsFree(a, b, flags, x) {
      var i, j := FreeHasPair(a, b, flags, x);
      assert Listed(out, i, j);
    }
  }
}
