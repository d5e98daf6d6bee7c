/** memblock's searches for a free area, and its allocations. */
module MemblockFind {
  import opened Align
  import opened MemblockRegions
  import opened MemblockType
  import opened MemblockRanges

  /** What is asked for: an aligned area of `size` bytes in [start, end), in memory of the wanted kind. */
  datatype Want = Want(start: nat, end: nat, size: nat, align: nat, flags: Flags)

  /** Alignments are powers of two, so they divide 2^64. */
  ghost predicate Proper(w: Want) {
    0 < w.start <= w.end <= TOP && 0 < w.align <= W && Aligned(W, w.align)
  }

  ghost predicate Placed(w: Want, x: nat)
    requires w.align > 0
  {
    Aligned(x, w.align) && w.start <= x && x + w.size <= w.end
  }

  /** The area at x lies in the range of the pair (i, j). */
  ghost predicate FitsIn(a: seq<Region>, b: seq<Region>, w: Want, x: nat, i: int, j: int)
    requires w.align > 0
  {
    && Placed(w, x) && Meets(a, b, w.flags, i, j)
    && From(a, b, i, j) <= x && x + w.size <= To(a, b, i, j)
  }

  ghost predicate Fits(a: seq<Region>, b: seq<Region>, w: Want, x: nat)
    requires w.align > 0
  {
    exists i, j :: FitsIn(a, b, w, x, i, j)
  }

  function Clamp(x: nat, lo: nat, hi: nat): nat {
    if (if x > lo then x else lo) < hi then (if x > lo then x else lo) else hi
  }

  /** What fits in the range of one pair, seen from below: the candidate is the lowest; near 2^64 the rounding wraps to 0, and
      then nothing at all lies above. */
  lemma LowestInPair(a: seq<Region>, b: seq<Region>, w: Want, i: int, j: int, cand: nat)
    requires Proper(w) && Meets(a, b, w.flags, i, j) && To(a, b, i, j) <= TOP && w.size > 0
    requires cand == AlignUp(Clamp(From(a, b, i, j), w.start, w.end), w.align)
    ensures var end := Clamp(To(a, b, i, j), w.start, w.end);
            && (cand < end && end - cand >= w.size && cand > 0 ==> FitsIn(a, b, w, cand, i, j))
            && (!(cand < end && end - cand >= w.size) || cand == 0 ==> forall x: nat :: !FitsIn(a, b, w, x, i, j))
            && (forall x: nat :: FitsIn(a, b, w, x, i, j) ==> cand <= x)
            && (cand == 0 ==> forall x: nat :: Placed(w, x) ==> x < From(a, b, i, j))
  {
    var s := Clamp(From(a, b, i, j), w.start, w.end);
    UpWraps(s, w.align);
    if s + w.align <= W {
      UpFacts(s, w.align);
    }
    forall x: nat | Placed(w, x) && From(a, b, i, j) <= x
      ensures s <= x && cand <= x && cand != 0
    {
      AlignedGap(x, W, w.align);
    }
  }

  /** And from above: the candidate is the highest. */
  lemma HighestInPair(a: seq<Region>, b: seq<Region>, w: Want, i: int, j: int)
    requires Proper(w) && Meets(a, b, w.flags, i, j) && To(a, b, i, j) <= TOP && w.size > 0
    ensures var start, end := Clamp(From(a, b, i, j), w.start, w.end), Clamp(To(a, b, i, j), w.start, w.end);
            if end >= w.size && AlignDown(end - w.size, w.align) >= start then
              FitsIn(a, b, w, AlignDown(end - w.size, w.align), i, j)
              && forall x: nat :: FitsIn(a, b, w, x, i, j) ==> x <= AlignDown(end - w.size, w.align)
            else forall x: nat :: !FitsIn(a, b, w, x, i, j)
  {
    var start, end := Clamp(From(a, b, i, j), w.start, w.end), Clamp(To(a, b, i, j), w.start, w.end);
    if end >= w.size {
      DownFacts(end - w.size, w.align);
    }
  }

  /** The lowest place for the area, 0 if there is none. */
  ghost predicate IsLowest(a: seq<Region>, b: seq<Region>, w: Want, r: nat)
    requires w.align > 0
  {
    if r == 0 then forall x: nat :: !Fits(a, b, w, x)
    else Fits(a, b, w, r) && forall x: nat :: Fits(a, b, w, x) ==> r <= x
  }

  ghost predicate IsHighest(a: seq<Region>, b: seq<Region>, w: Want, r: nat)
    requires w.align > 0
  {
    if r == 0 then forall x: nat :: !Fits(a, b, w, x)
    else Fits(a, b, w, r) && forall x: nat :: Fits(a, b, w, x) ==> x <= r
  }

  /** So far nothing fits but ahead of the cursor. */
  ghost predicate OnlyAhead(a: seq<Region>, b: seq<Region>, w: Want, c: Cursor)
    requires w.align > 0
  {
    forall x: nat, i, j :: FitsIn(a, b, w, x, i, j) ==> Ahead(c, i, j)
  }

  ghost predicate OnlyBehind(a: seq<Region>, b: seq<Region>, w: Want, c: Cursor)
    requires w.align > 0
  {
    forall x: nat, i, j :: FitsIn(a, b, w, x, i, j) ==> Behind(c, i, j)
  }

  lemma FoundLowest(a: seq<Region>, b: seq<Region>, w: Want, c: Cursor, d: Cursor, n: Next, r: nat)
    requires InOrder(a) && InOrder(b) && Proper(w) && w.size > 0 && OnlyAhead(a, b, w, c) && n.Range?
             && Advances(a, b, w.flags, c, d, n)
    requires r > 0 ==> FitsIn(a, b, w, r, n.i, n.j) && forall x: nat :: FitsIn(a, b, w, x, n.i, n.j) ==> r <= x
    requires r == 0 ==> forall x: nat :: Placed(w, x) ==> x < n.start
    ensures IsLowest(a, b, w, r)
  {
    PairIsRange(a, b, w.flags, n.i, n.j);
    forall x: nat, i, j | FitsIn(a, b, w, x, i, j)
      ensures r > 0 && r <= x
    {
      assert Ahead(c, i, j);
      if i != n.i || j != n.j {
        assert From(a, b, i, j) >= n.end;
      }
    }
    if r > 0 {
      assert Fits(a, b, w, r);
    }
  }

  lemma FoundHighest(a: seq<Region>, b: seq<Region>, w: Want, c: Cursor, d: Cursor, n: Next, r: nat)
    requires Proper(w) && w.size > 0 && OnlyBehind(a, b, w, c) && n.Range? && Retreats(a, b, w.flags, c, d, n) && r > 0
    requires FitsIn(a, b, w, r, n.i, n.j) && forall x: nat :: FitsIn(a, b, w, x, n.i, n.j) ==> x <= r
    ensures IsHighest(a, b, w, r)
  {
    forall x: nat, i, j | FitsIn(a, b, w, x, i, j)
      ensures x <= r
    {
      assert Behind(c, i, j);
      if i != n.i || j != n.j {
        assert To(a, b, i, j) <= n.start;
      }
    }
    assert Fits(a, b, w, r);
  }

  /** __memblock_find_range_bottom_up(). */
  method FindBottomUp(a: seq<Region>, b: seq<Region>, w: Want) returns (r: nat)
    requires InOrder(a) && InOrder(b) && Proper(w)
    ensures r != 0 ==> Placed(w, r)
    ensures w.size > 0 ==> IsLowest(a, b, w, r)
  {
    var c := Cursor(0, 0);
    while true
      invariant 0 <= c.ia <= |a| && 0 <= c.ib <= |b| + 1
      invariant w.size > 0 ==> OnlyAhead(a, b, w, c)
      decreases |a| + |b| + 1 - c.ia - c.ib
    {
      var n, d := NextMemRange(a, b, w.flags, c);
      if n == Done {
        return 0;
      }
      var start, end := Clamp(n.start, w.start, w.end), Clamp(n.end, w.start, w.end);
      var cand := AlignUp(start, w.align);
      if w.size > 0 {
        LowestInPair(a, b, w, n.i, n.j, cand);
      }
      if cand < end && end - cand >= w.size {
        if w.size > 0 {
          FoundLowest(a, b, w, c, d, n, cand);
        }
        CandPlaced(w, start, end, cand);
        return cand;
      }
      c := d;
    }
    r := 0;
  }

  lemma CandPlaced(w: Want, start: nat, end: nat, cand: nat)
    requires Proper(w) && w.start <= start <= w.end && cand == AlignUp(start, w.align) && cand < end <= w.end
             && end - cand >= w.size
    ensures cand != 0 ==> Placed(w, cand)
  {
    UpWraps(start, w.align);
    if start + w.align <= W {
      UpFacts(start, w.align);
    }
  }

  /** __memblock_find_range_top_down(). */
  method FindTopDown(a: seq<Region>, b: seq<Region>, w: Want) returns (r: nat)
    requires InOrder(a) && InOrder(b) && Proper(w)
    ensures r != 0 ==> Placed(w, r)
    ensures w.size > 0 ==> IsHighest(a, b, w, r)
  {
    var c := Cursor(|a| - 1, |b|);
    while true
      invariant -1 <= c.ia < |a| && -1 <= c.ib <= |b|
      invariant w.size > 0 ==> OnlyBehind(a, b, w, c)
      decreases c.ia + c.ib + 2
    {
      var n, d := NextMemRangeRev(a, b, w.flags, c);
      if n == Done {
        return 0;
      }
      var start, end := Clamp(n.start, w.start, w.end), Clamp(n.end, w.start, w.end);
      if w.size > 0 {
        HighestInPair(a, b, w, n.i, n.j);
      }
      if end >= w.size {
        var cand := AlignDown(end - w.size, w.align);
        DownFacts(end - w.size, w.align);
        if cand >= start {
          if w.size > 0 {
            FoundHighest(a, b, w, c, d, n, cand);
          }
          return cand;
        }
      }
      c := d;
    }
    r := 0;
  }

  /** What a search found is free memory. */
  lemma FitIsFree(a: seq<Region>, b: seq<Region>, w: Want, r: nat, x: nat)
    requires Good(a) && Good(b) && w.align > 0 && Fits(a, b, w, r) && r <= x < r + w.size
    ensures IsFree(a, b, w.flags, x)
  {
    var i, j :| FitsIn(a, b, w, r, i, j);
    PairIsFree(a, b, w.flags, i, j, x);
  }

  ghost predicate AllFree(a: seq<Region>, b: seq<Region>, flags: Flags, lo: nat, hi: nat) {
    forall x: nat :: lo <= x < hi ==> IsFree(a, b, flags, x)
  }

  lemma AreaIsFree(a: seq<Region>, b: seq<Region>, w: Want, r: nat)
    requires Good(a) && Good(b) && w.align > 0 && (w.size > 0 ==> Fits(a, b, w, r))
    ensures AllFree(a, b, w.flags, r, r + w.size)
  {
    forall x: nat | r <= x < r + w.size
      ensures IsFree(a, b, w.flags, x)
    {
      FitIsFree(a, b, w, r, x);
    }
  }

  /** Reserving some place for the area would take more regions than there is room for. */
  ghost predicate TooMany(b: seq<Region>, w: Want, room: nat)
    requires w.align > 0
  {
    exists x: nat :: Placed(w, x) && |Added(b, x, x + w.size, {})| > room
  }

  lemma TooManyAt(b: seq<Region>, w: Want, x: nat, room: nat)
    requires w.align > 0 && Placed(w, x) && |Added(b, x, x + w.size, {})| > room
    ensures TooMany(b, w, room)
  {
  }

  lemma CapFits(base: nat, size: nat)
    requires base + size <= TOP
    ensures Cap(base, size) == base + size
  {
  }

  ghost predicate NothingFits(a: seq<Region>, b: seq<Region>, w: Want)
    requires w.align > 0
  {
    forall x: nat :: !Fits(a, b, w, x)
  }

  /** The area at r was within its bounds, in wanted memory and not reserved, and was then reserved. */
  ghost predicate Allocated(a: seq<Region>, b: seq<Region>, now: seq<Region>, w: Want, r: nat)
    requires w.align > 0
  {
    Placed(w, r) && AllFree(a, b, w.flags, r, r + w.size) && IsUnion(b, now, r, r + w.size, {})
  }

  /** The same request, but above the kernel. */
  function AboveKernel(w: Want, kernelEnd: nat): Want {
    w.(start := if w.start > kernelEnd then w.start else kernelEnd)
  }

  /** Which place is chosen: bottom-up, the lowest above the kernel if there is one; otherwise the highest. */
  ghost predicate Chosen(a: seq<Region>, b: seq<Region>, w: Want, up: bool, kernelEnd: nat, r: nat)
    requires w.align > 0
  {
    if up && r != 0 && IsLowest(a, b, AboveKernel(w, kernelEnd), r) then true
    else IsHighest(a, b, w, r) && (up ==> IsLowest(a, b, AboveKernel(w, kernelEnd), 0))
  }

  class Memblock {
    const memory: RegionArray
    const reserved: RegionArray
    var bottomUp: bool
    var currentLimit: nat

    ghost predicate Valid()
      reads this, memory, reserved
    {
      memory != reserved && memory.Valid() && reserved.Valid() && currentLimit <= TOP
    }

    constructor (maxMemory: nat, maxReserved: nat)
      requires maxMemory > 0 && maxReserved > 0
      ensures Valid() && fresh(memory) && fresh(reserved)
    {
      memory := new RegionArray(maxMemory);
      reserved := new RegionArray(maxReserved);
      bottomUp, currentLimit := false, TOP;
    }

    /** The bounds that __memblock_find_in_range() searches: never the first page. */
    function Bounds(size: nat, align: nat, start: nat, end: nat, flags: Flags, pageSize: nat): Want
      reads this
    {
      var lo := if start > pageSize then start else pageSize;
      var hi := if end == 0 then currentLimit else end;
      Want(lo, if hi > lo then hi else lo, size, align, flags)
    }

    /** __memblock_find_in_range(): bottom-up above the kernel when asked for, otherwise or then top-down. It fails only if
        nothing fits. */
    method FindInRange(size: nat, align: nat, start: nat, end: nat, flags: Flags, pageSize: nat, kernelEnd: nat)
      returns (r: nat)
      requires Valid() && 0 < pageSize <= TOP && start <= TOP && end <= TOP && kernelEnd <= TOP
      requires 0 < align <= W && Aligned(W, align)
      ensures var w := Bounds(size, align, start, end, flags, pageSize);
              && (r != 0 ==> Placed(w, r))
              && (size > 0 ==> (r == 0 <==> NothingFits(memory.regions, reserved.regions, w)))
              && (size > 0 && r != 0 ==> Fits(memory.regions, reserved.regions, w, r))
              && (size > 0 ==> Chosen(memory.regions, reserved.regions, w, bottomUp && w.end > kernelEnd, kernelEnd, r))
    {
      GoodInOrder(memory.regions);
      GoodInOrder(reserved.regions);
      var w := Bounds(size, align, start, end, flags, pageSize);
      if bottomUp && w.end > kernelEnd {
        var above := AboveKernel(w, kernelEnd);
        r := FindBottomUp(memory.regions, reserved.regions, above);
        if r != 0 {
          FitsWider(memory.regions, reserved.regions, above, w, r);
          return;
        }
      }
      r := FindTopDown(memory.regions, reserved.regions, w);
    }

    /** memblock_reserve() of the place found. */
    method Reserve(found: nat, size: nat, doublings: nat) returns (ok: bool)
      requires Valid() && found + size <= TOP
      modifies reserved
      ensures Valid()
      ensures ok ==> IsUnion(old(reserved.regions), reserved.regions, found, found + size, {})
      ensures !ok ==> reserved.regions == old(reserved.regions)
      ensures !ok ==> |Added(reserved.regions, found, found + size, {})| > Doubled(old(reserved.max), doublings)
    {
      CapFits(found, size);
      var status := reserved.AddRange(found, size, {}, doublings);
      ok := status == Ok;
    }

    method ReserveFor(w: Want, found: nat, doublings: nat) returns (ok: bool)
      requires Valid() && w.align > 0 && w.end <= TOP && Placed(w, found)
      modifies reserved
      ensures Valid()
      ensures ok ==> IsUnion(old(reserved.regions), reserved.regions, found, found + w.size, {})
      ensures !ok ==> reserved.regions == old(reserved.regions)
      ensures !ok ==> TooMany(reserved.regions, w, Doubled(old(reserved.max), doublings))
    {
      ok := Reserve(found, w.size, doublings);
      if !ok { TooManyAt(reserved.regions, w, found, Doubled(old(reserved.max), doublings)); }
    }

    /** __memblock_alloc_range(): the area was free memory, and now it is reserved; nothing else changed. It fails only if nothing
        fits or the place found cannot be recorded. */
    method AllocRange(size: nat, align0: nat, start: nat, end: nat, flags: Flags, pageSize: nat, kernelEnd: nat,
        cacheLine: nat, doublings: nat)
      returns (r: nat)
      requires Valid() && 0 < pageSize <= TOP && start <= TOP && end <= TOP && kernelEnd <= TOP
      requires align0 <= W && 0 < cacheLine <= W && Aligned(W, cacheLine) && (align0 > 0 ==> Aligned(W, align0))
      modifies reserved
      ensures Valid()
      ensures var w := Bounds(size, if align0 == 0 then cacheLine else align0, start, end, flags, pageSize);
              if r != 0 then Allocated(memory.regions, old(reserved.regions), reserved.regions, w, r)
              else
                && reserved.regions == old(reserved.regions)
                && (size > 0 ==> NothingFits(memory.regions, reserved.regions, w) || TooMany(reserved.regions, w,
                    Doubled(old(reserved.max), doublings)))
    {
      var align := if align0 == 0 then cacheLine else align0;
      var w := Bounds(size, align, start, end, flags, pageSize);
      r := FindInRange(size, align, start, end, flags, pageSize, kernelEnd);
      if r == 0 {
        return;
      }
      AreaIsFree(memory.regions, reserved.regions, w, r);
      var ok := ReserveFor(w, r, doublings);
      r := if ok then r else 0;
    }
  }

  lemma FitsWider(a: seq<Region>, b: seq<Region>, v: Want, w: Want, r: nat)
    requires v.align > 0 && w.start <= v.start && v == w.(start := v.start)
    ensures Fits(a, b, v, r) ==> Fits(a, b, w, r)
    ensures Placed(v, r) ==> Placed(w, r)
  {
    if Fits(a, b, v, r) {
      var i, j :| FitsIn(a, b, v, r, i, j);
      assert FitsIn(a, b, w, r, i, j);
    }
  }
}
