/** pcpu_get_vm_areas: several areas at fixed distances from one base, found by one scan from the top. */
module VmallocPcpu {
  import opened Align
  import opened Vmalloc

  /** What the caller asks for: aligned, non-empty, disjoint areas at these offsets. */
  datatype Request = Request(offsets: seq<nat>, sizes: seq<nat>, align: nat) {
    function Nr(): nat { |offsets| }

    function End(i: nat): nat
      requires i < |offsets| && i < |sizes|
    {
      offsets[i] + sizes[i]
    }

    predicate Proper() {
      && |offsets| == |sizes| > 0 && align > 0
      && (forall i :: 0 <= i < Nr() ==> Aligned(offsets[i], align) && Aligned(sizes[i], align) && sizes[i] > 0 && End(i) < W)
      && (forall i, j :: 0 <= i < j < Nr() ==> Apart(i, j))
    }

    predicate Apart(i: nat, j: nat)
      requires i < |offsets| == |sizes| && j < |offsets|
    {
      End(i) <= offsets[j] || End(j) <= offsets[i]
    }
  }

  predicate FitsAt(areas: seq<Area>, q: Request, i: nat, base: int)
    requires q.Proper() && i < q.Nr()
  {
    Clear(areas, base + q.offsets[i], base + q.End(i))
  }

  predicate FitsAll(areas: seq<Area>, q: Request, base: int)
    requires q.Proper()
  {
    forall i :: 0 <= i < q.Nr() ==> FitsAt(areas, q, i, base)
  }

  /** The area with the highest address. */
  method LastArea(offsets: seq<nat>) returns (last: nat)
    requires |offsets| > 0
    ensures last < |offsets| && forall i :: 0 <= i < |offsets| ==> offsets[i] <= offsets[last]
  {
    last := 0;
    var area := 0;
    while area < |offsets|
      invariant area <= |offsets| && last < |offsets|
      invariant forall i :: 0 <= i < area ==> offsets[i] <= offsets[last]
    {
      if offsets[area] > offsets[last] { last := area; }
      area := area + 1;
    }
  }

  /** Since the areas are disjoint and not empty, the one with the highest start also ends last. */
  lemma LastEndsLast(q: Request, last: nat, i: nat)
    requires q.Proper() && last < q.Nr() && i < q.Nr() && q.offsets[i] <= q.offsets[last]
    ensures q.End(i) <= q.End(last)
  {
    assert i < last ==> q.Apart(i, last);
    assert last < i ==> q.Apart(last, i);
  }

  /** pvm_determine_end: the highest aligned address below area k and below vmalloc_end, and the position it falls at. */
  method DetermineEnd(areas: seq<Area>, k0: nat, align: nat, vend: nat) returns (addr: nat, k: nat)
    requires Sorted(areas) && k0 <= |areas| && align > 0 && Aligned(vend, align)
    ensures addr == EndBelow(areas, k0, align, vend)
    ensures k <= k0 && (k > 0 ==> areas[k - 1].end <= addr) && (k < |areas| ==> areas[k].end > addr)
  {
    addr := EndBelow(areas, k0, align, vend);
    k := k0;
    if k0 < |areas| { DownFacts(areas[k0].start, align); }
    while k > 0 && areas[k - 1].end > addr
      invariant k <= k0 && (k < |areas| ==> areas[k].end > addr)
    {
      k := k - 1;
    }
  }

  function EndBelow(areas: seq<Area>, k: nat, align: nat, vend: nat): nat
    requires k <= |areas| && align > 0
  {
    if k < |areas| && AlignDown(areas[k].start, align) < vend then AlignDown(areas[k].start, align) else vend
  }

  lemma EndBelowFacts(areas: seq<Area>, k: nat, align: nat, vend: nat)
    requires k <= |areas| && align > 0 && Aligned(vend, align)
    ensures Aligned(EndBelow(areas, k, align, vend), align) && EndBelow(areas, k, align, vend) <= vend
    ensures k < |areas| ==> EndBelow(areas, k, align, vend) <= areas[k].start
  {
    if k < |areas| { DownFacts(areas[k].start, align); }
  }

  /** 64-bit subtraction. */
  function Sub(a: nat, b: nat): nat
    requires a < W && b < W
  {
    if a >= b then a - b else a + W - b
  }

  function Add(a: nat, b: nat): nat {
    (a + b) % W
  }

  /** The 64-bit form of a base that may have gone below zero. */
  function Wrapped(base: int): nat
    requires -W < base < W
  {
    if base < 0 then base + W else base
  }

  /** "base might have underflowed, add last_end before comparing": the comparison sees exactly whether the true base is
      below the range, and adding the end of the area gives back the true end. */
  lemma UnderflowSeen(base: int, end: nat, lastEnd: nat, vstart: nat)
    requires -W < base < W && 0 <= base + end && end <= lastEnd && vstart + lastEnd < W && base + lastEnd < W
    ensures Add(Wrapped(base), lastEnd) < vstart + lastEnd <==> base < vstart
    ensures Add(Wrapped(base), end) == base + end
  {
    if base >= 0 {
      ModUnique(base + lastEnd, W, 0, base + lastEnd);
      ModUnique(base + end, W, 0, base + end);
    } else {
      ModUnique(base + W + lastEnd, W, 1, base + lastEnd);
      ModUnique(base + W + end, W, 1, base + end);
    }
  }

  /** Lowering the base past an area that is in the way: every aligned base in between meets it. */
  lemma NoBaseBetween(areas: seq<Area>, q: Request, area: nat, k: nat, base: int, vend: nat, b: int)
    requires Sorted(areas) && q.Proper() && area < q.Nr() && k < |areas| && Aligned(vend, q.align)
    requires areas[k].start < base + q.End(area) <= vend && areas[k].end > base + q.offsets[area]
    requires EndBelow(areas, k, q.align, vend) < b + q.End(area) && b <= base && Aligned(b, q.align) && b >= 0
    ensures !FitsAll(areas, q, b)
  {
    DownFacts(areas[k].start, q.align);
    Combine(q.offsets[area], q.sizes[area], q.align);
    Combine(b, q.End(area), q.align);
    assert areas[k].start < b + q.End(area);
    assert !FitsAt(areas, q, area, b);
  }

  /** The bounds of the scan, and what holds of a candidate base throughout: `top` is the base it started from. */
  datatype Range = Range(vstart: nat, vend: nat, lastEnd: nat)

  ghost predicate Bounds(q: Request, r: Range) {
    && q.Proper() && r.vstart <= r.vend < W && Aligned(r.vend, q.align) && r.vstart + r.lastEnd <= r.vend
    && (forall i :: 0 <= i < q.Nr() ==> q.End(i) <= r.lastEnd)
  }

  /** No aligned base above `base`, up to `top`, fits. */
  ghost predicate NoneAbove(areas: seq<Area>, q: Request, base: int, top: int)
    requires q.Proper()
  {
    forall b: nat :: base < b <= top && Aligned(b, q.align) ==> !FitsAll(areas, q, b)
  }

  /** The scan looks at `area` with base `base`; area k of the tree is `next`. */
  ghost predicate Scanning(areas: seq<Area>, q: Request, r: Range, top: int, base: int, area: nat, k: nat) {
    && Bounds(q, r) && Sorted(areas) && area < q.Nr() && k <= |areas| && base <= top
    && Aligned(base, q.align) && base + r.lastEnd <= r.vend && base + q.End(area) >= 0
    && (k < |areas| ==> areas[k].end > base + q.End(area))
    && (k > 0 ==> areas[k - 1].end <= base + q.End(area))
    && NoneAbove(areas, q, base, top)
  }

  lemma LowerNoneAbove(areas: seq<Area>, q: Request, r: Range, area: nat, k: nat, base: int, top: int)
    requires Bounds(q, r) && Sorted(areas) && area < q.Nr() && k < |areas| && NoneAbove(areas, q, base, top)
    requires areas[k].start < base + q.End(area) <= r.vend && areas[k].end > base + q.offsets[area]
    ensures NoneAbove(areas, q, EndBelow(areas, k, q.align, r.vend) - q.End(area), top)
  {
    var lower := EndBelow(areas, k, q.align, r.vend) - q.End(area);
    forall b: nat | lower < b <= top && Aligned(b, q.align)
      ensures !FitsAll(areas, q, b)
    {
      if b <= base {
        NoBaseBetween(areas, q, area, k, base, r.vend, b);
      }
    }
  }

  /** Both ways of pulling the base down: below `next` when it overlaps, below `prev` when that does. */
  method PullDown(areas: seq<Area>, q: Request, r: Range, ghost top: int, ghost base: int, area: nat, k: nat)
    returns (d: nat, k': nat)
    requires Bounds(q, r) && Sorted(areas) && area < q.Nr() && k < |areas| && NoneAbove(areas, q, base, top)
    requires base <= top && base + r.lastEnd <= r.vend
    requires areas[k].start < base + q.End(area) && areas[k].end > base + q.offsets[area]
    ensures d < W && d - q.End(area) < base
    ensures Scanning(areas, q, r, top, d - q.End(area), area, k')
  {
    d, k' := DetermineEnd(areas, k, q.align, r.vend);
    EndBelowFacts(areas, k, q.align, r.vend);
    LowerNoneAbove(areas, q, r, area, k, base, top);
    Combine(q.offsets[area], q.sizes[area], q.align);
    Combine(d, q.End(area), q.align);
  }

  /** The area looked at after `done` areas have fitted, counting down and around from `term`. */
  function Turn(term: nat, done: nat, nr: nat): nat
    requires term < nr && done <= nr
  {
    if done <= term then term - done else term + nr - done
  }

  /** Everything since `term` fits at this base. */
  ghost predicate Fitted(areas: seq<Area>, q: Request, term: nat, done: nat, base: int)
    requires q.Proper() && term < q.Nr() && done <= q.Nr()
  {
    forall j :: 0 <= j < done ==> FitsAt(areas, q, Turn(term, j, q.Nr()), base)
  }

  lemma FittedRound(areas: seq<Area>, q: Request, term: nat, base: int)
    requires q.Proper() && term < q.Nr() && Fitted(areas, q, term, q.Nr(), base)
    ensures FitsAll(areas, q, base)
  {
    forall i | 0 <= i < q.Nr()
      ensures FitsAt(areas, q, i, base)
    {
      var j := if i <= term then term - i else term + q.Nr() - i;
      assert Turn(term, j, q.Nr()) == i;
    }
  }

  lemma ThisAreaFits(areas: seq<Area>, q: Request, area: nat, k: nat, base: int)
    requires Sorted(areas) && q.Proper() && area < q.Nr() && k <= |areas|
    requires k < |areas| ==> areas[k].start >= base + q.End(area)
    requires k > 0 ==> areas[k - 1].end <= base + q.offsets[area]
    ensures FitsAt(areas, q, area, base)
  {
    forall i | 0 <= i < |areas|
      ensures areas[i].end <= base + q.offsets[area] || base + q.End(area) <= areas[i].start
    {
      if i < k {
        assert i < k - 1 ==> areas[i].end <= areas[k - 1].start;
      } else {
        assert k < i ==> areas[k].end <= areas[i].start;
      }
    }
  }

  /** area = (area + nr_vms - 1) % nr_vms */
  function Previous(area: nat, nr: nat): nat
    requires nr > 0
  {
    (area + nr - 1) % nr
  }

  lemma NextTurn(area: nat, term: nat, done: nat, nr: nat)
    requires term < nr && done < nr && area == Turn(term, done, nr)
    ensures Previous(area, nr) == Turn(term, done + 1, nr) < nr
    ensures Previous(area, nr) == term <==> done + 1 == nr
  {
    if area == 0 {
      ModUnique(nr - 1, nr, 0, nr - 1);
    } else {
      ModUnique(area + nr - 1, nr, 1, area - 1);
    }
  }

  lemma OneMoreFits(areas: seq<Area>, q: Request, term: nat, done: nat, base: int)
    requires q.Proper() && term < q.Nr() && done < q.Nr() && Fitted(areas, q, term, done, base)
    requires FitsAt(areas, q, Turn(term, done, q.Nr()), base)
    ensures Fitted(areas, q, term, done + 1, base)
  {
  }

  /** The same base, another area: the neighbours of its end. */
  lemma ScanOther(areas: seq<Area>, q: Request, r: Range, top: int, base: int, area: nat, k: nat, other: nat, k': nat)
    requires Scanning(areas, q, r, top, base, area, k) && base >= 0 && other < q.Nr() && k' <= |areas|
    requires (k' < |areas| ==> areas[k'].end > base + q.End(other)) && (k' > 0 ==> areas[k' - 1].end <= base + q.End(other))
    ensures Scanning(areas, q, r, top, base, other, k')
  {
  }

  method StartScan(areas: seq<Area>, q: Request, r: Range, last: nat, hole: nat)
    returns (base: nat, k: nat, ghost top: int, ghost k0: nat)
    requires Bounds(q, r) && Sorted(areas) && last < q.Nr() && r.lastEnd == q.End(last)
    ensures k0 <= |areas| && (k0 < |areas| ==> areas[k0].end > hole) && (k0 > 0 ==> areas[k0 - 1].end <= hole)
    ensures top == EndBelow(areas, k0, q.align, r.vend) - r.lastEnd && -W < top < W && base == Wrapped(top)
    ensures Scanning(areas, q, r, top, top, last, k)
  {
    k := FindNextPrev(areas, hole);
    k0 := k;
    var d;
    d, k := DetermineEnd(areas, k, q.align, r.vend);
    EndBelowFacts(areas, k0, q.align, r.vend);
    Combine(q.offsets[last], q.sizes[last], q.align);
    Combine(d, q.End(last), q.align);
    base := Sub(d, q.End(last));
    top := d - q.End(last);
  }

  /** The scan. It ends at the highest aligned base, from where it starts downwards, at which every area fits; it fails
      only if there is none inside the range. Its two BUG_ONs do not fire. */
  method Scan(areas: seq<Area>, q: Request, r: Range, last: nat, hole: nat)
    returns (res: Option<nat>, ghost top: int, ghost k0: nat)
    requires Bounds(q, r) && Sorted(areas) && last < q.Nr() && r.lastEnd == q.End(last)
    ensures k0 <= |areas| && (k0 < |areas| ==> areas[k0].end > hole) && (k0 > 0 ==> areas[k0 - 1].end <= hole)
    ensures top == EndBelow(areas, k0, q.align, r.vend) - r.lastEnd
    ensures res.Some? ==> Placed(areas, q, r, top, res.value)
    ensures res.None? ==> NoneAbove(areas, q, r.vstart - 1, top)
  {
    var base: nat, k: nat, verdict := 0, 0, Going;
    base, k, top, k0 := StartScan(areas, q, r, last, hole);
    var area: nat, term: nat := last, last;
    ghost var tb: int, done: nat := top, 0;
    while verdict.Going?
      invariant verdict.Going? ==> InScan(areas, q, r, top, tb, base, area, k, term, done)
      invariant verdict.Below? ==> NoneAbove(areas, q, r.vstart - 1, top)
      invariant verdict.Round? ==> Placed(areas, q, r, top, base)
      decreases verdict.Going?, tb + W, q.Nr() - done
    {
      verdict, base, area, k, term, tb, done := OneTurn(areas, q, r, top, tb, base, area, k, term, done);
    }
    res := if verdict.Below? then None else Some(base);
  }

  /** Everything fits at this base, inside the range, and at no higher aligned base up to `top`. */
  ghost predicate Placed(areas: seq<Area>, q: Request, r: Range, top: int, base: nat)
    requires q.Proper()
  {
    FitsAll(areas, q, base) && Aligned(base, q.align) && r.vstart <= base <= r.vend - r.lastEnd
        && base <= top && NoneAbove(areas, q, base, top)
  }

  datatype Verdict = Going | Below | Round

  method OneTurn(areas: seq<Area>, q: Request, r: Range, ghost top: int, ghost tb: int, base: nat, area: nat, k: nat,
      term: nat, ghost done: nat)
    returns (v: Verdict, base': nat, area': nat, k': nat, term': nat, ghost tb': int, ghost done': nat)
    requires InScan(areas, q, r, top, tb, base, area, k, term, done)
    ensures v.Going? ==> InScan(areas, q, r, top, tb', base', area', k', term', done')
    ensures v.Going? ==> (tb' < tb || (tb' == tb && done' > done))
    ensures v.Below? ==> NoneAbove(areas, q, r.vstart - 1, top)
    ensures v.Round? ==> Placed(areas, q, r, top, base')
  {
    v, base', area', k', term', tb', done' := Going, base, area, k, term, tb, done;
    var look := LookAt(areas, q, r, top, tb, base, area, k);
    if look.BelowRange? {
      v := Below;
    } else if look.Pulled? {
      k', base', tb', term', done' := look.k, Sub(look.d, q.End(area)), look.d - q.End(area), area, 0;
    } else {
      var round;
      area', k', round := MoveOn(areas, q, r, top, tb, base, area, k, term, done);
      if round { v := Round; } else { done' := done + 1; }
    }
  }

  ghost predicate InScan(areas: seq<Area>, q: Request, r: Range, top: int, tb: int, base: nat, area: nat, k: nat,
      term: nat, done: nat) {
    && Scanning(areas, q, r, top, tb, area, k) && -W < tb && base == Wrapped(tb)
    && term < q.Nr() && done < q.Nr() && area == Turn(term, done, q.Nr()) && Fitted(areas, q, term, done, tb)
  }

  /** "This area fits, move on to the previous one. If the previous one is the terminal one, we're done." */
  method MoveOn(areas: seq<Area>, q: Request, r: Range, ghost top: int, ghost tb: int, base: nat, area: nat, k: nat,
      term: nat, ghost done: nat)
    returns (area': nat, k': nat, round: bool)
    requires Scanning(areas, q, r, top, tb, area, k) && 0 <= tb == base
    requires term < q.Nr() && done < q.Nr() && area == Turn(term, done, q.Nr()) && Fitted(areas, q, term, done, tb)
    requires FitsAt(areas, q, area, tb)
    ensures round ==> FitsAll(areas, q, tb)
    ensures !round ==> done + 1 < q.Nr() && area' == Turn(term, done + 1, q.Nr()) && Fitted(areas, q, term, done + 1, tb)
    ensures !round ==> Scanning(areas, q, r, top, tb, area', k')
  {
    OneMoreFits(areas, q, term, done, tb);
    NextTurn(area, term, done, q.Nr());
    area', k', round := Previous(area, q.Nr()), k, false;
    if area' == term {
      FittedRound(areas, q, term, tb);
      round := true;
    } else {
      k' := FindNextPrev(areas, base + q.End(area'));
      ScanOther(areas, q, r, top, tb, area, k, area', k');
    }
  }

  /** What one turn of the loop finds: the base is below the range, an area in the way pulled it down, or this area fits. */
  datatype Look = BelowRange | Pulled(d: nat, k: nat) | Fits

  method LookAt(areas: seq<Area>, q: Request, r: Range, ghost top: int, ghost tb: int, base: nat, area: nat, k: nat)
    returns (look: Look)
    requires Scanning(areas, q, r, top, tb, area, k) && -W < tb && base == Wrapped(tb)
    ensures look.BelowRange? <==> tb < r.vstart
    ensures look.Pulled? ==> look.d < W && look.d - q.End(area) < tb
    ensures look.Pulled? ==> Scanning(areas, q, r, top, look.d - q.End(area), area, look.k)
    ensures look.Fits? ==> FitsAt(areas, q, area, tb)
  {
    var end := q.End(area);
    UnderflowSeen(tb, end, r.lastEnd, r.vstart);
    assert !(k < |areas| && areas[k].end <= Add(base, end));        // BUG_ON
    assert !(k > 0 && areas[k - 1].end > Add(base, end));           // BUG_ON
    if Add(base, r.lastEnd) < r.vstart + r.lastEnd {
      return BelowRange;
    }
    if k < |areas| && areas[k].start < base + end {
      var d, lower := PullDown(areas, q, r, top, tb, area, k);
      return Pulled(d, lower);
    }
    if k > 0 && areas[k - 1].end > base + q.offsets[area] {
      var d, lower := PullDown(areas, q, r, top, tb, area, k - 1);
      return Pulled(d, lower);
    }
    ThisAreaFits(areas, q, area, k, tb);
    return Look.Fits;
  }

  // ----- The whole operation

  function Placement(q: Request, base: nat, i: nat): Area
    requires i < |q.offsets| == |q.sizes|
  {
    Area(base + q.offsets[i], base + q.End(i))
  }

  lemma ClearOfMembers(areas: seq<Area>, s: int, e: int)
    requires forall x :: x in areas ==> x.end <= s || e <= x.start
    ensures Clear(areas, s, e)
  {
  }

  /** Area i meets neither what was there before nor the areas placed already. */
  lemma PlacementClear(before: seq<Area>, areas: seq<Area>, q: Request, base: nat, i: nat)
    requires q.Proper() && i < q.Nr() && FitsAll(before, q, base)
    requires forall x :: x in areas ==> x in before || exists j :: 0 <= j < i && x == Placement(q, base, j)
    ensures Clear(areas, base + q.offsets[i], base + q.End(i))
  {
    assert FitsAt(before, q, i, base);
    forall x | x in areas
      ensures x.end <= base + q.offsets[i] || base + q.End(i) <= x.start
    {
      if x !in before {
        var j :| 0 <= j < i && x == Placement(q, base, j);
        assert q.Apart(j, i);
      }
    }
    ClearOfMembers(areas, base + q.offsets[i], base + q.End(i));
  }

  /** One of the areas asked for, at this base. */
  ghost predicate Requested(q: Request, base: nat, x: Area) {
    |q.offsets| == |q.sizes| && exists i :: 0 <= i < |q.offsets| && x == Placement(q, base, i)
  }

  /** The hole is noted where the last area starts. */
  ghost predicate NextHole(q: Request, base: nat, hole: nat) {
    exists i: nat :: HighestOffset(q, i) && hole == base + q.offsets[i]
  }

  predicate HighestOffset(q: Request, i: nat) {
    i < |q.offsets| && forall j :: 0 <= j < |q.offsets| ==> q.offsets[j] <= q.offsets[i]
  }

  method PlaceAll(v: Vmap, q: Request, base: nat)
    requires v.Valid() && q.Proper() && FitsAll(v.areas, q, base) && (forall i :: 0 <= i < q.Nr() ==> base + q.End(i) < W)
    modifies v`areas
    ensures v.Valid()
    ensures forall x :: x in v.areas <==> x in old(v.areas) || Requested(q, base, x)
  {
    ghost var before := v.areas;
    var i := 0;
    while i < q.Nr()
      invariant i <= q.Nr() && v.Valid()
      invariant forall x :: x in v.areas <==> x in before || exists j :: 0 <= j < i && x == Placement(q, base, j)
    {
      PlacementClear(before, v.areas, q, base, i);
      v.InsertArea(Placement(q, base, i));
      i := i + 1;
    }
  }

  /** Area k of the tree is the first that ends above the hole. */
  ghost predicate AtHole(areas: seq<Area>, hole: nat, k: nat) {
    k <= |areas| && (k < |areas| ==> areas[k].end > hole) && (k > 0 ==> areas[k - 1].end <= hole)
  }

  /** What a search of this tree answers: the highest aligned base in the range at which every area fits and the last area ends
      below the first area above the hole; none exactly if there is no such base. */
  ghost predicate Answers(areas: seq<Area>, q: Request, r: Range, hole: nat, res: Option<nat>)
    requires q.Proper()
  {
    if areas == [] then res == Some(r.vend - r.lastEnd)
    else exists k: nat :: AtHole(areas, hole, k) && AnswersFrom(areas, q, r, EndBelow(areas, k, q.align, r.vend) - r.lastEnd, res)
  }

  ghost predicate AnswersFrom(areas: seq<Area>, q: Request, r: Range, top: int, res: Option<nat>)
    requires q.Proper()
  {
    match res
    case Some(base) => Placed(areas, q, r, top, base)
    case None => NoneAbove(areas, q, r.vstart - 1, top)
  }

  /** One attempt to find a base. */
  method FindBase(areas: seq<Area>, q: Request, r: Range, last: nat, hole: nat) returns (res: Option<nat>)
    requires Bounds(q, r) && Sorted(areas) && last < q.Nr() && r.lastEnd == q.End(last)
    ensures res.Some? ==> FitsAll(areas, q, res.value) && Aligned(res.value, q.align)
    ensures res.Some? ==> r.vstart <= res.value <= r.vend - r.lastEnd
    ensures Answers(areas, q, r, hole, res)
  {
    if |areas| == 0 {
      Combine(q.offsets[last], q.sizes[last], q.align);
      Combine(r.vend, r.lastEnd, q.align);
      res := Some(r.vend - r.lastEnd);
    } else {
      ghost var top, k0;
      res, top, k0 := Scan(areas, q, r, last, hole);
      assert AtHole(areas, hole, k0) && AnswersFrom(areas, q, r, EndBelow(areas, k0, q.align, r.vend) - r.lastEnd, res);
    }
  }

  ghost predicate InRange(v: Vmap, a: Area)
    reads v
  {
    a in v.areas && v.vmallocStart <= a.start && a.end <= v.vmallocEnd
  }

  /** The end of the request: the largest end of its first n areas. */
  function MaxEnd(q: Request, n: nat): nat
    requires n <= |q.offsets| == |q.sizes|
  {
    if n == 0 then 0 else if q.End(n - 1) > MaxEnd(q, n - 1) then q.End(n - 1) else MaxEnd(q, n - 1)
  }

  lemma {:induction false} MaxEndIs(q: Request, n: nat, e: nat)
    requires n <= |q.offsets| == |q.sizes| && (forall i :: 0 <= i < n ==>
             q.End(i) <= e) && exists i :: 0 <= i < n && q.End(i) == e
    ensures MaxEnd(q, n) == e
  {
    if q.End(n - 1) == e {
      MaxEndAtMost(q, n - 1, e);
    } else {
      MaxEndIs(q, n - 1, e);
    }
  }

  lemma {:induction false} MaxEndAtMost(q: Request, n: nat, e: nat)
    requires n <= |q.offsets| == |q.sizes| && forall i :: 0 <= i < n ==> q.End(i) <= e
    ensures MaxEnd(q, n) <= e
  {
    if n > 0 {
      MaxEndAtMost(q, n - 1, e);
    }
  }

  /** The aligned vmalloc range, and the end of the request. */
  function RangeFor(v: Vmap, q: Request): Range
    requires q.align > 0 && |q.offsets| == |q.sizes|
  {
    Range(AlignUp(v.vmallocStart, q.align), AlignDown(v.vmallocEnd, q.align), MaxEnd(q, |q.offsets|))
  }

  /** The answer of up to two searches: of the tree as it was, or, only if that finds nothing, of the tree without what was being
      freed lazily. */
  ghost predicate Searched(before: seq<Area>, lazy: seq<Area>, hole0: nat, q: Request, r: Range, tree: seq<Area>,
      hole: nat, res: Option<nat>)
    requires q.Proper()
  {
    && Answers(tree, q, r, hole, res)
    && ((tree == before && hole == hole0) || (
          Answers(before, q, r, hole0, None) && forall x :: x in tree <==> x in before && x !in lazy))
  }

  method SearchTwice(v: Vmap, q: Request, r: Range, last: nat) returns (base: Option<nat>)
    requires v.Valid() && Bounds(q, r) && last < q.Nr() && r.lastEnd == q.End(last)
    modifies v
    ensures v.Valid() && Searched(old(v.areas), old(v.lazy), old(v.pcpuHole), q, r, v.areas, v.pcpuHole, base)
    ensures base.Some? ==> FitsAll(v.areas, q, base.value) && Aligned(base.value, q.align)
    ensures base.Some? ==> r.vstart <= base.value <= r.vend - r.lastEnd
    ensures v.areas == old(v.areas) || forall x :: x in v.areas <==> x in old(v.areas) && x !in old(v.lazy)
  {
    base := FindBase(v.areas, q, r, last, v.pcpuHole);
    if base.None? {
      v.PurgeLazy();
      base := FindBase(v.areas, q, r, last, v.pcpuHole);
    }
  }

  /** The areas are inserted, and the hole is noted. */
  method Settle(v: Vmap, q: Request, base: nat, last: nat)
    requires v.Valid() && q.Proper() && FitsAll(v.areas, q, base) && (forall i :: 0 <= i < q.Nr() ==> base + q.End(i) < W)
    requires HighestOffset(q, last)
    modifies v`areas, v`pcpuHole
    ensures v.Valid() && NextHole(q, base, v.pcpuHole)
    ensures forall x :: x in v.areas <==> x in old(v.areas) || Requested(q, base, x)
    ensures forall i :: 0 <= i < q.Nr() ==> Placement(q, base, i) in v.areas
  {
    PlaceAll(v, q, base);
    v.pcpuHole := base + q.offsets[last];
  }

  /** pcpu_get_vm_areas: on success every requested area is in the tree at one aligned base plus its offset, inside the
      vmalloc range; the tree stays address-sorted without overlaps, gains nothing else and loses only what was being freed
      lazily. On failure it gains nothing, and no base was to be found. */
  method PcpuGetVmAreas(v: Vmap, q: Request) returns (res: Option<nat>, ghost tree: seq<Area>, ghost hole: nat)
    requires v.Valid() && q.Proper() && v.vmallocStart + q.align <= W
    requires AlignUp(v.vmallocStart, q.align) <= AlignDown(v.vmallocEnd, q.align)
    modifies v
    ensures v.Valid()
    ensures res.Some? ==> Aligned(res.value, q.align)
    ensures res.Some? ==> forall i :: 0 <= i < q.Nr() ==> InRange(v, Placement(q, res.value, i))
    ensures forall x :: x in old(v.areas) ==> x in v.areas || x in old(v.lazy)
    ensures forall x :: x in v.areas ==> x in old(v.areas) || (res.Some? && Requested(q, res.value, x))
    ensures var r := RangeFor(v, q);
            if r.vend - r.vstart < r.lastEnd then res.None? && v.areas == old(v.areas)
            else Searched(old(v.areas), old(v.lazy), old(v.pcpuHole), q, r, tree, hole, res)
    ensures res.Some? ==> forall x :: x in v.areas <==> x in tree || Requested(q, res.value, x)
    ensures res.Some? ==> NextHole(q, res.value, v.pcpuHole)
  {
    var last := LastArea(q.offsets);
    forall i | 0 <= i < q.Nr() ensures q.End(i) <= q.End(last) { LastEndsLast(q, last, i); }
    MaxEndIs(q, q.Nr(), q.End(last));
    var r := Range(AlignUp(v.vmallocStart, q.align), AlignDown(v.vmallocEnd, q.align), q.End(last));
    UpFacts(v.vmallocStart, q.align);
    DownFacts(v.vmallocEnd, q.align);
    tree, hole := v.areas, v.pcpuHole;
    if r.vend - r.vstart < r.lastEnd { return None, tree, hole; }
    res := SearchTwice(v, q, r, last);
    tree, hole := v.areas, v.pcpuHole;
    if res.None? { return; }
    Settle(v, q, res.value, last);
  }
}
