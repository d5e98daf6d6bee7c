/** What pcpu_get_vm_areas does not look at: bases above vmap_area_pcpu_hole, which the code calls the highest candidate. */
module VmallocHole {
  import opened Align
  import opened Vmalloc
  import opened VmallocPcpu

  /** The scan starts below area k0, the first that ends above the hole. */
  function Top(areas: seq<Area>, q: Request, r: Range, k0: nat): int
    requires k0 <= |areas| && q.align > 0
  {
    EndBelow(areas, k0, q.align, r.vend) - r.lastEnd
  }

  /** A base in the range, above where the scan starts, at which everything fits. */
  ghost predicate Overlooked(areas: seq<Area>, q: Request, r: Range, k0: nat, b: nat)
    requires k0 <= |areas| && q.Proper()
  {
    Top(areas, q, r, k0) < b <= r.vend - r.lastEnd && Aligned(b, q.align) && FitsAll(areas, q, b)
  }

  /** There is room for the request's last area behind area j - 1 of the tree, which is above the hole. */
  predicate RoomBehind(areas: seq<Area>, q: Request, r: Range, last: nat, k0: nat, j: nat)
    requires q.align > 0 && last < |q.sizes|
  {
    k0 < j <= |areas| && areas[j - 1].end + q.sizes[last] <= EndBelow(areas, j, q.align, r.vend)
        && r.lastEnd <= EndBelow(areas, j, q.align, r.vend)
  }

  /** The last area starts behind area k0 - 1 + (the number of areas passed). */
  lemma {:induction false} GapOf(areas: seq<Area>, lo: nat, hi: nat, k: nat) returns (j: nat)
    requires Sorted(areas) && k < |areas| && areas[k].end <= lo < hi && Clear(areas, lo, hi)
    ensures k < j <= |areas| && areas[j - 1].end <= lo && (j < |areas| ==> hi <= areas[j].start)
    decreases |areas| - k
  {
    if k + 1 < |areas| && areas[k + 1].end <= lo {
      j := GapOf(areas, lo, hi, k + 1);
    } else {
      j := k + 1;
    }
  }

  lemma EndIsHighest(areas: seq<Area>, k: nat, align: nat, vend: nat, e: nat)
    requires k <= |areas| && align > 0 && Aligned(e, align) && e <= vend && (k < |areas| ==> e <= areas[k].start)
    ensures e <= EndBelow(areas, k, align, vend)
  {
    if k < |areas| { DownFacts(areas[k].start, align); }
  }

  /** Whatever is overlooked needs room for its last area above the hole. */
  lemma OverlookedNeedsRoom(areas: seq<Area>, q: Request, r: Range, last: nat, k0: nat, b: nat)
    requires Bounds(q, r) && Sorted(areas) && last < q.Nr() && r.lastEnd == q.End(last) && k0 <= |areas|
    requires Overlooked(areas, q, r, k0, b)
    ensures exists j: nat :: RoomBehind(areas, q, r, last, k0, j)
  {
    var lo, hi := b + q.offsets[last], b + q.End(last);
    assert FitsAt(areas, q, last, b);
    Combine(q.offsets[last], q.sizes[last], q.align);
    Combine(b, q.End(last), q.align);
    if k0 == |areas| || hi <= areas[k0].start {
      EndIsHighest(areas, k0, q.align, r.vend, hi);
    }
    var j := GapOf(areas, lo, hi, k0);
    EndIsHighest(areas, j, q.align, r.vend, hi);
    assert RoomBehind(areas, q, r, last, k0, j);
  }

  /** For a single area that is all it needs. */
  lemma RoomIsOverlooked(areas: seq<Area>, q: Request, r: Range, k0: nat, j: nat)
    requires Bounds(q, r) && Sorted(areas) && q.Nr() == 1 && r.lastEnd == q.End(0) && k0 <= |areas|
    requires RoomBehind(areas, q, r, 0, k0, j)
    ensures Overlooked(areas, q, r, k0, EndBelow(areas, j, q.align, r.vend) - r.lastEnd)
  {
    var e := EndBelow(areas, j, q.align, r.vend);
    EndBelowFacts(areas, j, q.align, r.vend);
    EndBelowFacts(areas, k0, q.align, r.vend);
    Combine(q.offsets[0], q.sizes[0], q.align);
    Combine(e, r.lastEnd, q.align);
    forall i | 0 <= i < |areas|
      ensures areas[i].end <= e - q.sizes[0] || e <= areas[i].start
    {
      assert i < j - 1 ==> areas[i].end <= areas[j - 1].start;
      assert i > j ==> areas[j].end <= areas[i].start;
    }
    assert k0 < j - 1 ==> areas[k0].end <= areas[j - 1].start;
    assert FitsAt(areas, q, 0, e - r.lastEnd);
  }

  /** A request for one area overlooks a base exactly if there is room for it behind some area above the hole. */
  lemma OverlookedExactly(areas: seq<Area>, q: Request, r: Range, k0: nat)
    requires Bounds(q, r) && Sorted(areas) && q.Nr() == 1 && r.lastEnd == q.End(0) && k0 <= |areas|
    ensures (exists b: nat :: Overlooked(areas, q, r, k0, b)) <==> exists j: nat :: RoomBehind(areas, q, r, 0, k0, j)
  {
    if b: nat :| Overlooked(areas, q, r, k0, b) {
      OverlookedNeedsRoom(areas, q, r, 0, k0, b);
    }
    if j: nat :| RoomBehind(areas, q, r, 0, k0, j) {
      RoomIsOverlooked(areas, q, r, k0, j);
    }
  }

  // ----- A run that leaves the hole too low

  const PAGE := 0x1000

  function Pages(n: nat): Request {
    Request([0], [n * PAGE], PAGE)
  }

  function Whole(n: nat): Range {
    Range(0, 100 * PAGE, n * PAGE)
  }

  lemma PagesProper(n: nat)
    requires 0 < n <= 100
    ensures Pages(n).Proper() && Bounds(Pages(n), Whole(n)) && MaxEnd(Pages(n), 1) == n * PAGE
  {
    MultipleAligned(n, PAGE);
    MultipleAligned(100, PAGE);
    assert Pages(n).End(0) == n * PAGE;
    assert MaxEnd(Pages(n), 0) == 0;
  }

  lemma PageRange(v: Vmap, n: nat)
    requires v.vmallocStart == 0 && v.vmallocEnd == 100 * PAGE && 0 < n <= 100
    ensures RangeFor(v, Pages(n)) == Whole(n)
  {
    PagesProper(n);
    UpFacts(0, PAGE);
    DownFacts(100 * PAGE, PAGE);
  }

  lemma PagesFit(areas: seq<Area>, n: nat, base: nat)
    requires 0 < n <= 100 && forall x :: x in areas ==> x.end <= base || base + n * PAGE <= x.start
    ensures Pages(n).Proper() && FitsAll(areas, Pages(n), base)
  {
    PagesProper(n);
    ClearOfMembers(areas, base, base + n * PAGE);
  }

  /** The answer of a search that starts below page `top`, when `base` is the highest page from there down at which n fit. */
  lemma AnswerIs(areas: seq<Area>, n: nat, top: nat, base: nat, res: Option<nat>)
    requires 0 < n <= 100 && base <= top && base + n <= 100 && Pages(n).Proper()
    requires FitsAll(areas, Pages(n), base * PAGE) && AnswersFrom(areas, Pages(n), Whole(n), top * PAGE, res)
    requires forall b: nat :: base < b <= top ==> !FitsAll(areas, Pages(n), b * PAGE)
    ensures res == Some(base * PAGE)
  {
    MultipleAligned(base, PAGE);
    if res.Some? {
      var b := res.value / PAGE;
      assert res.value == b * PAGE;
    }
  }

  lemma FirstAnswer(areas: seq<Area>, res: Option<nat>)
    requires forall x :: x in areas <==> x == Area(95 * PAGE, 97 * PAGE)
    requires Pages(5).Proper() && Answers(areas, Pages(5), Whole(5), 100 * PAGE, res)
    ensures res == Some(90 * PAGE)
  {
    assert Area(95 * PAGE, 97 * PAGE) in areas;
    var k: nat :| AtHole(areas, 100 * PAGE, k)
                  && AnswersFrom(areas, Pages(5), Whole(5), EndBelow(areas, k, PAGE, 100 * PAGE) - 5 * PAGE, res);
    assert forall i :: 0 <= i < |areas| ==> areas[i] in areas;
    PagesFit(areas, 5, 90 * PAGE);
    forall b: nat | 90 < b <= 95
      ensures !FitsAll(areas, Pages(5), b * PAGE)
    {
      Meets(areas, 5, b * PAGE, Area(95 * PAGE, 97 * PAGE));
    }
    AnswerIs(areas, 5, 95, 90, res);
  }

  lemma Meets(areas: seq<Area>, n: nat, base: nat, x: Area)
    requires Pages(n).Proper() && x in areas && x.end > base && base + n * PAGE > x.start
    ensures !FitsAll(areas, Pages(n), base)
  {
    assert FitsAll(areas, Pages(n), base) ==> FitsAt(areas, Pages(n), 0, base);
  }

  /** The search starts below the lower of the two areas. */
  lemma StartsBelow(areas: seq<Area>, k: nat)
    requires Sorted(areas) && forall x :: x in areas <==> x == Area(90 * PAGE, 95 * PAGE) || x == Area(95 * PAGE, 97 * PAGE)
    requires AtHole(areas, 90 * PAGE, k)
    ensures EndBelow(areas, k, PAGE, 100 * PAGE) == 90 * PAGE
  {
    assert Area(90 * PAGE, 95 * PAGE) in areas;
    var i: nat :| i < |areas| && areas[i] == Area(90 * PAGE, 95 * PAGE);
    assert areas[0] in areas;
  }

  lemma SecondAnswer(areas: seq<Area>, res: Option<nat>)
    requires Sorted(areas) && forall x :: x in areas <==> x == Area(90 * PAGE, 95 * PAGE) || x == Area(95 * PAGE, 97 * PAGE)
    requires Pages(2).Proper() && Answers(areas, Pages(2), Whole(2), 90 * PAGE, res)
    ensures res == Some(88 * PAGE)
  {
    assert Area(90 * PAGE, 95 * PAGE) in areas;
    var k: nat :| AtHole(areas, 90 * PAGE, k)
                  && AnswersFrom(areas, Pages(2), Whole(2), EndBelow(areas, k, PAGE, 100 * PAGE) - 2 * PAGE, res);
    StartsBelow(areas, k);
    PagesFit(areas, 2, 88 * PAGE);
    AnswerIs(areas, 2, 88, 88, res);
  }

  method TakeUpper(v: Vmap)
    requires v.Valid() && v.areas == [] && v.lazy == [] && v.cache == None
    modifies v
    ensures v.Valid() && v.pcpuHole == old(v.pcpuHole) && forall x :: x in v.areas <==> x == Area(95 * PAGE, 97 * PAGE)
  {
    assert PowerOfTwo(PAGE);
    assert FitsWithout(v.areas, [], 95 * PAGE, 2 * PAGE, PAGE, 95 * PAGE, 100 * PAGE);
    var r := v.AllocVmapArea(2 * PAGE, PAGE, 95 * PAGE, 100 * PAGE);
  }

  method TakeFive(v: Vmap)
    requires v.Valid() && v.vmallocStart == 0 && v.vmallocEnd == 100 * PAGE && v.pcpuHole == 100 * PAGE
    requires forall x :: x in v.areas <==> x == Area(95 * PAGE, 97 * PAGE)
    modifies v
    ensures v.Valid() && v.pcpuHole == 90 * PAGE
    ensures forall x :: x in v.areas <==> x == Area(90 * PAGE, 95 * PAGE) || x == Area(95 * PAGE, 97 * PAGE)
  {
    PageRange(v, 5);
    PagesProper(5);
    ghost var before := v.areas;
    ghost var tree, hole;
    var res;
    res, tree, hole := PcpuGetVmAreas(v, Pages(5));
    if Answers(before, Pages(5), Whole(5), 100 * PAGE, None) { FirstAnswer(before, None); }
    FirstAnswer(tree, res);
    assert Placement(Pages(5), 90 * PAGE, 0) == Area(90 * PAGE, 95 * PAGE);
  }

  /** Of 100 pages, [95, 97) are taken; five more are asked for, which are found at 90, and the hole is noted there. Two more
      are then found at 88, although the three highest pages are free. */
  method HoleIsNotHighest() returns (v: Vmap, res: Option<nat>)
    ensures fresh(v) && v.Valid() && res == Some(88 * PAGE)
    ensures Clear(v.areas, 97 * PAGE, 100 * PAGE) && v.vmallocEnd == 100 * PAGE
  {
    v := new Vmap(0, 100 * PAGE);
    TakeUpper(v);
    TakeFive(v);
    res := TakeTwo(v);
  }

  method TakeTwo(v: Vmap) returns (res: Option<nat>)
    requires v.Valid() && v.vmallocStart == 0 && v.vmallocEnd == 100 * PAGE && v.pcpuHole == 90 * PAGE
    requires forall x :: x in v.areas <==> x == Area(90 * PAGE, 95 * PAGE) || x == Area(95 * PAGE, 97 * PAGE)
    modifies v
    ensures v.Valid() && res == Some(88 * PAGE) && Clear(v.areas, 97 * PAGE, 100 * PAGE)
  {
    PageRange(v, 2);
    PagesProper(2);
    ghost var before := v.areas;
    ghost var tree, hole;
    res, tree, hole := PcpuGetVmAreas(v, Pages(2));
    if Answers(before, Pages(2), Whole(2), 90 * PAGE, None) { SecondAnswer(before, None); }
    SecondAnswer(tree, res);
    assert Placement(Pages(2), 88 * PAGE, 0) == Area(88 * PAGE, 90 * PAGE);
    ClearOfMembers(v.areas, 97 * PAGE, 100 * PAGE);
  }
}
