/** A run of the vmalloc allocator after which a request fails although it fits. */
module VmallocMissed {
  import opened Align
  import opened Vmalloc

  const PAGE := 0x1000
  const LIMIT := 0x10_0000

  /** The areas are exactly these, nothing is freed lazily, and the last request was aligned to a page, from the first page on. */
  ghost predicate Holds(v: Vmap, areas: set<Area>, hole: nat, cache: Option<Area>)
    reads v
  {
    && v.Valid() && v.lazy == [] && (forall x :: x in v.areas <==> x in areas)
    && v.cachedHole == hole && v.cache == cache && v.cachedVstart == PAGE && v.cachedAlign == PAGE
  }

  /** A request of a larger size than the noted hole takes `at`, where every area is at or below it and nothing lower fits. */
  method Take(v: Vmap, areas: set<Area>, size: nat, at: nat) returns (a: Area)
    requires v.Valid() && v.lazy == [] && (forall x :: x in v.areas <==> x in areas) && 0 < size && v.cachedHole < size
    requires PAGE <= at && at + size <= LIMIT && Aligned(at, PAGE) && (forall x :: x in areas ==> x.end <= at)
    requires forall b: nat :: PAGE <= b < at && Aligned(b, PAGE) ==> exists x :: x in areas && x.end > b && b + size > x.start
    modifies v
    ensures a == Area(at, at + size) && v.Valid() && v.lazy == [] && (forall x :: x in v.areas <==> x in areas || x == a)
    ensures v.cache == Some(a) && v.cachedVstart == PAGE && v.cachedAlign == PAGE
    ensures v.cachedHole == old(v.cachedHole) || v.cachedHole == 0 || HoleNoted(old(v.areas), PAGE, PAGE, v.cachedHole)
  {
    assert PowerOfTwo(PAGE);
    assert FitsWithout(v.areas, [], at, size, PAGE, PAGE, LIMIT);
    var r := v.AllocVmapArea(size, PAGE, PAGE, LIMIT);
    a := r.value;
  }

  /** Areas without a gap between them, from the first page on. */
  lemma NoHole(areas: seq<Area>, hole: nat)
    requires Sorted(areas) && forall x :: x in areas ==> x.start == PAGE || exists y :: y in areas && y.end == x.start
    ensures !HoleNoted(areas, PAGE, PAGE, hole)
  {
  }

  method ThreePages() returns (v: Vmap)
    ensures fresh(v) && Holds(v, {Area(PAGE, 2 * PAGE), Area(2 * PAGE, 3 * PAGE), Area(3 * PAGE, 4 * PAGE)}, 0,
            Some(Area(3 * PAGE, 4 * PAGE)))
  {
    v := new Vmap(PAGE, LIMIT);
    NoHole(v.areas, v.cachedHole);
    var a := Take(v, {}, PAGE, PAGE);
    var b := NextPage(v, {a}, 2 * PAGE);
    var c := NextPage(v, {a, b}, 3 * PAGE);
  }

  method NextPage(v: Vmap, areas: set<Area>, at: nat) returns (a: Area)
    requires exists last: Area :: last in areas && last.end == at && Holds(v, areas, 0, Some(last))
    requires PAGE <= at && at + PAGE <= LIMIT && Aligned(at, PAGE) && (forall x :: x in areas ==> x.end <= at)
    requires forall x :: x in areas ==> x.start == PAGE || exists y :: y in areas && y.end == x.start
    requires forall b: nat :: PAGE <= b < at && Aligned(b, PAGE) ==> exists x :: x in areas && x.end > b && b + PAGE > x.start
    modifies v
    ensures a == Area(at, at + PAGE) && Holds(v, areas + {a}, 0, Some(a))
  {
    ghost var before := v.areas;
    a := Take(v, areas, PAGE, at);
    NoHole(before, v.cachedHole);
  }

  /** Freeing the second page, and passing over it with a request of two pages that is freed again. */
  method PassOver(v: Vmap)
    requires Holds(v, {Area(PAGE, 2 * PAGE), Area(2 * PAGE, 3 * PAGE), Area(3 * PAGE, 4 * PAGE)}, 0,
             Some(Area(3 * PAGE, 4 * PAGE)))
    modifies v
    ensures Holds(v, {Area(PAGE, 2 * PAGE), Area(3 * PAGE, 4 * PAGE)}, PAGE, Some(Area(3 * PAGE, 4 * PAGE)))
  {
    var a, b, c := Area(PAGE, 2 * PAGE), Area(2 * PAGE, 3 * PAGE), Area(3 * PAGE, 4 * PAGE);
    v.FreeArea(b);
    ghost var before := v.areas;
    var d := Take(v, {a, c}, 2 * PAGE, 4 * PAGE);
    NotedOne(before, v);
    v.FreeArea(d);
  }

  lemma NotedOne(before: seq<Area>, v: Vmap)
    requires Sorted(before) && (forall x :: x in before <==> x in {Area(PAGE, 2 * PAGE), Area(3 * PAGE, 4 * PAGE)})
    requires v.Valid() && v.cachedVstart == PAGE && v.cachedAlign == PAGE && v.cache == Some(Area(4 * PAGE, 6 * PAGE))
    requires forall x :: x in v.areas <==> x in before || x == Area(4 * PAGE, 6 * PAGE)
    requires v.cachedHole == 0 || HoleNoted(before, PAGE, PAGE, v.cachedHole)
    ensures v.cachedHole == PAGE
  {
    assert Aligned(2 * PAGE, PAGE);
    assert Gap(v.areas, 2 * PAGE, PAGE) by {
      forall i | 0 <= i < |v.areas| ensures v.areas[i].end <= 2 * PAGE || 3 * PAGE <= v.areas[i].start { assert v.areas[i] in v.areas; }
    }
    assert v.cachedHole >= PAGE;
    var b: nat, i: nat :| PAGE <= b && Aligned(b, PAGE) && Gap(before, b, v.cachedHole) && i < |before|
        && b + v.cachedHole == before[i].start;
    assert before[i] in before;
    assert Area(PAGE, 2 * PAGE) in before;
  }

  lemma HoleIsThere(v: Vmap)
    requires forall x :: x in v.areas <==> x in {Area(PAGE, 2 * PAGE), Area(3 * PAGE, 4 * PAGE)}
    ensures v.NoWrap(PAGE) && Fits(v.areas, 2 * PAGE, PAGE, PAGE, PAGE, 4 * PAGE)
  {
    forall i | 0 <= i < |v.areas|
      ensures v.areas[i].end + PAGE <= W && (v.areas[i].end <= 2 * PAGE || 3 * PAGE <= v.areas[i].start)
    {
      assert v.areas[i] in v.areas;
    }
  }

  /** Three requests of one page each, from the first page on. The second area is freed, so that the cache moves to the first
      one. A request of two pages passes over the hole, notes its size and goes above the third area; it is freed again, so
      that the cache moves to the third area. The hole can hold a request of one page, but a request of exactly the noted
      size does not look there. */
  method HoleOfExactSizeIsMissed() returns (v: Vmap, r: Option<Area>)
    ensures fresh(v) && v.Valid() && r == None && Fits(v.areas, 2 * PAGE, PAGE, PAGE, PAGE, 4 * PAGE)
  {
    v := ThreePages();
    PassOver(v);
    HoleIsThere(v);
    assert v.UsesCache(PAGE, PAGE, PAGE) && v.Floor(PAGE, PAGE, PAGE) == 4 * PAGE;
    r := v.AllocVmapArea(PAGE, PAGE, PAGE, 4 * PAGE);
    HoleIsThere(v);
  }
}
