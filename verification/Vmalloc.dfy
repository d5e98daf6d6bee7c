/** The vmalloc address-space allocator. The red-black tree and the address-sorted list hold the same areas in the same
    order, so both are the sequence `areas`; a descent in the tree is a search that narrows a range of positions around
    pivots that the shape of the tree decides, here arbitrary. */
module Vmalloc {
  import opened Align

  datatype Area = Area(start: nat, end: nat)

  datatype Option<T> = None | Some(value: T)

  /** Address order, no overlaps, nothing empty, everything inside the 64-bit space. */
  predicate Sorted(areas: seq<Area>) {
    && (forall i :: 0 <= i < |areas| ==> areas[i].start < areas[i].end < W)
    && (forall i, j :: 0 <= i < j < |areas| ==> areas[i].end <= areas[j].start)
  }

  /** [s, e) meets none of the areas. */
  predicate Clear(areas: seq<Area>, s: int, e: int) {
    forall i :: 0 <= i < |areas| ==> areas[i].end <= s || e <= areas[i].start
  }

  function InsertAt(areas: seq<Area>, k: nat, a: Area): seq<Area>
    requires k <= |areas|
  {
    areas[..k] + [a] + areas[k..]
  }

  lemma InsertSorted(areas: seq<Area>, k: nat, a: Area)
    requires Sorted(areas) && k <= |areas| && a.start < a.end < W
    requires forall i :: 0 <= i < k ==> areas[i].end <= a.start
    requires forall i :: k <= i < |areas| ==> a.end <= areas[i].start
    ensures Sorted(InsertAt(areas, k, a))
    ensures forall x :: x in InsertAt(areas, k, a) <==> x == a || x in areas
  {
    var r := InsertAt(areas, k, a);
    forall i, j | 0 <= i < j < |r|
      ensures r[i].end <= r[j].start
    {
    }
    forall x
      ensures x in r <==> x == a || x in areas
    {
      assert areas == areas[..k] + areas[k..];
    }
  }

  lemma RemoveSorted(areas: seq<Area>, k: nat)
    requires Sorted(areas) && k < |areas|
    ensures Sorted(areas[..k] + areas[k + 1..])
    ensures forall x :: x in areas[..k] + areas[k + 1..] <==> x in areas && x != areas[k]
  {
    var r := areas[..k] + areas[k + 1..];
    forall x
      ensures x in r <==> x in areas && x != areas[k]
    {
      assert areas == areas[..k] + [areas[k]] + areas[k + 1..];
    }
  }

  /** `a` can hold an area of this size and alignment. */
  predicate Fits(areas: seq<Area>, a: nat, size: nat, align: nat, vstart: nat, vend: nat)
    requires align > 0
  {
    Aligned(a, align) && vstart <= a && a + size <= vend && Clear(areas, a, a + size)
  }

  /** The descent of alloc_vmap_area: an area such that everything before it ends at or below `addr` and it does not;
      or none, if every area ends below `addr`. */
  method FindFirst(areas: seq<Area>, addr: nat) returns (first: nat)
    requires Sorted(areas)
    ensures first <= |areas| && (forall i :: 0 <= i < first ==> areas[i].end <= addr)
    ensures first < |areas| ==> areas[first].end >= addr
  {
    var lo, hi := 0, |areas|;
    first := |areas|;
    while lo < hi
      invariant lo <= hi <= |areas| && hi == first
      invariant forall i :: 0 <= i < lo ==> areas[i].end < addr
      invariant first < |areas| ==> areas[first].end >= addr
    {
      var mid :| lo <= mid < hi;
      if areas[mid].end >= addr {
        first := mid;
        if areas[mid].start <= addr { return; }
        hi := mid;
      } else {
        lo := mid + 1;
      }
    }
  }

  /** The descent of __insert_vmap_area. Its BUG() is not reached. */
  method FindPlace(areas: seq<Area>, a: Area) returns (k: nat)
    requires Sorted(areas) && a.start < a.end && Clear(areas, a.start, a.end)
    ensures k <= |areas|
    ensures forall i :: 0 <= i < k ==> areas[i].end <= a.start
    ensures forall i :: k <= i < |areas| ==> a.end <= areas[i].start
  {
    var lo, hi := 0, |areas|;
    while lo < hi
      invariant lo <= hi <= |areas|
      invariant forall i :: 0 <= i < lo ==> areas[i].end <= a.start
      invariant forall i :: hi <= i < |areas| ==> a.end <= areas[i].start
    {
      var mid :| lo <= mid < hi;
      if a.start < areas[mid].end {
        hi := mid;
      } else {
        assert a.end > areas[mid].start;
        lo := mid + 1;
      }
    }
    return lo;
  }

  /** The descent of pvm_find_next_prev: the position of the first area that ends above `end`; that area is *pnext and the
      one before it *pprev. */
  method FindNextPrev(areas: seq<Area>, end: nat) returns (k: nat)
    requires Sorted(areas)
    ensures k <= |areas|
    ensures k < |areas| ==> areas[k].end > end
    ensures k > 0 ==> areas[k - 1].end <= end
  {
    var lo, hi, last := 0, |areas|, 0;
    while lo < hi
      invariant lo <= hi <= |areas|
      invariant forall i :: 0 <= i < lo ==> areas[i].end <= end
      invariant forall i :: hi <= i < |areas| ==> areas[i].end > end
      invariant |areas| > 0 ==> (last == hi < |areas| || (last + 1 == lo && lo > 0) || (lo == 0 && hi == |areas|))
    {
      var mid :| lo <= mid < hi;
      last := mid;
      if end < areas[mid].end {
        hi := mid;
      } else if end > areas[mid].end {
        lo := mid + 1;
      } else {
        return mid + 1;
      }
    }
    if |areas| == 0 { return 0; }
    return if areas[last].end > end then last else last + 1;
  }

  /** Nothing below `addr` and at or above `floor` can hold the area: the search may go on from `addr`. */
  ghost predicate NoneBefore(areas: seq<Area>, floor: nat, addr: nat, size: nat, align: nat, vstart: nat, vend: nat)
    requires align > 0
  {
    forall b: nat :: floor <= b < addr ==> !Fits(areas, b, size, align, vstart, vend)
  }

  /** The search stands at `addr`, in front of area `i`. */
  ghost predicate Reached(areas: seq<Area>, i: nat, floor: nat, addr: nat, size: nat, align: nat, vstart: nat, vend: nat) {
    && align > 0 && i <= |areas| && vstart <= addr && floor <= addr && Aligned(addr, align)
    && (forall j :: 0 <= j < i ==> areas[j].end <= addr)
    && (i < |areas| ==> AlignUp(areas[i].end, align) >= addr)
    && NoneBefore(areas, floor, addr, size, align, vstart, vend)
  }

  lemma NoneUpTo(areas: seq<Area>, i: nat, floor: nat, addr: nat, size: nat, align: nat, vstart: nat, vend: nat)
    requires Sorted(areas) && i < |areas| && align > 0 && size > 0 && areas[i].end + align <= W
    requires NoneBefore(areas, floor, addr, size, align, vstart, vend) && addr + size > areas[i].start
    ensures NoneBefore(areas, floor, AlignUp(areas[i].end, align), size, align, vstart, vend)
  {
    UpFacts(areas[i].end, align);
    forall b: nat | floor <= b < AlignUp(areas[i].end, align)
      ensures !Fits(areas, b, size, align, vstart, vend)
    {
      assert addr <= b && Aligned(b, align) ==> b < areas[i].end && areas[i].start < b + size;
    }
  }

  /** Passing one area: every aligned address from `addr` up to the end of the area, rounded up, would meet it. */
  lemma PassArea(areas: seq<Area>, i: nat, floor: nat, addr: nat, size: nat, align: nat, vstart: nat, vend: nat)
    requires Sorted(areas) && size > 0 && Reached(areas, i, floor, addr, size, align, vstart, vend)
    requires i < |areas| && addr + size > areas[i].start && (forall j :: 0 <= j < |areas| ==> areas[j].end + align <= W)
    ensures Reached(areas, i + 1, floor, AlignUp(areas[i].end, align), size, align, vstart, vend)
  {
    NoneUpTo(areas, i, floor, addr, size, align, vstart, vend);
    UpFacts(areas[i].end, align);
    if i + 1 < |areas| {
      UpFacts(areas[i + 1].end, align);
      assert AlignUp(areas[i + 1].end, align) >= areas[i].end;
    }
  }

  lemma ReachedEnd(areas: seq<Area>, i: nat, floor: nat, addr: nat, size: nat, align: nat, vstart: nat, vend: nat)
    requires Sorted(areas) && Reached(areas, i, floor, addr, size, align, vstart, vend)
    requires addr + size > vend || i == |areas| || addr + size <= areas[i].start
    ensures addr + size > vend ==> forall b: nat :: Fits(areas, b, size, align, vstart, vend) ==> b < floor
    ensures addr + size <= vend ==> Fits(areas, addr, size, align, vstart, vend)
    ensures forall b: nat :: Fits(areas, b, size, align, vstart, vend) ==> b < floor || addr <= b
  {
    assert forall b: nat :: Fits(areas, b, size, align, vstart, vend) ==> b < floor || addr <= b;
  }

  lemma StartAtCache(areas: seq<Area>, i: nat, size: nat, align: nat, vstart: nat, vend: nat)
    requires Sorted(areas) && i < |areas| && align > 0 && areas[i].end + align <= W && AlignUp(areas[i].end, align) >= vstart
    ensures var addr := AlignUp(areas[i].end, align); Reached(areas, i, addr, addr, size, align, vstart, vend)
  {
    UpFacts(areas[i].end, align);
  }

  lemma StartAtVstart(areas: seq<Area>, i: nat, size: nat, align: nat, vstart: nat, vend: nat)
    requires Sorted(areas) && align > 0 && vstart + align <= W && i <= |areas|
    requires forall j :: 0 <= j < i ==> areas[j].end <= AlignUp(vstart, align)
    requires i < |areas| ==> areas[i].end >= AlignUp(vstart, align) && areas[i].end + align <= W
    ensures Reached(areas, i, vstart, AlignUp(vstart, align), size, align, vstart, vend)
  {
    UpFacts(vstart, align);
    if i < |areas| { UpFacts(areas[i].end, align); }
  }

  // ----- What the cached hole size says

  /** The s addresses from b on are free. */
  predicate Gap(areas: seq<Area>, b: nat, s: nat) {
    s > 0 && Clear(areas, b, b + s)
  }

  /** No gap from an aligned address in [vstart, limit) on is longer than `hole`. */
  ghost predicate HolesBelow(areas: seq<Area>, vstart: nat, align: nat, limit: nat, hole: nat)
    requires align > 0
  {
    forall b: nat, s: nat :: vstart <= b < limit && Aligned(b, align) && Gap(areas, b, s) ==> s <= hole
  }

  /** The size noted is that of a hole in front of an area. */
  ghost predicate HoleNoted(areas: seq<Area>, vstart: nat, align: nat, hole: nat)
    requires align > 0
  {
    exists b: nat, i: nat :: vstart <= b && Aligned(b, align) && Gap(areas, b, hole) && i < |areas|
        && b + hole == areas[i].start
  }

  /** A search that starts from `hole0` keeps it, or notes a larger hole that is too small for the request. */
  ghost predicate Recorded(areas: seq<Area>, size: nat, vstart: nat, align: nat, hole0: nat, hole: nat)
    requires align > 0
  {
    hole == hole0 || (hole0 < hole < size && HoleNoted(areas, vstart, align, hole))
  }

  lemma MoreAreasFewerGaps(some: seq<Area>, all: seq<Area>, b: nat, s: nat)
    requires (forall x :: x in some ==> x in all) && Gap(all, b, s)
    ensures Gap(some, b, s)
  {
    forall i | 0 <= i < |some|
      ensures some[i].end <= b || b + s <= some[i].start
    {
      var x := some[i];
      assert x in all;
    }
  }

  /** Taking space only shortens gaps. */
  lemma HolesKept(some: seq<Area>, all: seq<Area>, vstart: nat, align: nat, limit: nat, hole: nat)
    requires align > 0 && (forall x :: x in some ==> x in all) && HolesBelow(some, vstart, align, limit, hole)
    ensures HolesBelow(all, vstart, align, limit, hole)
  {
    forall b: nat, s: nat | vstart <= b < limit && Aligned(b, align) && Gap(all, b, s)
      ensures s <= hole
    {
      MoreAreasFewerGaps(some, all, b, s);
    }
  }

  /** No gap starts inside an area. */
  lemma HolesUpToEnd(areas: seq<Area>, vstart: nat, align: nat, a: Area, hole: nat)
    requires align > 0 && a in areas && HolesBelow(areas, vstart, align, a.start, hole)
    ensures HolesBelow(areas, vstart, align, a.end, hole)
  {
  }

  /** Below an area, freeing something above it opens no gap. */
  lemma HolesAfterFree(areas: seq<Area>, c: nat, k: nat, vstart: nat, align: nat, limit: nat, hole: nat)
    requires Sorted(areas) && c < k < |areas| && align > 0 && areas[c].end <= limit
             && HolesBelow(areas, vstart, align, limit, hole)
    ensures HolesBelow(areas[..k] + areas[k + 1..], vstart, align, areas[c].end, hole)
  {
    var r := areas[..k] + areas[k + 1..];
    forall b: nat, s: nat | vstart <= b < areas[c].end && Aligned(b, align) && Gap(r, b, s)
      ensures s <= hole
    {
      assert r[c] == areas[c];
      forall i | 0 <= i < |areas|
        ensures areas[i].end <= b || b + s <= areas[i].start
      {
        if i < k { assert r[i] == areas[i]; }
      }
      assert Gap(areas, b, s);
    }
  }

  /** A stricter request is bounded by the same size. */
  lemma HolesForStricter(areas: seq<Area>, vstart: nat, align: nat, limit: nat, hole: nat, vstart': nat, align': nat)
    requires PowerOfTwo(align) && PowerOfTwo(align') && align <= align' && vstart <= vstart'
    requires HolesBelow(areas, vstart, align, limit, hole)
    ensures HolesBelow(areas, vstart', align', limit, hole)
  {
    forall b: nat, s: nat | vstart' <= b < limit && Aligned(b, align') && Gap(areas, b, s)
      ensures s <= hole
    {
      PowersNest(align, align', b);
    }
  }

  lemma HolesUpToAligned(areas: seq<Area>, vstart: nat, align: nat, limit: nat, hole: nat)
    requires align > 0 && limit + align <= W && HolesBelow(areas, vstart, align, limit, hole)
    ensures HolesBelow(areas, vstart, align, AlignUp(limit, align), hole)
  {
    UpFacts(limit, align);
  }

  /** Passing one area: the gap in front of it is noted. */
  lemma PassHole(areas: seq<Area>, i: nat, vstart: nat, align: nat, addr: nat, hole: nat, hole': nat)
    requires align > 0 && i < |areas| && areas[i].end + align <= W && HolesBelow(areas, vstart, align, addr, hole)
    requires hole <= hole' && areas[i].start <= addr + hole'
    ensures HolesBelow(areas, vstart, align, AlignUp(areas[i].end, align), hole')
  {
    UpFacts(areas[i].end, align);
    forall b: nat, s: nat | vstart <= b < AlignUp(areas[i].end, align) && Aligned(b, align) && Gap(areas, b, s)
      ensures s <= hole'
    {
      assert b < areas[i].end;
    }
  }

  lemma HoleInFront(areas: seq<Area>, i: nat, floor: nat, addr: nat, size: nat, align: nat, vstart: nat, vend: nat)
    requires Sorted(areas) && Reached(areas, i, floor, addr, size, align, vstart, vend) && i < |areas|
             && addr < areas[i].start
    ensures HoleNoted(areas, vstart, align, areas[i].start - addr)
  {
    assert Gap(areas, addr, areas[i].start - addr);
  }

  /** The walk over the areas from the starting point; `hole` is cached_hole_size. */
  method Walk(areas: seq<Area>, size: nat, align: nat, vstart: nat, vend: nat, ghost floor: nat, addr0: nat, i0: nat,
      hole0: nat)
    returns (r: Option<nat>, hole: nat)
    requires Sorted(areas) && size > 0 && align > 0 && vend < W && (forall j :: 0 <= j < |areas| ==>
             areas[j].end + align <= W)
    requires Reached(areas, i0, floor, addr0, size, align, vstart, vend) && HolesBelow(areas, vstart, align, addr0, hole0)
    ensures Recorded(areas, size, vstart, align, hole0, hole)
    ensures r.Some? ==> HolesBelow(areas, vstart, align, r.value, hole)
    ensures r.None? ==> forall b: nat :: Fits(areas, b, size, align, vstart, vend) ==> b < floor
    ensures r.Some? ==> Fits(areas, r.value, size, align, vstart, vend) && r.value >= floor
    ensures r.Some? ==> forall b: nat :: Fits(areas, b, size, align, vstart, vend) ==> b < floor || r.value <= b
  {
    var addr: nat, i: nat := addr0, i0;
    hole := hole0;
    while i < |areas| && addr + size > areas[i].start && addr + size <= vend
      invariant Reached(areas, i, floor, addr, size, align, vstart, vend)
      invariant HolesBelow(areas, vstart, align, addr, hole) && Recorded(areas, size, vstart, align, hole0, hole)
    {
      ghost var before := hole;
      if addr + hole < areas[i].start {
        HoleInFront(areas, i, floor, addr, size, align, vstart, vend);
        hole := areas[i].start - addr;
      }
      PassHole(areas, i, vstart, align, addr, before, hole);
      PassArea(areas, i, floor, addr, size, align, vstart, vend);
      addr := AlignUp(areas[i].end, align);
      i := i + 1;
      if addr + size >= W { break; }
    }
    ReachedEnd(areas, i, floor, addr, size, align, vstart, vend);
    r := if addr + size > vend then None else Some(addr);
  }

  /** The area before `a`, if there is one. */
  ghost predicate Before(areas: seq<Area>, a: Area, r: Option<Area>) {
    && (r.None? ==> forall x :: x in areas ==> x.end > a.start)
    && (r.Some? ==> r.value in areas && r.value.end <= a.start && forall x :: x in areas && x.end <= a.start ==>
        x.end <= r.value.end)
  }

  /** The cache after area k is freed, if it is kept at all. */
  method CacheAfterFree(areas: seq<Area>, k: nat, left: seq<Area>, c: Area, vstart: nat, align: nat, hole: nat)
    returns (r: Option<Area>)
    requires Sorted(areas) && k < |areas| && c in areas && PowerOfTwo(align) && HolesBelow(areas, vstart, align, c.end, hole)
    requires left == areas[..k] + areas[k + 1..]
    ensures areas[k].start > c.start ==> r == Some(c)
    ensures areas[k].start <= c.start ==> Before(left, areas[k], r)
    ensures r.Some? ==> r.value in left && r.value.end <= c.end && HolesBelow(left, vstart, align, r.value.end, hole)
  {
    ghost var i: nat :| i < |areas| && areas[i] == c;
    r := Some(c);
    if areas[k].start <= c.start {
      r := if k == 0 then None else Some(areas[k - 1]);
      i := if k == 0 then i else k - 1;
    }
    if r.Some? {
      assert left[i] == r.value;
      HolesAfterFree(areas, i, k, vstart, align, c.end, hole);
    }
  }

  /** `a` can hold the area once the areas in `gone` have left. */
  ghost predicate FitsWithout(areas: seq<Area>, gone: seq<Area>, a: nat, size: nat, align: nat, vstart: nat, vend: nat)
    requires align > 0
  {
    && Aligned(a, align) && vstart <= a && a + size <= vend
    && forall x :: x in areas && x !in gone ==> x.end <= a || a + size <= x.start
  }

  ghost predicate FitsFrom(areas: seq<Area>, gone: seq<Area>, floor: nat, size: nat, align: nat, vstart: nat, vend: nat)
    requires align > 0
  {
    exists b: nat :: b >= floor && FitsWithout(areas, gone, b, size, align, vstart, vend)
  }

  /** `a` fits, and nothing at or above `floor` that fits is lower. */
  ghost predicate Lowest(areas: seq<Area>, gone: seq<Area>, floor: nat, a: nat, size: nat, align: nat, vstart: nat, vend: nat)
    requires align > 0
  {
    && FitsWithout(areas, gone, a, size, align, vstart, vend)
    && forall b: nat :: b >= floor && FitsWithout(areas, gone, b, size, align, vstart, vend) ==> a <= b
  }

  class Vmap {
    const vmallocStart: nat
    const vmallocEnd: nat
    var areas: seq<Area>
    /** free_vmap_cache and what is recorded with it. */
    var cache: Option<Area>
    var cachedHole: nat
    var cachedVstart: nat
    var cachedAlign: nat
    /** vmap_area_pcpu_hole */
    var pcpuHole: nat
    /** vmap_purge_list: areas freed lazily, still in the tree. */
    var lazy: seq<Area>

    ghost predicate Valid()
      reads this
    {
      && Sorted(areas) && vmallocStart < vmallocEnd < W && pcpuHole < W
      && (cache.Some? ==> cache.value in areas)
      && (forall i :: 0 <= i < |lazy| ==> lazy[i] in areas)
      && (forall i, j :: 0 <= i < j < |lazy| ==> lazy[i] != lazy[j])
      && (cache.Some? ==> CacheSound())
    }

    /** The cached hole size bounds every gap below the cached area that the recorded start and alignment admit. */
    ghost predicate CacheSound()
      requires cache.Some?
      reads this
    {
      PowerOfTwo(cachedAlign) && HolesBelow(areas, cachedVstart, cachedAlign, cache.value.end, cachedHole)
    }

    /** Rounding up does not wrap for any area (see Align.UpWraps). */
    predicate NoWrap(align: nat)
      reads this
    {
      align > 0 && forall i :: 0 <= i < |areas| ==> areas[i].end + align <= W
    }

    /** Whether the search may start above the cached area. */
    predicate UsesCache(size: nat, align: nat, vstart: nat)
      requires align > 0
      reads this
    {
      && cache.Some? && size >= cachedHole && vstart >= cachedVstart && align >= cachedAlign
      && AlignUp(cache.value.end, align) >= vstart
    }

    /** The search starts above the cached area for a request of exactly the cached hole size. */
    predicate Risky(size: nat, align: nat, vstart: nat)
      requires align > 0
      reads this
    {
      UsesCache(size, align, vstart) && size == cachedHole
    }

    /** Where the search starts. */
    function Floor(size: nat, align: nat, vstart: nat): nat
      requires align > 0
      reads this
    {
      if UsesCache(size, align, vstart) then AlignUp(cache.value.end, align) else vstart
    }

    constructor (vmallocStart: nat, vmallocEnd: nat)
      requires vmallocStart < vmallocEnd < W
      ensures Valid() && areas == lazy == [] && cache == None && cachedHole == 0 && pcpuHole == vmallocEnd
      ensures this.vmallocStart == vmallocStart && this.vmallocEnd == vmallocEnd
    {
      this.vmallocStart, this.vmallocEnd := vmallocStart, vmallocEnd;
      areas, lazy, cache := [], [], None;
      cachedHole, cachedVstart, cachedAlign, pcpuHole := 0, 0, 0, vmallocEnd;
    }

    method InsertArea(a: Area)
      requires Valid() && a.start < a.end < W && Clear(areas, a.start, a.end)
      modifies this`areas
      ensures Valid() && (forall x :: x in areas <==> x == a || x in old(areas))
      ensures |areas| == |old(areas)| + 1
    {
      var k := FindPlace(areas, a);
      InsertSorted(areas, k, a);
      if cache.Some? {
        HolesKept(areas, InsertAt(areas, k, a), cachedVstart, cachedAlign, cache.value.end, cachedHole);
      }
      areas := InsertAt(areas, k, a);
    }

    /** Drop the cache if the request is more permissive. */
    method DropCache(size: nat, align: nat, vstart: nat)
      requires Valid() && PowerOfTwo(align)
      modifies this`cache, this`cachedHole, this`cachedVstart, this`cachedAlign
      ensures Valid() && cachedVstart == vstart && cachedAlign == align
      ensures old(UsesCache(size, align, vstart)) ==> cache == old(cache) && cachedHole == old(cachedHole)
      ensures !old(UsesCache(size, align, vstart)) ==> cache == None && cachedHole == 0
    {
      if cache.None? || size < cachedHole || vstart < cachedVstart || align < cachedAlign {
        cachedHole, cache := 0, None;
      } else {
        HolesForStricter(areas, cachedVstart, cachedAlign, cache.value.end, cachedHole, vstart, align);
      }
      cachedVstart, cachedAlign := vstart, align;
      if cache.Some? && AlignUp(cache.value.end, align) < vstart {
        cachedHole, cache := 0, None;
      }
    }

    /** Find the starting point. */
    method Start(size: nat, align: nat, vstart: nat, vend: nat) returns (addr: nat, i: nat)
      requires Valid() && NoWrap(align) && vstart + align <= W && PowerOfTwo(align)
      modifies this`cache, this`cachedHole, this`cachedVstart, this`cachedAlign
      ensures Valid() && cachedVstart == vstart && cachedAlign == align
      ensures old(UsesCache(size, align, vstart)) ==> cache == old(cache) && cachedHole == old(cachedHole)
      ensures !old(UsesCache(size, align, vstart)) ==> cache == None && cachedHole == 0
      ensures Reached(areas, i, old(Floor(size, align, vstart)), addr, size, align, vstart, vend)
      ensures HolesBelow(areas, vstart, align, addr, cachedHole)
    {
      DropCache(size, align, vstart);
      if cache.Some? {
        i :| 0 <= i < |areas| && areas[i] == cache.value;
        addr := AlignUp(cache.value.end, align);
        StartAtCache(areas, i, size, align, vstart, vend);
        HolesUpToAligned(areas, vstart, align, cache.value.end, cachedHole);
      } else {
        addr := AlignUp(vstart, align);
        i := FindFirst(areas, addr);
        StartAtVstart(areas, i, size, align, vstart, vend);
        HolesUpToAligned(areas, vstart, align, vstart, cachedHole);
      }
    }

    /** One search of alloc_vmap_area, from `retry` to `found` or `overflow`: first fit from the floor upwards. Nothing fits
        below the floor unless the request is of exactly the cached hole size. */
    method Search(size: nat, align: nat, vstart: nat, vend: nat) returns (r: Option<nat>)
      requires Valid() && 0 < size < W && NoWrap(align) && vstart + align <= W && vend < W && PowerOfTwo(align)
      modifies this`cache, this`cachedHole, this`cachedVstart, this`cachedAlign
      ensures Valid() && cachedVstart == vstart && cachedAlign == align
      ensures cache == if old(UsesCache(size, align, vstart)) then old(cache) else None
      ensures Recorded(areas, size, vstart, align, if old(UsesCache(size, align,
              vstart)) then old(cachedHole) else 0, cachedHole)
      ensures r.None? ==> forall b: nat :: Fits(areas, b, size, align, vstart, vend) ==> b < old(Floor(size, align, vstart))
      ensures r.Some? ==> Fits(areas, r.value, size, align, vstart, vend) && r.value >= old(Floor(size, align, vstart))
      ensures r.Some? ==> forall b: nat :: Fits(areas, b, size, align, vstart, vend) ==>
              b < old(Floor(size, align, vstart)) || r.value <= b
      ensures r.Some? ==> HolesBelow(areas, vstart, align, r.value, cachedHole)
      ensures !old(Risky(size, align, vstart)) ==>
                forall b: nat :: Fits(areas, b, size, align, vstart, vend) ==> b >= old(Floor(size, align, vstart))
    {
      ghost var floor := Floor(size, align, vstart);
      if !Risky(size, align, vstart) {
        NothingBelowFloor(this, size, align, vstart, vend);
      }
      var addr, i := Start(size, align, vstart, vend);
      r, cachedHole := Walk(areas, size, align, vstart, vend, floor, addr, i, cachedHole);
    }

    /** __free_vmap_area: the cache moves to the area before the freed one, or is dropped; it never names the freed area. */
    method FreeArea(a: Area)
      requires Valid() && a in areas && a !in lazy
      modifies this`areas, this`cache, this`pcpuHole
      ensures Valid() && (forall x :: x in areas <==> x in old(areas) && x != a)
      ensures pcpuHole == if vmallocStart < a.end <= vmallocEnd && a.end > old(pcpuHole) then a.end else old(pcpuHole)
      ensures old(cache.None?) || a.end < cachedVstart ==> cache == None
      ensures old(cache.Some?) && a.end >= cachedVstart && a.start > old(cache.value.start) ==> cache == old(cache)
      ensures old(cache.Some?) && a.end >= cachedVstart && a.start <= old(cache.value.start) ==> Before(areas, a, cache)
      ensures cache.Some? ==> old(cache.Some?) && cache.value.end <= old(cache.value.end)
    {
      var k :| 0 <= k < |areas| && areas[k] == a;
      RemoveSorted(areas, k);
      var left := areas[..k] + areas[k + 1..];
      if cache.Some? {
        if a.end < cachedVstart {
          cache := None;
        } else {
          cache := CacheAfterFree(areas, k, left, cache.value, cachedVstart, cachedAlign, cachedHole);
        }
      }
      areas := left;
      if vmallocStart < a.end <= vmallocEnd && a.end > pcpuHole {
        pcpuHole := a.end;
      }
    }

    /** free_vmap_area_noflush: the area goes on the purge list and stays in the tree. */
    method FreeLazily(a: Area)
      requires Valid() && a in areas && a !in lazy
      modifies this`lazy
      ensures Valid() && lazy == [a] + old(lazy)
    {
      lazy := [a] + lazy;
    }

    /** __purge_vmap_area_lazy: exactly the areas on the purge list leave the tree. */
    method PurgeLazy()
      requires Valid()
      modifies this`areas, this`cache, this`pcpuHole, this`lazy
      ensures Valid() && lazy == [] && (forall x :: x in areas <==> x in old(areas) && x !in old(lazy))
      ensures cache.Some? ==> old(cache.Some?) && cache.value.end <= old(cache.value.end)
      ensures old(lazy) == [] ==> cache == old(cache)
    {
      var valist := lazy;
      lazy := [];
      for i := 0 to |valist|
        invariant Valid() && lazy == []
        invariant forall x :: x in areas <==> x in old(areas) && x !in valist[..i]
        invariant cache.Some? ==> old(cache.Some?) && cache.value.end <= old(cache.value.end)
        invariant i == 0 ==> cache == old(cache)
      {
        assert valist[i] !in valist[..i];
        FreeArea(valist[i]);
        assert valist[..i + 1] == valist[..i] + [valist[i]];
      }
      assert valist[..|valist|] == valist;
    }

    /** Where every fit is found: from vstart on, unless the request is of exactly the cached hole size. */
    function SureFrom(size: nat, align: nat, vstart: nat): nat
      requires align > 0
      reads this
    {
      if Risky(size, align, vstart) then Floor(size, align, vstart) else vstart
    }

    /** alloc_vmap_area, with one purge before giving up. If anything fits, the lowest fit is taken and nothing leaves the
        tree; otherwise exactly the lazily freed areas leave it, and the lowest fit is taken then, if there is one. */
    method AllocVmapArea(size: nat, align: nat, vstart: nat, vend: nat) returns (r: Option<Area>)
      requires Valid() && 0 < size < W && NoWrap(align) && vstart + align <= W && vend < W && PowerOfTwo(align)
      modifies this
      ensures Valid()
      ensures r.Some? ==> r.value in areas && r.value.end == r.value.start + size && cache == r
      ensures old(FitsFrom(areas, [], SureFrom(size, align, vstart), size, align, vstart, vend)) ==>
                && r.Some? && Lowest(old(areas), [], old(SureFrom(size, align, vstart)), r.value.start, size, align,
                    vstart, vend)
                && (forall x :: x in areas <==> x in old(areas) || x == r.value) && lazy == old(lazy)
                    && pcpuHole == old(pcpuHole)
      ensures !old(FitsFrom(areas, [], SureFrom(size, align, vstart), size, align, vstart, vend)) ==>
                && (r.Some? ==> Lowest(old(areas), old(lazy), old(SureFrom(size, align, vstart)), r.value.start,
                    size, align, vstart, vend))
                && (r.None? ==> !FitsFrom(old(areas), old(lazy), old(SureFrom(size, align, vstart)), size, align,
                    vstart, vend))
                && (forall x :: x in areas <==> (x in old(areas) && x !in old(lazy)) || r == Some(x)) && lazy == []
      ensures r.Some? && old(lazy) == [] ==> r.value.start >= old(Floor(size, align, vstart))
      ensures cachedVstart == vstart && cachedAlign == align
      ensures old(FitsFrom(areas, [], SureFrom(size, align, vstart), size, align, vstart, vend)) ==>
                Recorded(old(areas), size, vstart, align, if old(UsesCache(size, align,
                    vstart)) then old(cachedHole) else 0, cachedHole)
    {
      ghost var floor, sure := Floor(size, align, vstart), SureFrom(size, align, vstart);
      var found := Search(size, align, vstart, vend);
      SearchMeans(areas, [], areas, found, floor, sure, size, align, vstart, vend);
      if found.None? {
        found := PurgeAndSearch(size, align, vstart, vend, sure);
        if found.None? { return None; }
      }
      var a := Area(found.value, found.value + size);
      TakeArea(a);
      return Some(a);
    }

    /** The end of a search that found a place: the new area is inserted and cached. */
    method TakeArea(a: Area)
      requires Valid() && a.start < a.end < W && Clear(areas, a.start, a.end) && PowerOfTwo(cachedAlign)
      requires HolesBelow(areas, cachedVstart, cachedAlign, a.start, cachedHole)
      modifies this`areas, this`cache
      ensures Valid() && (forall x :: x in areas <==> x == a || x in old(areas)) && cache == Some(a)
    {
      InsertArea(a);
      HolesKept(old(areas), areas, cachedVstart, cachedAlign, a.start, cachedHole);
      HolesUpToEnd(areas, cachedVstart, cachedAlign, a, cachedHole);
      cache := Some(a);
    }

    /** The second try. The first one recorded the request, so this one starts no higher, and misses nothing that the first
        one could not have missed. */
    method PurgeAndSearch(size: nat, align: nat, vstart: nat, vend: nat, ghost sure: nat) returns (r: Option<nat>)
      requires Valid() && 0 < size < W && NoWrap(align) && vstart + align <= W && vend < W && PowerOfTwo(align)
      requires cachedVstart == vstart <= sure && cachedAlign == align
      requires cache.Some? ==> AlignUp(cache.value.end, align) <= sure || cachedHole < size
      modifies this
      ensures Valid() && cachedVstart == vstart && cachedAlign == align
      ensures r.Some? ==> Lowest(old(areas), old(lazy), sure, r.value, size, align, vstart, vend)
      ensures r.Some? ==> Fits(areas, r.value, size, align, vstart, vend)
      ensures r.Some? ==> HolesBelow(areas, vstart, align, r.value, cachedHole)
      ensures r.None? ==> !FitsFrom(old(areas), old(lazy), sure, size, align, vstart, vend)
      ensures (forall x :: x in areas <==> x in old(areas) && x !in old(lazy)) && lazy == []
      ensures r.Some? && old(lazy) == [] ==> r.value >= old(Floor(size, align, vstart))
    {
      PurgeLazy();
      SubsetNoWrap(old(areas), areas, align);
      if cache.Some? {
        assert cache.value.end + align <= W && old(cache.value.end) + align <= W;
        UpOrder(cache.value.end, old(cache.value.end), align);
      }
      ghost var floor, tree := Floor(size, align, vstart), areas;
      assert floor <= sure || !Risky(size, align, vstart);
      r := Search(size, align, vstart, vend);
      SearchMeans(old(areas), old(lazy), areas, r, floor, sure, size, align, vstart, vend);
    }
  }

  lemma UpOrder(x: nat, y: nat, align: nat)
    requires align > 0 && x <= y && y + align <= W
    ensures AlignUp(x, align) <= AlignUp(y, align)
  {
    UpFacts(x, align);
    UpFacts(y, align);
  }

  /** What a search from `floor` on among the areas left means for the whole list. */
  lemma SearchMeans(areas: seq<Area>, gone: seq<Area>, left: seq<Area>, r: Option<nat>, floor: nat, sure: nat,
                    size: nat, align: nat, vstart: nat, vend: nat)
    requires align > 0 && forall x :: x in left <==> x in areas && x !in gone
    requires sure >= floor || forall b: nat :: Fits(left, b, size, align, vstart, vend) ==> b >= floor
    requires r.None? ==> forall b: nat :: Fits(left, b, size, align, vstart, vend) ==> b < floor
    requires r.Some? ==> Fits(left, r.value, size, align, vstart, vend)
    requires r.Some? ==> forall b: nat :: Fits(left, b, size, align, vstart, vend) ==> b < floor || r.value <= b
    ensures r.Some? ==> Lowest(areas, gone, sure, r.value, size, align, vstart, vend)
    ensures r.Some? && r.value >= sure ==> FitsFrom(areas, gone, sure, size, align, vstart, vend)
    ensures r.None? ==> !FitsFrom(areas, gone, sure, size, align, vstart, vend)
  {
    forall b: nat
      ensures FitsWithout(areas, gone, b, size, align, vstart, vend) <==> Fits(left, b, size, align, vstart, vend)
    {
      FitsLeft(areas, gone, left, b, size, align, vstart, vend);
    }
  }

  lemma FitsLeft(areas: seq<Area>, gone: seq<Area>, left: seq<Area>, b: nat, size: nat, align: nat, vstart: nat, vend: nat)
    requires align > 0 && forall x :: x in left <==> x in areas && x !in gone
    ensures FitsWithout(areas, gone, b, size, align, vstart, vend) <==> Fits(left, b, size, align, vstart, vend)
  {
    if FitsWithout(areas, gone, b, size, align, vstart, vend) {
      forall i | 0 <= i < |left| ensures left[i].end <= b || b + size <= left[i].start { assert left[i] in left; }
    }
  }

  lemma SubsetNoWrap(before: seq<Area>, after: seq<Area>, align: nat)
    requires forall x :: x in after ==> x in before
    requires forall i :: 0 <= i < |before| ==> before[i].end + align <= W
    ensures forall i :: 0 <= i < |after| ==> after[i].end + align <= W
  {
    forall i | 0 <= i < |after|
      ensures after[i].end + align <= W
    {
      assert after[i] in before;
    }
  }

  // ----- What the search can miss

  lemma BelowCache(v: Vmap, b: nat, size: nat, align: nat, vstart: nat, vend: nat)
    requires v.Valid() && size > 0 && v.NoWrap(align) && PowerOfTwo(align) && v.UsesCache(size, align, vstart)
    requires Fits(v.areas, b, size, align, vstart, vend) && b < v.Floor(size, align, vstart)
    ensures b < v.cache.value.end && size == v.cachedHole
  {
    UpFacts(v.cache.value.end, align);
    PowersNest(v.cachedAlign, align, b);
    assert Gap(v.areas, b, size);
  }

  lemma NothingBelowFloor(v: Vmap, size: nat, align: nat, vstart: nat, vend: nat)
    requires v.Valid() && size > 0 && v.NoWrap(align) && PowerOfTwo(align) && !v.Risky(size, align, vstart)
    ensures forall b: nat :: Fits(v.areas, b, size, align, vstart, vend) ==> b >= v.Floor(size, align, vstart)
  {
    forall b: nat | Fits(v.areas, b, size, align, vstart, vend)
      ensures b >= v.Floor(size, align, vstart)
    {
      if v.UsesCache(size, align, vstart) && b < v.Floor(size, align, vstart) {
        BelowCache(v, b, size, align, vstart, vend);
      }
    }
  }

  /** The request fits in front of area i. */
  predicate FitsInFront(areas: seq<Area>, i: nat, size: nat, align: nat, vstart: nat, vend: nat)
    requires align > 0 && i < |areas|
  {
    var from := if i == 0 || areas[i - 1].end < vstart then vstart else areas[i - 1].end;
    AlignUp(from, align) + size <= areas[i].start && AlignUp(from, align) + size <= vend
  }

  lemma FrontFits(areas: seq<Area>, i: nat, size: nat, align: nat, vstart: nat, vend: nat) returns (b: nat)
    requires Sorted(areas) && align > 0 && vstart + align <= W && i < |areas| && size > 0
    requires (forall j :: 0 <= j < |areas| ==> areas[j].end + align <= W) && FitsInFront(areas, i, size, align, vstart, vend)
    ensures Fits(areas, b, size, align, vstart, vend) && b < areas[i].end
  {
    var from := if i == 0 || areas[i - 1].end < vstart then vstart else areas[i - 1].end;
    UpFacts(from, align);
    b := AlignUp(from, align);
    forall j | 0 <= j < |areas|
      ensures areas[j].end <= b || b + size <= areas[j].start
    {
      assert j < i - 1 ==> areas[j].end <= areas[i - 1].start;
      assert j > i ==> areas[i].end <= areas[j].start;
    }
  }

  /** The first area that ends above a fit has room in front of it. */
  lemma {:induction false} FitIsInFront(areas: seq<Area>, b: nat, c: nat, size: nat, align: nat, vstart: nat,
      vend: nat) returns (i: nat)
    requires Sorted(areas) && align > 0 && vstart + align <= W && c < |areas| && size > 0
    requires forall j :: 0 <= j < |areas| ==> areas[j].end + align <= W
    requires Fits(areas, b, size, align, vstart, vend) && b < areas[c].end
    ensures i <= c && FitsInFront(areas, i, size, align, vstart, vend)
    decreases c
  {
    if c > 0 && b < areas[c - 1].end {
      i := FitIsInFront(areas, b, c - 1, size, align, vstart, vend);
    } else {
      i := c;
      UpFacts(if i == 0 || areas[i - 1].end < vstart then vstart else areas[i - 1].end, align);
    }
  }

  /** The search passes over something that fits. */
  ghost predicate PassesOver(v: Vmap, size: nat, align: nat, vstart: nat, vend: nat)
    requires align > 0
    reads v
  {
    exists b: nat :: b < v.Floor(size, align, vstart) && Fits(v.areas, b, size, align, vstart, vend)
  }

  /** The request fits in front of an area that ends at or below `limit`. */
  ghost predicate RoomBelow(areas: seq<Area>, limit: nat, size: nat, align: nat, vstart: nat, vend: nat)
    requires align > 0
  {
    exists i: nat :: i < |areas| && areas[i].end <= limit && FitsInFront(areas, i, size, align, vstart, vend)
  }

  lemma MissedMeansRoom(areas: seq<Area>, c: Area, b: nat, size: nat, align: nat, vstart: nat, vend: nat)
    requires Sorted(areas) && c in areas && align > 0 && size > 0 && vstart + align <= W
    requires forall j :: 0 <= j < |areas| ==> areas[j].end + align <= W
    requires Fits(areas, b, size, align, vstart, vend) && b < c.end
    ensures RoomBelow(areas, c.end, size, align, vstart, vend)
  {
    var k: nat :| k < |areas| && areas[k] == c;
    var i := FitIsInFront(areas, b, k, size, align, vstart, vend);
    assert i < k ==> areas[i].end <= areas[k].start;
  }

  lemma RoomIsMissed(areas: seq<Area>, limit: nat, size: nat, align: nat, vstart: nat, vend: nat) returns (b: nat)
    requires Sorted(areas) && align > 0 && size > 0 && vstart + align <= W
    requires (forall j :: 0 <= j < |areas| ==> areas[j].end + align <= W)
             && RoomBelow(areas, limit, size, align, vstart, vend)
    ensures Fits(areas, b, size, align, vstart, vend) && b < limit
  {
    var i: nat :| i < |areas| && areas[i].end <= limit && FitsInFront(areas, i, size, align, vstart, vend);
    b := FrontFits(areas, i, size, align, vstart, vend);
  }

  /** Exactly when the search passes over something that fits: it starts above the cached area, the request is of exactly the
      cached hole size, and there is room for it in front of that area or an earlier one. */
  lemma MissedExactly(v: Vmap, size: nat, align: nat, vstart: nat, vend: nat)
    requires v.Valid() && size > 0 && v.NoWrap(align) && PowerOfTwo(align) && vstart + align <= W
    ensures PassesOver(v, size, align, vstart, vend) <==>
              v.Risky(size, align, vstart) && RoomBelow(v.areas, v.cache.value.end, size, align, vstart, vend)
  {
    if PassesOver(v, size, align, vstart, vend) {
      var b: nat :| b < v.Floor(size, align, vstart) && Fits(v.areas, b, size, align, vstart, vend);
      BelowCache(v, b, size, align, vstart, vend);
      MissedMeansRoom(v.areas, v.cache.value, b, size, align, vstart, vend);
    } else if v.Risky(size, align, vstart) && RoomBelow(v.areas, v.cache.value.end, size, align, vstart, vend) {
      var b := RoomIsMissed(v.areas, v.cache.value.end, size, align, vstart, vend);
      UpFacts(v.cache.value.end, align);
    }
  }
}
