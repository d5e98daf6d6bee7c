/** memblock's region arrays as values: what adding, merging and cutting do to them, and to the map from addresses to flags
    that they stand for. */
module MemblockRegions {

  /** PHYS_ADDR_MAX. */
  const TOP: nat := 0xffff_ffff_ffff_ffff

  /** A flag word, as the set of its bits. */
  type Flags = set<nat>

  datatype Region = Region(base: nat, size: nat, flags: Flags)

  function End(r: Region): nat {
    r.base + r.size
  }

  datatype Mark = Absent | Present(flags: Flags)

  /** What address a is: the flags of the region that holds it. */
  function View(rs: seq<Region>, a: nat): Mark {
    if rs == [] then Absent
    else if rs[0].base <= a < End(rs[0]) then Present(rs[0].flags)
    else View(rs[1..], a)
  }

  /** Not empty, in order from lo on, disjoint, and below the end of memory. */
  ghost predicate Sorted(rs: seq<Region>, lo: nat) {
    rs == [] || (lo <= rs[0].base && rs[0].size > 0 && End(rs[0]) <= TOP && Sorted(rs[1..], End(rs[0])))
  }

  function Sum(rs: seq<Region>): nat {
    if rs == [] then 0 else rs[0].size + Sum(rs[1..])
  }

  predicate Mergeable(r: Region, s: Region) {
    End(r) == s.base && r.flags == s.flags
  }

  /** No two neighbours could be one region. */
  ghost predicate Minimal(rs: seq<Region>) {
    forall i :: 0 <= i < |rs| - 1 ==> !Mergeable(rs[i], rs[i + 1])
  }

  // ---------------------------------------------------------------- lists

  lemma Cons(r: Region, rest: seq<Region>)
    ensures ([r] + rest)[0] == r && ([r] + rest)[1..] == rest
  {
  }

  lemma {:induction false} SortedLower(rs: seq<Region>, lo: nat, low: nat)
    requires Sorted(rs, lo) && low <= lo
    ensures Sorted(rs, low)
  {
  }

  lemma {:induction false} NothingBelow(rs: seq<Region>, lo: nat, a: nat)
    requires Sorted(rs, lo) && a < lo
    ensures View(rs, a) == Absent
  {
    if rs != [] {
      NothingBelow(rs[1..], End(rs[0]), a);
    }
  }

  lemma {:induction false} SortedAt(rs: seq<Region>, lo: nat, i: nat, j: nat)
    requires Sorted(rs, lo) && i < j < |rs|
    ensures rs[i].size > 0 && lo <= rs[i].base && End(rs[i]) <= rs[j].base && End(rs[j]) <= TOP && rs[j].size > 0
  {
    if i > 0 {
      SortedAt(rs[1..], End(rs[0]), i - 1, j - 1);
    } else if j > 1 {
      SortedAt(rs[1..], End(rs[0]), 0, j - 1);
    }
  }

  lemma {:induction false} SortedOne(rs: seq<Region>, lo: nat, i: nat)
    requires Sorted(rs, lo) && i < |rs|
    ensures rs[i].size > 0 && lo <= rs[i].base && End(rs[i]) <= TOP
  {
    if i > 0 {
      SortedOne(rs[1..], End(rs[0]), i - 1);
    }
  }

  lemma {:induction false} ViewAppend(x: seq<Region>, y: seq<Region>, a: nat)
    ensures View(x + y, a) == if View(x, a).Present? then View(x, a) else View(y, a)
  {
    if x == [] {
      assert x + y == y;
    } else {
      assert (x + y)[1..] == x[1..] + y;
      ViewAppend(x[1..], y, a);
    }
  }

  lemma {:induction false} SumAppend(x: seq<Region>, y: seq<Region>)
    ensures Sum(x + y) == Sum(x) + Sum(y)
  {
    if x == [] {
      assert x + y == y;
    } else {
      assert (x + y)[1..] == x[1..] + y;
      SumAppend(x[1..], y);
    }
  }

  // ---------------------------------------------------------------- adding

  /** memblock_add_range() before it merges: the parts of [base, end) that no region holds become regions of their own. */
  function Added(rs: seq<Region>, base: nat, end: nat, flags: Flags): seq<Region> {
    if base >= end then rs
    else if rs == [] || rs[0].base >= end then [Region(base, end - base, flags)] + rs
    else if End(rs[0]) <= base then [rs[0]] + Added(rs[1..], base, end, flags)
    else Before(rs[0], base, flags) + ([rs[0]] + Added(rs[1..], if End(rs[0]) < end then End(rs[0]) else end, end, flags))
  }

  /** The part of the new area below a region that overlaps it. */
  function Before(r: Region, base: nat, flags: Flags): seq<Region> {
    if r.base > base then [Region(base, r.base - base, flags)] else []
  }

  lemma {:induction false} AddedSorted(rs: seq<Region>, lo: nat, base: nat, end: nat, flags: Flags)
    requires Sorted(rs, lo) && lo <= base && end <= TOP
    ensures Sorted(Added(rs, base, end, flags), lo)
  {
    if base < end {
      if rs == [] || rs[0].base >= end {
        Cons(Region(base, end - base, flags), rs);
      } else if End(rs[0]) <= base {
        AddedSorted(rs[1..], End(rs[0]), base, end, flags);
        Cons(rs[0], Added(rs[1..], base, end, flags));
      } else {
        var next := if End(rs[0]) < end then End(rs[0]) else end;
        if End(rs[0]) < end {
          AddedSorted(rs[1..], End(rs[0]), next, end, flags);
        }
        var tail := Added(rs[1..], next, end, flags);
        Cons(rs[0], tail);
        if rs[0].base > base {
          Cons(Region(base, rs[0].base - base, flags), [rs[0]] + tail);
        } else {
          assert Before(rs[0], base, flags) + ([rs[0]] + tail) == [rs[0]] + tail;
        }
      }
    }
  }

  /** Adding is union, and what was there keeps its flags. */
  lemma {:induction false} AddedView(rs: seq<Region>, lo: nat, base: nat, end: nat, flags: Flags, a: nat)
    requires Sorted(rs, lo) && lo <= base
    ensures View(Added(rs, base, end, flags), a) ==
            if View(rs, a).Present? then View(rs, a) else if base <= a < end then Present(flags) else Absent
  {
    if base < end {
      if rs == [] || rs[0].base >= end {
        Cons(Region(base, end - base, flags), rs);
        if base <= a < end {
          if rs != [] {
            SortedLower(rs, rs[0].base, rs[0].base);
            NothingBelow(rs, rs[0].base, a);
          }
        }
      } else {
        AddedViewStep(rs, lo, base, end, flags, a);
        var next := if End(rs[0]) <= base then base else if End(rs[0]) < end then End(rs[0]) else end;
        if End(rs[0]) < end {
          AddedView(rs[1..], End(rs[0]), next, end, flags, a);
        }
        if a < End(rs[0]) {
          NothingBelow(rs[1..], End(rs[0]), a);
        }
      }
    }
  }

  lemma AddedViewStep(rs: seq<Region>, lo: nat, base: nat, end: nat, flags: Flags, a: nat)
    requires base < end && rs != [] && rs[0].base < end
    ensures var next := if End(rs[0]) <= base then base else if End(rs[0]) < end then End(rs[0]) else end;
            View(Added(rs, base, end, flags), a) ==
              if base <= a < rs[0].base && End(rs[0]) > base then Present(flags)
              else if rs[0].base <= a < End(rs[0]) then Present(rs[0].flags)
              else View(Added(rs[1..], next, end, flags), a)
  {
    var next := if End(rs[0]) <= base then base else if End(rs[0]) < end then End(rs[0]) else end;
    var tail := Added(rs[1..], next, end, flags);
    Cons(rs[0], tail);
    if End(rs[0]) > base && rs[0].base > base {
      Cons(Region(base, rs[0].base - base, flags), [rs[0]] + tail);
    } else if End(rs[0]) > base {
      assert Before(rs[0], base, flags) + ([rs[0]] + tail) == [rs[0]] + tail;
    }
  }

  // ---------------------------------------------------------------- merging

  function Joined(r: Region, s: Region): Region {
    Region(r.base, r.size + s.size, r.flags)
  }

  /** memblock_merge_regions(). */
  function Merged(rs: seq<Region>): seq<Region>
    decreases |rs|
  {
    if |rs| < 2 then rs
    else if Mergeable(rs[0], rs[1]) then Merged([Joined(rs[0], rs[1])] + rs[2..])
    else [rs[0]] + Merged(rs[1..])
  }

  lemma JoinedCons(rs: seq<Region>)
    requires |rs| >= 2
    ensures var j := [Joined(rs[0], rs[1])] + rs[2..];
            |j| == |rs| - 1 && j[0] == Joined(rs[0], rs[1]) && j[1..] == rs[1..][1..] && rs[1..][0] == rs[1]
  {
  }

  /** Merging keeps the order and the total, and leaves nothing to merge. */
  lemma {:induction false} MergedSorted(rs: seq<Region>, lo: nat)
    requires Sorted(rs, lo)
    ensures Sorted(Merged(rs), lo) && Sum(Merged(rs)) == Sum(rs) && |Merged(rs)| <= |rs|
    ensures rs != [] ==> Merged(rs) != [] && Merged(rs)[0].base == rs[0].base && Merged(rs)[0].flags == rs[0].flags
    ensures Minimal(Merged(rs))
    decreases |rs|
  {
    if |rs| >= 2 {
      JoinedCons(rs);
      if Mergeable(rs[0], rs[1]) {
        MergedSorted([Joined(rs[0], rs[1])] + rs[2..], lo);
      } else {
        MergedSorted(rs[1..], End(rs[0]));
        Cons(rs[0], Merged(rs[1..]));
        MinimalCons(rs[0], Merged(rs[1..]));
      }
    }
  }

  lemma MinimalCons(r: Region, rs: seq<Region>)
    requires Minimal(rs) && (rs != [] ==> !Mergeable(r, rs[0]))
    ensures Minimal([r] + rs)
  {
    var m := [r] + rs;
    forall i | 0 <= i < |m| - 1
      ensures !Mergeable(m[i], m[i + 1])
    {
      if i > 0 {
        assert m[i] == rs[i - 1] && m[i + 1] == rs[i];
      }
    }
  }

  /** Merging changes no address. */
  lemma {:induction false} MergedView(rs: seq<Region>, a: nat)
    ensures View(Merged(rs), a) == View(rs, a)
    decreases |rs|
  {
    if |rs| >= 2 {
      JoinedCons(rs);
      if Mergeable(rs[0], rs[1]) {
        MergedView([Joined(rs[0], rs[1])] + rs[2..], a);
      } else {
        MergedView(rs[1..], a);
        Cons(rs[0], Merged(rs[1..]));
      }
    }
  }

  // ---------------------------------------------------------------- cutting

  /** What lies below x, a region across x being cut. */
  function Below(rs: seq<Region>, x: nat): seq<Region> {
    if rs == [] || rs[0].base >= x then []
    else if End(rs[0]) <= x then [rs[0]] + Below(rs[1..], x)
    else [Region(rs[0].base, x - rs[0].base, rs[0].flags)]
  }

  /** What lies from x on. */
  function Above(rs: seq<Region>, x: nat): seq<Region> {
    if rs == [] || rs[0].base >= x then rs
    else if End(rs[0]) <= x then Above(rs[1..], x)
    else [Region(x, End(rs[0]) - x, rs[0].flags)] + rs[1..]
  }

  /** Cutting adds at most one region and loses nothing. */
  lemma {:induction false} CutKeeps(rs: seq<Region>, lo: nat, x: nat)
    requires Sorted(rs, lo)
    ensures Sorted(Below(rs, x), lo) && Sorted(Above(rs, x), x) && Sorted(Above(rs, x), lo)
    ensures Below(rs, x) != [] ==> End(Below(rs, x)[|Below(rs, x)| - 1]) <= x
    ensures Sum(Below(rs, x)) + Sum(Above(rs, x)) == Sum(rs)
    ensures |rs| <= |Below(rs, x)| + |Above(rs, x)| <= |rs| + 1
  {
    if rs != [] && rs[0].base < x {
      if End(rs[0]) <= x {
        CutKeeps(rs[1..], End(rs[0]), x);
        Cons(rs[0], Below(rs[1..], x));
        SortedLower(Above(rs[1..], x), End(rs[0]), lo);
      } else {
        Cons(Region(x, End(rs[0]) - x, rs[0].flags), rs[1..]);
      }
    }
  }

  lemma {:induction false} CutView(rs: seq<Region>, lo: nat, x: nat, a: nat)
    requires Sorted(rs, lo)
    ensures View(Below(rs, x), a) == if a < x then View(rs, a) else Absent
    ensures View(Above(rs, x), a) == if a >= x then View(rs, a) else Absent
  {
    if rs != [] {
      if rs[0].base >= x {
        if a < x {
          NothingBelow(rs, rs[0].base, a);
        }
      } else if End(rs[0]) <= x {
        CutView(rs[1..], End(rs[0]), x, a);
        Cons(rs[0], Below(rs[1..], x));
      } else {
        Cons(Region(x, End(rs[0]) - x, rs[0].flags), rs[1..]);
        if a < End(rs[0]) {
          NothingBelow(rs[1..], End(rs[0]), a);
        }
      }
    }
  }

  /** What memblock_isolate_range() makes of the regions: below base, inside the range, from end on. */
  function Isolated(rs: seq<Region>, base: nat, end: nat): seq<Region> {
    Below(rs, base) + Inside(rs, base, end) + Above(Above(rs, base), end)
  }

  function Inside(rs: seq<Region>, base: nat, end: nat): seq<Region> {
    Below(Above(rs, base), end)
  }

  /** Isolating changes no address and no total, and adds at most two regions. */
  lemma IsolatedKeeps(rs: seq<Region>, base: nat, end: nat)
    requires Sorted(rs, 0) && base < end
    ensures Sum(Isolated(rs, base, end)) == Sum(rs) && |rs| <= |Isolated(rs, base, end)| <= |rs| + 2
    ensures Sum(Isolated(rs, base, end)) == Sum(Below(rs, base)) + Sum(Inside(rs, base, end)) + Sum(Above(Above(rs,
            base), end))
  {
    CutKeeps(rs, 0, base);
    CutKeeps(Above(rs, base), base, end);
    SumAppend(Below(rs, base) + Inside(rs, base, end), Above(Above(rs, base), end));
    SumAppend(Below(rs, base), Inside(rs, base, end));
  }

  /** The three parts, address by address. */
  lemma PartsView(rs: seq<Region>, base: nat, end: nat, a: nat)
    requires Sorted(rs, 0) && base < end
    ensures View(Below(rs, base), a) == if a < base then View(rs, a) else Absent
    ensures View(Inside(rs, base, end), a) == if base <= a < end then View(rs, a) else Absent
    ensures View(Above(Above(rs, base), end), a) == if end <= a then View(rs, a) else Absent
  {
    CutKeeps(rs, 0, base);
    CutView(rs, 0, base, a);
    CutView(Above(rs, base), base, end, a);
  }

  /** Regions in order before regions in order. */
  lemma {:induction false} SortedAppend(x: seq<Region>, y: seq<Region>, lo: nat, mid: nat)
    requires Sorted(x, lo) && Sorted(y, mid) && lo <= mid && (x != [] ==> End(x[|x| - 1]) <= mid)
    ensures Sorted(x + y, lo)
  {
    if x == [] {
      assert x + y == y;
      SortedLower(y, mid, lo);
    } else {
      assert (x + y)[1..] == x[1..] + y;
      if |x| > 1 {
        assert x[1..][|x| - 2] == x[|x| - 1];
        SortedAt(x, lo, 0, |x| - 1);
      }
      SortedAppend(x[1..], y, End(x[0]), mid);
    }
  }

  lemma {:induction false} MinimalTail(rs: seq<Region>)
    requires Minimal(rs) && rs != []
    ensures Minimal(rs[1..])
  {
    forall i | 0 <= i < |rs[1..]| - 1
      ensures !Mergeable(rs[1..][i], rs[1..][i + 1])
    {
      assert !Mergeable(rs[i + 1], rs[i + 2]);
    }
  }

  lemma {:induction false} CutMinimal(rs: seq<Region>, lo: nat, x: nat)
    requires Sorted(rs, lo) && Minimal(rs)
    ensures Minimal(Below(rs, x)) && Minimal(Above(rs, x))
    ensures Below(rs, x) != [] ==> rs != [] && Below(rs, x)[0].base == rs[0].base && Below(rs, x)[0].flags == rs[0].flags
  {
    if rs != [] {
      MinimalTail(rs);
      if rs[0].base < x {
        if End(rs[0]) <= x {
          CutMinimal(rs[1..], End(rs[0]), x);
          MinimalCons(rs[0], Below(rs[1..], x)) by {
            assert |rs| > 1 ==> !Mergeable(rs[0], rs[1]);
          }
        } else {
          MinimalCons(Region(x, End(rs[0]) - x, rs[0].flags), rs[1..]) by {
            assert |rs| > 1 ==> !Mergeable(rs[0], rs[1]);
          }
        }
      }
    }
  }

  /** Removing is difference: what is left of the range is nothing, and nothing else changes. */
  lemma RemovedKeeps(rs: seq<Region>, base: nat, end: nat)
    requires Sorted(rs, 0) && base < end
    ensures var left := Below(rs, base) + Above(Above(rs, base), end);
            && Sorted(left, 0) && (Minimal(rs) ==> Minimal(left))
            && forall a: nat :: View(left, a) == if base <= a < end then Absent else View(rs, a)
  {
    var low, high := Below(rs, base), Above(Above(rs, base), end);
    CutKeeps(rs, 0, base);
    CutKeeps(Above(rs, base), base, end);
    SortedAppend(low, high, 0, end);
    if Minimal(rs) {
      CutMinimal(rs, 0, base);
      CutMinimal(Above(rs, base), base, end);
      forall i | 0 <= i < |low + high| - 1
        ensures !Mergeable((low + high)[i], (low + high)[i + 1])
      {
        if i >= |low| {
          assert !Mergeable(high[i - |low|], high[i + 1 - |low|]);
        } else if i == |low| - 1 {
          assert high[0].base >= end;
        }
      }
    }
    forall a: nat
      ensures View(low + high, a) == if base <= a < end then Absent else View(rs, a)
    {
      PartsView(rs, base, end, a);
      ViewAppend(low, high, a);
    }
  }

  // ---------------------------------------------------------------- flags

  /** memblock_set_region_flags() or memblock_clear_region_flags(). */
  function Mark1(f: Flags, on: bool, flag: Flags): Flags {
    if on then f + flag else f - flag
  }

  function Marked(rs: seq<Region>, on: bool, flag: Flags): seq<Region> {
    if rs == [] then []
    else [Region(rs[0].base, rs[0].size, Mark1(rs[0].flags, on, flag))] + Marked(rs[1..], on, flag)
  }

  lemma {:induction false} MarkedKeeps(rs: seq<Region>, lo: nat, on: bool, flag: Flags)
    requires Sorted(rs, lo)
    ensures var m := Marked(rs, on, flag);
            && Sorted(m, lo) && Sum(m) == Sum(rs) && |m| == |rs|
            && (rs != [] ==> End(m[|m| - 1]) == End(rs[|rs| - 1]))
  {
    if rs != [] {
      MarkedKeeps(rs[1..], End(rs[0]), on, flag);
      Cons(Region(rs[0].base, rs[0].size, Mark1(rs[0].flags, on, flag)), Marked(rs[1..], on, flag));
    }
  }

  lemma {:induction false} MarkedView(rs: seq<Region>, on: bool, flag: Flags, a: nat)
    ensures View(Marked(rs, on, flag), a) ==
            match View(rs, a)
              case Absent => Absent
              case Present(f) => Present(Mark1(f, on, flag))
  {
    if rs != [] {
      MarkedView(rs[1..], on, flag, a);
      Cons(Region(rs[0].base, rs[0].size, Mark1(rs[0].flags, on, flag)), Marked(rs[1..], on, flag));
    }
  }

  /** Changing the flags of the range is a pointwise update, and merging afterwards keeps it. */
  lemma RemarkedKeeps(rs: seq<Region>, base: nat, end: nat, on: bool, flag: Flags)
    requires Sorted(rs, 0) && base < end
    ensures var n := Below(rs, base) + Marked(Inside(rs, base, end), on, flag) + Above(Above(rs, base), end);
            Sorted(n, 0) && Sum(n) == Sum(rs) && |n| == |Isolated(rs, base, end)|
  {
    var low, mid, high := Below(rs, base), Inside(rs, base, end), Above(Above(rs, base), end);
    CutKeeps(rs, 0, base);
    CutKeeps(Above(rs, base), base, end);
    MarkedKeeps(mid, base, on, flag);
    SortedAppend(low, Marked(mid, on, flag), 0, base);
    var lm := low + Marked(mid, on, flag);
    assert lm != [] ==> End(lm[|lm| - 1]) <= end;
    SortedAppend(lm, high, 0, end);
    IsolatedKeeps(rs, base, end);
    SumAppend(low, Marked(mid, on, flag));
    SumAppend(lm, high);
  }

  lemma RemarkedView(rs: seq<Region>, base: nat, end: nat, on: bool, flag: Flags, a: nat)
    requires Sorted(rs, 0) && base < end
    ensures var n := Below(rs, base) + Marked(Inside(rs, base, end), on, flag) + Above(Above(rs, base), end);
            View(n, a) == match View(rs, a)
              case Absent => Absent
              case Present(f) => Present(if base <= a < end then Mark1(f, on, flag) else f)
  {
    var low, mid, high := Below(rs, base), Inside(rs, base, end), Above(Above(rs, base), end);
    PartsView(rs, base, end, a);
    MarkedView(mid, on, flag, a);
    ViewAppend(low + Marked(mid, on, flag), high, a);
    ViewAppend(low, Marked(mid, on, flag), a);
  }

  /** When nothing new is needed, the range was there already. */
  lemma {:induction false} AddedNothing(rs: seq<Region>, base: nat, end: nat, flags: Flags)
    ensures |Added(rs, base, end, flags)| >= |rs|
    ensures |Added(rs, base, end, flags)| == |rs| ==> Added(rs, base, end, flags) == rs
  {
    if base < end && rs != [] && rs[0].base < end {
      AddedNothing(rs[1..], if End(rs[0]) <= base then base else if End(rs[0]) < end then End(rs[0]) else end, end, flags);
    }
  }
}
