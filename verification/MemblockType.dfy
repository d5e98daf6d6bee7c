/** One of memblock's region arrays (struct memblock_type) and the operations that change it in place. */
module MemblockType {
  import opened MemblockRegions
  import opened MemblockIsolate

  const DUMMY := Region(0, 0, {})

  datatype Status = Ok | NoMemory

  /** An empty array is kept as one region of size zero; any other is in order. */
  ghost predicate Good(rs: seq<Region>) {
    rs == [DUMMY] || (rs != [] && Sorted(rs, 0))
  }

  lemma DummyHoldsNothing(a: nat)
    ensures View([DUMMY], a) == Absent
  {
    assert View([DUMMY][1..], a) == Absent;
  }

  /** memblock_cap_size(), as the end of the range. */
  function Cap(base: nat, size: nat): nat
    requires base <= TOP
  {
    base + if size < TOP - base then size else TOP - base
  }

  // ---------------------------------------------------------------- steps of the loops

  lemma AddedStep(rs: seq<Region>, idx: nat, base: nat, end: nat, flags: Flags)
    requires idx < |rs| && rs[idx].base < end && base <= end
    ensures End(rs[idx]) <= base ==> Added(rs[idx..], base, end, flags) == [rs[idx]] + Added(rs[idx + 1..], base, end, flags)
    ensures End(rs[idx]) > base ==>
              Added(rs[idx..], base, end, flags) ==
              Before(rs[idx], base, flags) + ([rs[idx]] + Added(rs[idx + 1..],
                  if End(rs[idx]) < end then End(rs[idx]) else end, end, flags))
  {
    assert rs[idx..][1..] == rs[idx + 1..];
    var next := if End(rs[idx]) < end then End(rs[idx]) else end;
    if base == end {
      assert rs[idx..] == [rs[idx]] + rs[idx + 1..];
      if End(rs[idx]) > base {
        assert next == end;
        assert rs[idx].base < end && rs[idx].base <= base;
        assert Before(rs[idx], base, flags) + ([rs[idx]] + rs[idx + 1..]) == [rs[idx]] + rs[idx + 1..];
      }
    }
  }

  class RegionArray {
    var regions: seq<Region>
    var max: nat
    var totalSize: nat

    /** In order, disjoint, not empty, within the capacity, and counted. */
    ghost predicate Sane()
      reads this
    {
      Good(regions) && |regions| <= max && totalSize == Sum(regions)
    }

    /** What every operation on the array keeps: also, nothing could be merged. */
    ghost predicate Valid()
      reads this
    {
      Sane() && Minimal(regions)
    }

    constructor (max: nat)
      requires max > 0
      ensures Valid() && this.max == max && regions == [DUMMY]
    {
      regions, this.max, totalSize := [DUMMY], max, 0;
    }

    /** memblock_insert_region(); that there is room is a BUG_ON. */
    method InsertRegion(idx: nat, r: Region)
      requires idx <= |regions| < max
      modifies this`regions, this`totalSize
      ensures regions == old(regions)[..idx] + [r] + old(regions)[idx..]
      ensures totalSize == old(totalSize) + r.size
    {
      regions := regions[..idx] + [r] + regions[idx..];
      totalSize := totalSize + r.size;
    }

    /** memblock_remove_region(). */
    method RemoveRegion(r: nat)
      requires r < |regions| && totalSize >= regions[r].size
      modifies this`regions, this`totalSize
      ensures regions == OrDummy(old(regions)[..r] + old(regions)[r + 1..])
      ensures totalSize == old(totalSize) - old(regions)[r].size
    {
      totalSize := totalSize - regions[r].size;
      regions := regions[..r] + regions[r + 1..];
      if |regions| == 0 {
        regions := [DUMMY];
      }
    }

    /** memblock_merge_regions(). Its BUG_ON about overlapping neighbours cannot fire. */
    method MergeRegions()
      requires Good(regions)
      modifies this`regions
      ensures regions == Merged(old(regions))
    {
      var i := 0;
      assert regions[0..] == regions;
      while i < |regions| - 1
        invariant 0 <= i < |regions|
        invariant |regions| > 1 ==> Sorted(regions, 0)
        invariant regions[..i] + Merged(regions[i..]) == Merged(old(regions))
        decreases |regions| - i
      {
        var this_, next := regions[i], regions[i + 1];
        var was := regions;
        assert was[i..][1..] == was[i + 1..];
        if End(this_) != next.base || this_.flags != next.flags {
          SortedAt(regions, 0, i, i + 1);
          assert End(this_) <= next.base;
          assert was[..i] + ([was[i]] + Merged(was[i + 1..])) == was[..i + 1] + Merged(was[i + 1..]);
          i := i + 1;
        } else {
          regions := regions[..i] + [Joined(this_, next)] + regions[i + 2..];
          assert was[i..][2..] == was[i + 2..];
          assert regions[i..] == [Joined(this_, next)] + was[i + 2..];
          assert regions[..i] == was[..i];
          JoinKeepsSorted(was, 0, i);
        }
      }
      assert regions[..i] + regions[i..] == regions;
    }

    /** The first pass of memblock_add_range() counts the regions that are needed. */
    method CountNew(obase: nat, end: nat, flags: Flags) returns (new_: nat)
      requires obase < end
      ensures new_ == |Added(regions, obase, end, flags)| - |regions|
    {
      var idx: nat, base: nat := 0, obase;
      new_ := 0;
      assert regions[0..] == regions;
      while idx < |regions| && regions[idx].base < end
        invariant idx <= |regions| && base <= end
        invariant new_ + |Added(regions[idx..], base, end, flags)| - |regions[idx..]| == |Added(regions, obase, end,
                  flags)| - |regions|
      {
        var r := regions[idx];
        AddedStep(regions, idx, base, end, flags);
        if End(r) > base {
          if r.base > base {
            new_ := new_ + 1;
          }
          base := if End(r) < end then End(r) else end;
        }
        idx := idx + 1;
      }
      if base < end {
        new_ := new_ + 1;
      }
    }

    /** The second pass inserts them. The room the first pass found is enough: no insertion finds the array full. */
    method InsertNew(obase: nat, end: nat, flags: Flags)
      requires obase < end && |Added(regions, obase, end, flags)| <= max
      modifies this`regions, this`totalSize
      ensures regions == Added(old(regions), obase, end, flags)
      ensures totalSize + Sum(old(regions)) == old(totalSize) + Sum(regions)
    {
      var idx: nat, base: nat := 0, obase;
      ghost var goal := Added(regions, obase, end, flags);
      TurnFirst(regions, obase, end, flags);
      while idx < |regions| && regions[idx].base < end
        invariant base <= end && OnTheWay(regions, idx, base, end, flags, goal)
        invariant totalSize + Sum(old(regions)) == old(totalSize) + Sum(regions)
        decreases |regions| - idx
      {
        idx, base := InsertTurn(idx, base, end, flags, goal);
      }
      TurnLast(regions, idx, base, end, flags, goal);
      if base < end {
        InsertedSum(regions, idx, Region(base, end - base, flags));
        InsertRegion(idx, Region(base, end - base, flags));
      }
    }

    method InsertTurn(idx0: nat, base0: nat, end: nat, flags: Flags, ghost goal: seq<Region>) returns (idx: nat, base: nat)
      requires idx0 < |regions| && regions[idx0].base < end && base0 <= end && |goal| <= max
      requires OnTheWay(regions, idx0, base0, end, flags, goal)
      modifies this`regions, this`totalSize
      ensures base <= end && OnTheWay(regions, idx, base, end, flags, goal)
      ensures totalSize + Sum(old(regions)) == old(totalSize) + Sum(regions)
      ensures |regions| - idx < |old(regions)| - idx0
    {
      idx, base := idx0, base0;
      var r := regions[idx];
      if End(r) <= base {
        TurnPast(regions, idx, base, end, flags, goal);
      } else {
        if r.base > base {
          TurnInsert(regions, idx, base, end, flags, goal);
          InsertedSum(regions, idx, Region(base, r.base - base, flags));
          InsertRegion(idx, Region(base, r.base - base, flags));
          idx := idx + 1;
        } else {
          TurnOver(regions, idx, base, end, flags, goal);
        }
        base := if End(r) < end then End(r) else end;
      }
      idx := idx + 1;
    }

    /** The loop around memblock_double_array(), which may fail: here after `doublings` calls. */
    method MakeRoom(need: nat, doublings: nat) returns (status: Status)
      requires max > 0
      modifies this`max
      ensures max >= old(max)
      ensures status == Ok ==> need <= max
      ensures status == NoMemory ==> need > max == Doubled(old(max), doublings)
    {
      var left: nat := doublings;
      while need > max
        invariant old(max) <= max && left <= doublings && Doubled(max, left) == Doubled(old(max), doublings)
        decreases left
      {
        if left == 0 {
          return NoMemory;
        }
        max, left := 2 * max, left - 1;
      }
      status := Ok;
    }

    /** memblock_add_range(): union, what was there keeping its flags. It fails only if the array cannot hold the result. */
    method AddRange(base: nat, size: nat, flags: Flags, doublings: nat) returns (status: Status)
      requires Valid() && base <= TOP
      modifies this
      ensures Valid()
      ensures status == Ok ==> IsUnion(old(regions), regions, base, Cap(base, size), flags)
      ensures status == NoMemory ==>
                regions == old(regions) && |Added(regions, base, Cap(base, size), flags)| > max == Doubled(old(max),
                    doublings)
    {
      var end := Cap(base, size);
      if end == base {
        return Ok;
      }
      if regions[0].size == 0 {
        regions, totalSize := [Region(base, end - base, flags)], end - base;
        SingleRegion(regions[0]);
        return Ok;
      }
      var n := CountNew(base, end, flags);
      AddedKeeps(regions, base, end, flags);
      if n == 0 {
        return Ok;
      }
      status := MakeRoom(|regions| + n, doublings);
      if status == Ok {
        InsertNew(base, end, flags);
        MergeRegions();
      }
    }

    /** memblock_isolate_range(): the same addresses, with no region across base or end; start and stop delimit the regions
        inside. */
    method IsolateRange(base: nat, size: nat, doublings: nat) returns (status: Status, start: nat, stop: nat)
      requires Sane() && base <= TOP
      modifies this
      ensures Sane()
      ensures status == Ok ==> Delimits(regions, Parts(old(regions), base, Cap(base, size)), start, stop)
      ensures status == NoMemory ==> regions == old(regions) && |regions| + 2 > max == Doubled(old(max), doublings)
    {
      var end := Cap(base, size);
      start, stop := 0, 0;
      if end == base {
        return Ok, 0, 0;
      }
      status := MakeRoom(|regions| + 2, doublings);
      if status == Ok && regions != [DUMMY] {
        start, stop := IsolateLoop(base, end);
      }
    }

    method IsolateLoop(base: nat, end: nat) returns (start: nat, stop: nat)
      requires regions != [] && Sorted(regions, 0) && totalSize == Sum(regions) && |regions| + 2 <= max && base < end
      modifies this`regions, this`totalSize
      ensures regions != [] && Sorted(regions, 0) && totalSize == Sum(regions) && |regions| <= max
      ensures Delimits(regions, Cuts(old(regions), base, end), start, stop)
    {
      ghost var c := Cuts(regions, base, end);
      IsolatedKeeps(regions, base, end);
      Start(regions, base, end);
      start, stop := 0, 0;
      var idx: nat := 0;
      while idx < |regions| && regions[idx].base < end
        invariant Progress(regions, idx, base, end, start, stop, c.low, c.mid, c.high)
        invariant totalSize == Sum(regions)
        decreases |c.low| + |c.mid| + |c.high| - |regions|, |regions| - idx
      {
        idx, start, stop := IsolateTurn(idx, start, stop, base, end, c.low, c.mid, c.high);
        Room(regions, idx, base, end, start, stop, c.low, c.mid, c.high);
      }
      Stop(regions, idx, base, end, start, stop, c.low, c.mid, c.high);
    }

    /** One turn of its loop. */
    method IsolateTurn(idx0: nat, s0: nat, e0: nat, base: nat, end: nat,
                       ghost low: seq<Region>, ghost mid: seq<Region>, ghost high: seq<Region>)
                         returns (idx: nat, s: nat, e: nat)
      requires idx0 < |regions| && base < end && regions[idx0].base < end && |low| + |mid| + |high| <= max
      requires Progress(regions, idx0, base, end, s0, e0, low, mid, high) && totalSize == Sum(regions)
      modifies this`regions, this`totalSize
      ensures Progress(regions, idx, base, end, s, e, low, mid, high) && totalSize == Sum(regions)
      ensures |regions| > |old(regions)| || (|regions| == |old(regions)| && idx > idx0)
    {
      idx, s, e := idx0, s0, e0;
      var r := regions[idx];
      if End(r) <= base {
        PastRegion(regions, idx, base, end, s, e, low, mid, high);
        idx := idx + 1;
      } else if r.base < base {
        SplitLow(regions, idx, base, end, s, e, low, mid, high);
        SplitRegion(idx, base, base, end, idx + 1, s, e, low, mid, high);
        idx := idx + 1;
      } else if End(r) > end {
        SplitHigh(regions, idx, base, end, s, e, low, mid, high);
        SplitRegion(idx, end, base, end, idx, s, e, low, mid, high);
      } else {
        InsideRegion(regions, idx, base, end, s, e, low, mid, high);
        if e == 0 {
          s := idx;
        }
        idx := idx + 1;
        e := idx;
      }
    }

    /** Region idx is shortened to what lies from x on, and the rest is inserted before it. */
    method SplitRegion(idx: nat, x: nat, ghost base: nat, ghost end: nat, ghost to: nat, ghost s: nat, ghost e: nat,
                       ghost low: seq<Region>, ghost mid: seq<Region>, ghost high: seq<Region>)
      requires idx < |regions| && regions[idx].base < x < End(regions[idx]) && totalSize == Sum(regions)
      requires |low| + |mid| + |high| <= max
      requires Progress(Split(regions, idx, x), to, base, end, s, e, low, mid, high)
      modifies this`regions, this`totalSize
      ensures regions == Split(old(regions), idx, x) && totalSize == Sum(regions)
    {
      Room(Split(regions, idx, x), to, base, end, s, e, low, mid, high);
      SplitSum(regions, idx, x);
      SplitShape(regions, idx, x);
      SizeInSum(regions, idx);
      var r := regions[idx];
      regions := regions[idx := Region(x, End(r) - x, r.flags)];
      totalSize := totalSize - (x - r.base);
      InsertRegion(idx, Region(r.base, x - r.base, r.flags));
    }

    /** memblock_remove_range(): difference. */
    method RemoveRange(base: nat, size: nat, doublings: nat) returns (status: Status)
      requires Valid() && base <= TOP
      modifies this
      ensures Valid()
      ensures status == Ok ==> IsDifference(old(regions), regions, base, Cap(base, size))
      ensures status == NoMemory ==> regions == old(regions) && |regions| + 2 > max == Doubled(old(max), doublings)
    {
      var start, stop;
      status, start, stop := IsolateRange(base, size, doublings);
      if status == NoMemory {
        return;
      }
      PartsRemoved(old(regions), base, Cap(base, size));
      RemoveSpan(start, stop, Parts(old(regions), base, Cap(base, size)));
    }

    /** Its loop, over the regions inside the range from the last to the first. */
    method RemoveSpan(start: nat, stop: nat, ghost c: Cut)
      requires Delimits(regions, c, start, stop) && regions != [] && totalSize == Sum(regions)
      modifies this`regions, this`totalSize
      ensures regions == OrDummy(c.low + c.high) && totalSize == Sum(regions)
    {
      ghost var k: nat := |c.mid|;
      LeftEnds(c);
      var i: int := stop - 1;
      while i >= start
        invariant k <= |c.mid| && i == start + k - 1 && (k > 0 ==> start == |c.low|)
        invariant regions == Left(c, k) && totalSize == Sum(regions)
        decreases i
      {
        LeftStep(c, k);
        RemoveRegion(i);
        i, k := i - 1, k - 1;
      }
    }

    /** memblock_setclr_flag(): a pointwise update of the flags in the range. */
    method SetClrFlag(base: nat, size: nat, on: bool, flag: Flags, doublings: nat) returns (status: Status)
      requires Valid() && base <= TOP
      modifies this
      ensures Valid()
      ensures status == Ok ==> IsRemark(old(regions), regions, base, Cap(base, size), on, flag)
      ensures status == NoMemory ==> regions == old(regions) && |regions| + 2 > max == Doubled(old(max), doublings)
    {
      var start, stop;
      status, start, stop := IsolateRange(base, size, doublings);
      if status == NoMemory {
        return;
      }
      ghost var c := Parts(old(regions), base, Cap(base, size));
      PartsMarked(old(regions), base, Cap(base, size), on, flag);
      MarkAndMerge(start, stop, on, flag, c);
    }

    method MarkAndMerge(start: nat, stop: nat, on: bool, flag: Flags, ghost c: Cut)
      requires Delimits(regions, c, start, stop) && Good(c.low + Marked(c.mid, on, flag) + c.high)
      modifies this`regions
      ensures regions == Merged(c.low + Marked(c.mid, on, flag) + c.high)
    {
      MarkSpan(start, stop, on, flag, c);
      MergeRegions();
    }

    method MarkSpan(start: nat, stop: nat, on: bool, flag: Flags, ghost c: Cut)
      requires Delimits(regions, c, start, stop)
      modifies this`regions
      ensures regions == c.low + Marked(c.mid, on, flag) + c.high
    {
      MarkedAt(c.mid, on, flag);
      ghost var was, m := regions, Marked(c.mid, on, flag);
      var i: nat := start;
      while i < stop
        invariant start <= i <= stop && |regions| == |was|
        invariant forall j :: 0 <= j < |was| ==> regions[j] == if start <= j < i then m[j - start] else was[j]
      {
        var r := regions[i];
        assert r == was[i] == c.mid[i - start];
        regions := regions[i := Region(r.base, r.size, Mark1(r.flags, on, flag))];
        i := i + 1;
      }
      assert regions == c.low + m + c.high;
    }

    /** memblock_search(): binary search for the region that holds the address. */
    method Search(addr: nat) returns (at: int)
      requires Sane()
      ensures -1 <= at < |regions|
      ensures at >= 0 ==> regions[at].base <= addr < End(regions[at]) && View(regions, addr) == Present(regions[at].flags)
      ensures at == -1 <==> View(regions, addr) == Absent
    {
      var left: nat, right: nat := 0, |regions|;
      while left < right
        invariant left <= right <= |regions|
        invariant forall i :: 0 <= i < left || right <= i < |regions| ==> !(regions[i].base <= addr < End(regions[i]))
      {
        var mid := (right + left) / 2;
        if addr < regions[mid].base {
          HighMisses(regions, mid, addr);
          right := mid;
        } else if addr >= End(regions[mid]) {
          LowMisses(regions, mid, addr);
          left := mid + 1;
        } else {
          ViewHits(regions, mid, addr);
          return mid;
        }
      }
      ViewMisses(regions, addr);
      at := -1;
    }
  }

  /** The regions below a range, inside it and above it. */
  datatype Cut = Cut(low: seq<Region>, mid: seq<Region>, high: seq<Region>)

  ghost function Cuts(rs: seq<Region>, base: nat, end: nat): Cut {
    Cut(Below(rs, base), Inside(rs, base, end), Above(Above(rs, base), end))
  }

  /** The same, with nothing inside when there is no region or no range. */
  ghost function Parts(rs: seq<Region>, base: nat, end: nat): Cut {
    if base < end && rs != [DUMMY] then Cuts(rs, base, end) else Cut(rs, [], [])
  }

  ghost predicate Delimits(rs: seq<Region>, c: Cut, start: nat, stop: nat) {
    && rs == c.low + c.mid + c.high
    && if c.mid == [] then start == stop == 0 else start == |c.low| && stop == start + |c.mid|
  }

  lemma PartsRemoved(rs: seq<Region>, base: nat, end: nat)
    requires Good(rs) && Minimal(rs)
    ensures var c := Parts(rs, base, end);
            && Good(OrDummy(c.low + c.high)) && Minimal(OrDummy(c.low + c.high))
            && IsDifference(rs, OrDummy(c.low + c.high), base, end)
            && |c.low + c.high| <= |c.low + c.mid + c.high|
  {
    var c := Parts(rs, base, end);
    if base < end && rs != [DUMMY] {
      RemovedKeeps(rs, base, end);
      EmptyOrNot(c.low + c.high);
    } else {
      assert c.low + c.high == rs;
      SpanOfNothing(rs, base, end);
    }
  }

  lemma PartsMarked(rs: seq<Region>, base: nat, end: nat, on: bool, flag: Flags)
    requires Good(rs)
    ensures var c := Parts(rs, base, end);
            var n := c.low + Marked(c.mid, on, flag) + c.high;
            && Good(n) && Good(Merged(n)) && Minimal(Merged(n))
            && Sum(Merged(n)) == Sum(c.low + c.mid + c.high) && |Merged(n)| <= |c.low + c.mid + c.high|
            && IsRemark(rs, Merged(n), base, end, on, flag)
  {
    var c := Parts(rs, base, end);
    var n := c.low + Marked(c.mid, on, flag) + c.high;
    if base < end && rs != [DUMMY] {
      RemarkedKeeps(rs, base, end, on, flag);
      RemarkedAll(rs, base, end, on, flag);
      IsolatedKeeps(rs, base, end);
    } else {
      assert n == rs && c.low + c.mid + c.high == rs;
      SpanOfNothing(rs, base, end);
    }
    MergedKeeps(n);
  }

  lemma {:induction false} MarkedAt(rs: seq<Region>, on: bool, flag: Flags)
    ensures var m := Marked(rs, on, flag);
            |m| == |rs| && forall i :: 0 <= i < |rs| ==> m[i] == Region(rs[i].base, rs[i].size, Mark1(rs[i].flags, on, flag))
  {
    if rs != [] {
      MarkedAt(rs[1..], on, flag);
    }
  }

  /** max doubled n times. */
  function Doubled(max: nat, n: nat): nat
    decreases n
  {
    if n == 0 then max else Doubled(2 * max, n - 1)
  }

  function OrDummy(rs: seq<Region>): seq<Region> {
    if rs == [] then [DUMMY] else rs
  }

  lemma EmptyOrNot(rs: seq<Region>)
    requires Sorted(rs, 0)
    ensures Good(OrDummy(rs)) && (Minimal(rs) ==> Minimal(OrDummy(rs)))
    ensures forall a: nat :: View(OrDummy(rs), a) == View(rs, a)
  {
    forall a: nat
      ensures View(OrDummy(rs), a) == View(rs, a)
    {
      DummyHoldsNothing(a);
    }
  }

  lemma SpanOfNothing(rs: seq<Region>, base: nat, end: nat)
    requires base >= end || rs == [DUMMY]
    ensures forall a: nat :: base <= a < end ==> View(rs, a) == Absent
  {
    forall a: nat | base <= a < end
      ensures View(rs, a) == Absent
    {
      DummyHoldsNothing(a);
    }
  }

  lemma SingleRegion(r: Region)
    requires r.size > 0 && End(r) <= TOP
    ensures Sorted([r], 0) && Sum([r]) == r.size
    ensures forall a: nat :: View([r], a) == (if r.base <= a < End(r) then Present(r.flags) else Absent) && View([DUMMY], a) == Absent
  {
    assert [r][1..] == [];
    forall a: nat
      ensures View([r], a) == (if r.base <= a < End(r) then Present(r.flags) else Absent) && View([DUMMY], a) == Absent
    {
      DummyHoldsNothing(a);
      assert View([r][1..], a) == Absent;
    }
  }

  /** All that memblock_add_range() promises of its result. */
  lemma AddedKeeps(rs: seq<Region>, base: nat, end: nat, flags: Flags)
    requires rs != [] && Sorted(rs, 0) && end <= TOP
    ensures var n := Added(rs, base, end, flags);
            && Sorted(n, 0) && n != [] && |n| >= |rs| && (|n| == |rs| ==> n == rs)
            && Good(Merged(n)) && Minimal(Merged(n)) && Sum(Merged(n)) == Sum(n) && |Merged(n)| <= |n|
            && IsUnion(rs, n, base, end, flags) && IsUnion(rs, Merged(n), base, end, flags)
  {
    var n := Added(rs, base, end, flags);
    AddedSorted(rs, 0, base, end, flags);
    AddedNothing(rs, base, end, flags);
    MergedSorted(n, 0);
    forall a: nat
      ensures View(n, a) == Joint(View(rs, a), base <= a < end, flags) && View(Merged(n), a) == View(n, a)
    {
      AddedView(rs, 0, base, end, flags, a);
      MergedView(n, a);
    }
  }

  lemma MergedKeeps(rs: seq<Region>)
    requires Good(rs)
    ensures Good(Merged(rs)) && Minimal(Merged(rs)) && Sum(Merged(rs)) == Sum(rs) && |Merged(rs)| <= |rs|
    ensures forall a: nat :: View(Merged(rs), a) == View(rs, a)
  {
    if rs != [DUMMY] {
      MergedSorted(rs, 0);
    }
    forall a: nat
      ensures View(Merged(rs), a) == View(rs, a)
    {
      MergedView(rs, a);
    }
  }

  function Joint(v: Mark, inside: bool, flags: Flags): Mark {
    if v == Absent && inside then Present(flags) else v
  }

  ghost predicate IsUnion(was: seq<Region>, now: seq<Region>, base: nat, end: nat, flags: Flags) {
    forall a: nat :: View(now, a) == Joint(View(was, a), base <= a < end, flags)
  }

  ghost predicate IsDifference(was: seq<Region>, now: seq<Region>, base: nat, end: nat) {
    forall a: nat :: View(now, a) == if base <= a < end then Absent else View(was, a)
  }

  ghost predicate IsRemark(was: seq<Region>, now: seq<Region>, base: nat, end: nat, on: bool, flag: Flags) {
    forall a: nat :: View(now, a) == Remark(View(was, a), base <= a < end, on, flag)
  }

  function Remark(v: Mark, inside: bool, on: bool, flag: Flags): Mark {
    match v
    case Absent => Absent
    case Present(f) => Present(if inside then Mark1(f, on, flag) else f)
  }

  lemma RemarkedAll(rs: seq<Region>, base: nat, end: nat, on: bool, flag: Flags)
    requires Sorted(rs, 0) && base < end
    ensures var n := Below(rs, base) + Marked(Inside(rs, base, end), on, flag) + Above(Above(rs, base), end);
            forall a: nat :: View(n, a) == Remark(View(rs, a), base <= a < end, on, flag)
  {
    forall a: nat
      ensures var n := Below(rs, base) + Marked(Inside(rs, base, end), on, flag) + Above(Above(rs, base), end);
              View(n, a) == Remark(View(rs, a), base <= a < end, on, flag)
    {
      RemarkedView(rs, base, end, on, flag, a);
    }
  }

  lemma {:induction false} SizeInSum(rs: seq<Region>, i: nat)
    requires i < |rs|
    ensures rs[i].size <= Sum(rs)
  {
    if i > 0 {
      SizeInSum(rs[1..], i - 1);
    }
  }

  lemma DropSum(rs: seq<Region>, i: nat)
    requires i < |rs|
    ensures var left := rs[..i] + rs[i + 1..];
            Sum(OrDummy(left)) == Sum(rs) - rs[i].size
  {
    SumAppend(rs[..i], rs[i + 1..]);
    SumAppend(rs[..i], rs[i..]);
    assert rs == rs[..i] + rs[i..] && rs[i..][1..] == rs[i + 1..];
    assert Sum([DUMMY]) == Sum([DUMMY][1..]);
  }

  /** What is left when only k regions of the middle are. */
  ghost function Left(c: Cut, k: nat): seq<Region>
    requires k <= |c.mid|
  {
    OrDummy(c.low + c.mid[..k] + c.high)
  }

  lemma LeftEnds(c: Cut)
    ensures Left(c, |c.mid|) == OrDummy(c.low + c.mid + c.high) && Left(c, 0) == OrDummy(c.low + c.high)
  {
    assert c.mid[..|c.mid|] == c.mid;
    assert c.low + c.mid[..0] + c.high == c.low + c.high;
  }

  lemma LeftStep(c: Cut, k: nat)
    requires 0 < k <= |c.mid|
    ensures var rs, i := Left(c, k), |c.low| + k - 1;
            && i < |rs| && rs[i].size <= Sum(rs)
            && OrDummy(rs[..i] + rs[i + 1..]) == Left(c, k - 1)
            && Sum(Left(c, k - 1)) == Sum(rs) - rs[i].size
  {
    var rs, i := c.low + c.mid[..k] + c.high, |c.low| + k - 1;
    assert rs[..i] + rs[i + 1..] == c.low + c.mid[..k - 1] + c.high;
    SizeInSum(rs, i);
    DropSum(rs, i);
  }

  lemma HighMisses(rs: seq<Region>, mid: nat, addr: nat)
    requires Good(rs) && mid < |rs| && addr < rs[mid].base
    ensures forall i :: mid <= i < |rs| ==> !(rs[i].base <= addr < End(rs[i]))
  {
    forall i | mid < i < |rs|
      ensures addr < rs[i].base
    {
      SortedAt(rs, 0, mid, i);
    }
  }

  lemma LowMisses(rs: seq<Region>, mid: nat, addr: nat)
    requires Good(rs) && mid < |rs| && addr >= End(rs[mid])
    ensures forall i :: 0 <= i <= mid ==> !(rs[i].base <= addr < End(rs[i]))
  {
    forall i | 0 <= i < mid
      ensures addr >= End(rs[i])
    {
      SortedAt(rs, 0, i, mid);
    }
  }

  lemma {:induction false} ViewMisses(rs: seq<Region>, addr: nat)
    requires forall i :: 0 <= i < |rs| ==> !(rs[i].base <= addr < End(rs[i]))
    ensures View(rs, addr) == Absent
  {
    if rs != [] {
      ViewMisses(rs[1..], addr);
    }
  }

  lemma ViewHits(rs: seq<Region>, i: nat, addr: nat)
    requires Good(rs) && i < |rs| && rs[i].base <= addr < End(rs[i])
    ensures View(rs, addr) == Present(rs[i].flags)
  {
    forall k | 0 <= k < i
      ensures !(rs[..i][k].base <= addr < End(rs[..i][k]))
    {
      SortedAt(rs, 0, k, i);
    }
    ViewMisses(rs[..i], addr);
    ViewAppend(rs[..i], rs[i..], addr);
    assert rs == rs[..i] + rs[i..];
  }

  /** The second pass: what is done so far, and what the rest will still become. */
  ghost predicate OnTheWay(rs: seq<Region>, idx: nat, base: nat, end: nat, flags: Flags, goal: seq<Region>) {
    idx <= |rs| && goal == rs[..idx] + Added(rs[idx..], base, end, flags)
  }

  lemma TurnFirst(rs: seq<Region>, base: nat, end: nat, flags: Flags)
    ensures OnTheWay(rs, 0, base, end, flags, Added(rs, base, end, flags))
  {
    assert rs[0..] == rs;
  }

  lemma TurnLast(rs: seq<Region>, idx: nat, base: nat, end: nat, flags: Flags, goal: seq<Region>)
    requires OnTheWay(rs, idx, base, end, flags, goal) && (idx == |rs| || rs[idx].base >= end)
    ensures base < end ==> |rs| < |goal| && goal == rs[..idx] + [Region(base, end - base, flags)] + rs[idx..]
    ensures base >= end ==> goal == rs
  {
    if base < end {
      assert Added(rs[idx..], base, end, flags) == [Region(base, end - base, flags)] + rs[idx..];
    }
  }

  lemma TurnPast(rs: seq<Region>, idx: nat, base: nat, end: nat, flags: Flags, goal: seq<Region>)
    requires idx < |rs| && rs[idx].base < end && base <= end && End(rs[idx]) <= base
             && OnTheWay(rs, idx, base, end, flags, goal)
    ensures OnTheWay(rs, idx + 1, base, end, flags, goal)
  {
    AddedStep(rs, idx, base, end, flags);
    assert rs[..idx + 1] == rs[..idx] + [rs[idx]];
  }

  lemma TurnOver(rs: seq<Region>, idx: nat, base: nat, end: nat, flags: Flags, goal: seq<Region>)
    requires idx < |rs| && rs[idx].base < end && base <= end && rs[idx].base <= base < End(rs[idx])
    requires OnTheWay(rs, idx, base, end, flags, goal)
    ensures OnTheWay(rs, idx + 1, if End(rs[idx]) < end then End(rs[idx]) else end, end, flags, goal)
  {
    AddedStep(rs, idx, base, end, flags);
    assert rs[..idx + 1] == rs[..idx] + [rs[idx]];
  }

  lemma TurnInsert(rs: seq<Region>, idx: nat, base: nat, end: nat, flags: Flags, goal: seq<Region>)
    requires idx < |rs| && base < rs[idx].base < end && base < End(rs[idx])
    requires OnTheWay(rs, idx, base, end, flags, goal)
    ensures var part := Region(base, rs[idx].base - base, flags);
            OnTheWay(rs[..idx] + [part] + rs[idx..], idx + 2, if End(rs[idx]) < end then End(rs[idx]) else end, end,
                flags, goal)
    ensures |rs| < |goal|
  {
    var part := Region(base, rs[idx].base - base, flags);
    var next := if End(rs[idx]) < end then End(rs[idx]) else end;
    var n := rs[..idx] + [part] + rs[idx..];
    AddedStep(rs, idx, base, end, flags);
    AddedGrows(rs[idx + 1..], next, end, flags);
    assert n[..idx + 2] == rs[..idx] + ([part] + [rs[idx]]);
    assert n[idx + 2..] == rs[idx + 1..];
    assert goal == rs[..idx] + ([part] + ([rs[idx]] + Added(rs[idx + 1..], next, end, flags)));
  }

  lemma {:induction false} JoinKeepsSorted(rs: seq<Region>, lo: nat, i: nat)
    requires Sorted(rs, lo) && i + 1 < |rs| && Mergeable(rs[i], rs[i + 1])
    ensures Sorted(rs[..i] + [Joined(rs[i], rs[i + 1])] + rs[i + 2..], lo)
    decreases i
  {
    var joined := [Joined(rs[i], rs[i + 1])];
    var n := rs[..i] + joined + rs[i + 2..];
    if i == 0 {
      assert n == joined + rs[2..] && rs[1..][1..] == rs[2..];
      Cons(joined[0], rs[2..]);
    } else {
      JoinKeepsSorted(rs[1..], End(rs[0]), i - 1);
      var tail := rs[1..][..i - 1] + joined + rs[1..][i + 1..];
      assert n == [rs[0]] + tail;
      Cons(rs[0], tail);
    }
  }

  lemma {:induction false} AddedGrows(rs: seq<Region>, base: nat, end: nat, flags: Flags)
    ensures |Added(rs, base, end, flags)| >= |rs|
  {
    if base < end && rs != [] && rs[0].base < end {
      AddedGrows(rs[1..], if End(rs[0]) <= base then base else if End(rs[0]) < end then End(rs[0]) else end, end, flags);
    }
  }

  lemma InsertedSum(rs: seq<Region>, idx: nat, r: Region)
    requires idx <= |rs|
    ensures Sum(rs[..idx] + [r] + rs[idx..]) == Sum(rs) + r.size
  {
    SumAppend(rs[..idx], rs[idx..]);
    assert rs[..idx] + rs[idx..] == rs;
    SumAppend(rs[..idx] + [r], rs[idx..]);
    SumAppend(rs[..idx], [r]);
    assert Sum([r]) == r.size + Sum([r][1..]);
  }
}
