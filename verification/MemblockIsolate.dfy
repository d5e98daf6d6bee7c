/** The loop of memblock_isolate_range(): where it stands, and what each of its branches does to the regions. */
module MemblockIsolate {
  import opened MemblockRegions

  /** At index idx, with s and e recorded: the regions will end as low + mid + high. */
  ghost predicate Progress(rs: seq<Region>, idx: nat, base: nat, end: nat, s: nat, e: nat, low: seq<Region>,
      mid: seq<Region>, high: seq<Region>) {
    && idx <= |rs| && Sorted(rs, 0)
    && var t := rs[idx..];
       if e == 0 then
         s == 0 && low == rs[..idx] + Below(t, base) && mid == Inside(t, base, end) && high == Above(Above(t, base), end)
       else
         && s == |low| < e == idx && (t != [] ==> t[0].base >= base)
         && low + mid == rs[..idx] + Below(t, end) && high == Above(t, end)
  }

  lemma {:induction false} SuffixSorted(rs: seq<Region>, lo: nat, i: nat)
    requires Sorted(rs, lo) && i <= |rs|
    ensures Sorted(rs[i..], lo) && (i < |rs| ==> lo <= rs[i].base && rs[i].size > 0 && Sorted(rs[i + 1..], End(rs[i])))
  {
    if i == 0 {
      assert rs[0..] == rs;
    } else {
      SuffixSorted(rs[1..], End(rs[0]), i - 1);
      assert rs[1..][i - 1..] == rs[i..];
      SortedLower(rs[i..], End(rs[0]), lo);
      if i < |rs| {
        assert rs[1..][i - 1..][1..] == rs[i + 1..] && rs[1..][i..] == rs[i + 1..];
      }
    }
  }

  lemma Start(rs: seq<Region>, base: nat, end: nat)
    requires Sorted(rs, 0)
    ensures Progress(rs, 0, base, end, 0, 0, Below(rs, base), Inside(rs, base, end), Above(Above(rs, base), end))
  {
    assert rs[0..] == rs;
  }

  /** The room still needed is the room the end result needs. */
  lemma Room(rs: seq<Region>, idx: nat, base: nat, end: nat, s: nat, e: nat, low: seq<Region>, mid: seq<Region>,
      high: seq<Region>)
    requires Progress(rs, idx, base, end, s, e, low, mid, high)
    ensures |rs| <= |low| + |mid| + |high|
  {
    SuffixSorted(rs, 0, idx);
    CutKeeps(rs[idx..], 0, base);
    CutKeeps(Above(rs[idx..], base), 0, end);
    CutKeeps(rs[idx..], 0, end);
  }

  lemma Stop(rs: seq<Region>, idx: nat, base: nat, end: nat, s: nat, e: nat, low: seq<Region>, mid: seq<Region>,
      high: seq<Region>)
    requires Progress(rs, idx, base, end, s, e, low, mid, high) && base < end && (idx == |rs| || rs[idx].base >= end)
    ensures rs == low + mid + high
    ensures if mid == [] then s == e == 0 else s == |low| && e == |low| + |mid|
  {
    assert rs[..idx] + rs[idx..] == rs;
    if e > 0 {
      assert Below(rs[idx..], end) == [];
    } else {
      assert Below(rs[idx..], base) == [];
    }
  }

  lemma PastRegion(rs: seq<Region>, idx: nat, base: nat, end: nat, s: nat, e: nat, low: seq<Region>,
      mid: seq<Region>, high: seq<Region>)
    requires Progress(rs, idx, base, end, s, e, low, mid, high) && idx < |rs| && End(rs[idx]) <= base
    ensures Progress(rs, idx + 1, base, end, s, e, low, mid, high)
  {
    SuffixSorted(rs, 0, idx);
    assert rs[idx..][1..] == rs[idx + 1..];
    assert rs[..idx + 1] == rs[..idx] + [rs[idx]];
  }

  /** Does the loop record region idx? */
  lemma InsideRegion(rs: seq<Region>, idx: nat, base: nat, end: nat, s: nat, e: nat, low: seq<Region>,
      mid: seq<Region>, high: seq<Region>)
    requires Progress(rs, idx, base, end, s, e, low, mid, high) && base < end && idx < |rs|
    requires base <= rs[idx].base && End(rs[idx]) <= end
    ensures Progress(rs, idx + 1, base, end, if e == 0 then idx else s, idx + 1, low, mid, high)
  {
    SuffixSorted(rs, 0, idx);
    var t := rs[idx..];
    assert t[1..] == rs[idx + 1..];
    assert rs[..idx + 1] == rs[..idx] + [rs[idx]];
    assert Below(t, end) == [t[0]] + Below(t[1..], end);
    if e == 0 {
      assert low == rs[..idx];
    }
  }

  function Split(rs: seq<Region>, idx: nat, x: nat): seq<Region>
    requires idx < |rs| && rs[idx].base <= x <= End(rs[idx])
  {
    var r := rs[idx];
    rs[..idx] + [Region(r.base, x - r.base, r.flags)] + rs[idx := Region(x, End(r) - x, r.flags)][idx..]
  }

  lemma SplitShape(rs: seq<Region>, idx: nat, x: nat)
    requires idx < |rs| && rs[idx].base <= x <= End(rs[idx])
    ensures var r := rs[idx];
            var n := Split(rs, idx, x);
            && |n| == |rs| + 1 && n[..idx] == rs[..idx] && n[idx] == Region(r.base, x - r.base, r.flags)
            && n[idx..] == [n[idx]] + ([Region(x, End(r) - x, r.flags)] + rs[idx + 1..])
            && n[idx + 1..] == [Region(x, End(r) - x, r.flags)] + rs[idx + 1..]
            && n[..idx + 1] == rs[..idx] + [n[idx]]
            && forall k :: 0 <= k < |n| && k != idx && k != idx + 1 ==> n[k] == rs[if k < idx then k else k - 1]
  {
  }

  lemma {:induction false} SplitSorted(rs: seq<Region>, lo: nat, idx: nat, x: nat)
    requires Sorted(rs, lo) && idx < |rs| && rs[idx].base < x < End(rs[idx])
    ensures Sorted(Split(rs, idx, x), lo)
    decreases idx
  {
    SplitShape(rs, idx, x);
    var n := Split(rs, idx, x);
    if idx == 0 {
      Cons(n[1], rs[1..]);
      assert n[0..] == n && n[1..] == [n[1]] + rs[1..];
    } else {
      SplitSorted(rs[1..], End(rs[0]), idx - 1, x);
      assert n == [rs[0]] + Split(rs[1..], idx - 1, x);
      Cons(rs[0], Split(rs[1..], idx - 1, x));
    }
  }

  lemma SplitSum(rs: seq<Region>, idx: nat, x: nat)
    requires idx < |rs| && rs[idx].base <= x <= End(rs[idx])
    ensures Sum(Split(rs, idx, x)) == Sum(rs)
  {
    SplitShape(rs, idx, x);
    var n := Split(rs, idx, x);
    var top := Region(x, End(rs[idx]) - x, rs[idx].flags);
    assert n == n[..idx] + n[idx..] && rs == rs[..idx] + rs[idx..];
    SumAppend(n[..idx], n[idx..]);
    SumAppend(rs[..idx], rs[idx..]);
    Cons(n[idx], [top] + rs[idx + 1..]);
    Cons(top, rs[idx + 1..]);
    assert rs[idx..][1..] == rs[idx + 1..];
  }

  /** The region crosses the start of the range. */
  lemma SplitLow(rs: seq<Region>, idx: nat, base: nat, end: nat, s: nat, e: nat, low: seq<Region>, mid: seq<Region>,
      high: seq<Region>)
    requires Progress(rs, idx, base, end, s, e, low, mid, high) && idx < |rs| && rs[idx].base < base < End(rs[idx])
    ensures Progress(Split(rs, idx, base), idx + 1, base, end, s, e, low, mid, high)
  {
    SplitShape(rs, idx, base);
    SplitSorted(rs, 0, idx, base);
    assert rs[idx..][1..] == rs[idx + 1..];
    var n := Split(rs, idx, base);
    Cons(n[idx + 1], rs[idx + 1..]);
    assert Below(n[idx + 1..], base) == [];
  }

  /** Both parts of a region cut at the end of the range, seen from the range. */
  lemma SplitEnd(t: seq<Region>, u: seq<Region>, low: Region, high: Region, rest: seq<Region>, base: nat, end: nat)
    requires t != [] && t[1..] == rest && u == [low] + ([high] + rest)
    requires base <= t[0].base < end < End(t[0]) && low == Region(t[0].base, end - t[0].base, t[0].flags)
             && high == Region(end, End(t[0]) - end, t[0].flags)
    ensures Below(u, end) == Below(t, end) && Above(u, end) == Above(t, end)
    ensures Below(u, base) == Below(t, base) && Above(u, base) == u && Above(t, base) == t && u[0].base >= base
  {
    Cons(low, [high] + rest);
    Cons(high, rest);
    assert Below([high] + rest, end) == [];
    assert Above([high] + rest, end) == [high] + rest;
  }

  /** The region crosses the end of the range. */
  lemma SplitHigh(rs: seq<Region>, idx: nat, base: nat, end: nat, s: nat, e: nat, low: seq<Region>, mid: seq<Region>,
      high: seq<Region>)
    requires Progress(rs, idx, base, end, s, e, low, mid, high) && idx < |rs| && base < end
    requires base <= rs[idx].base < end < End(rs[idx])
    ensures Progress(Split(rs, idx, end), idx, base, end, s, e, low, mid, high)
  {
    SplitShape(rs, idx, end);
    SplitSorted(rs, 0, idx, end);
    var n := Split(rs, idx, end);
    assert rs[idx..][1..] == rs[idx + 1..];
    SplitEnd(rs[idx..], n[idx..], n[idx], n[idx + 1], rs[idx + 1..], base, end);
  }
}
