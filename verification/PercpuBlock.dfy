/** One bitmap block of the percpu allocator and its summary: the longest free run, the free runs at both ends, and a
    position below which nothing is free. A true bit is allocated. */
module PercpuBlock {
  import opened Shifts

  type Bits = seq<bool>

  predicate Free(m: Bits, a: int, b: int) {
    0 <= a <= b <= |m| && forall i :: a <= i < b ==> !m[i]
  }

  predicate Taken(m: Bits, a: int, b: int) {
    0 <= a <= b <= |m| && forall i :: a <= i < b ==> m[i]
  }

  /** bitmap_set and bitmap_clear on [a, b). */
  function Fill(m: Bits, a: nat, b: nat, v: bool): (r: Bits)
    requires a <= b <= |m|
    ensures |r| == |m| && forall i :: 0 <= i < |m| ==> r[i] == if a <= i < b then v else m[i]
  {
    m[..a] + seq(b - a, _ => v) + m[b..]
  }

  /** find_next_bit and find_next_zero_bit: the first bit equal to `v` at or after `from`, or the size. */
  function NextBit(m: Bits, from: nat, v: bool): (r: nat)
    ensures r <= |m| && (from <= |m| ==> from <= r)
    ensures forall i :: from <= i < r ==> m[i] != v
    ensures r < |m| ==> m[r] == v
    decreases |m| - from
  {
    if from >= |m| then |m| else if m[from] == v then from else NextBit(m, from + 1, v)
  }

  /** find_last_bit below `size`: the last set bit, or `size` if there is none. */
  function LastSet(m: Bits, size: nat): (r: nat)
    requires size <= |m|
    ensures r <= size
    ensures r < size ==> m[r] && forall i :: r < i < size ==> !m[i]
    ensures r == size ==> forall i :: 0 <= i < size ==> !m[i]
  {
    LastSetFrom(m, size, size)
  }

  function LastSetFrom(m: Bits, size: nat, i: nat): (r: nat)
    requires i <= size <= |m|
    ensures r < i || r == size
    ensures r < i ==> m[r] && forall j :: r < j < i ==> !m[j]
    ensures r >= i ==> forall j :: 0 <= j < i ==> !m[j]
    decreases i
  {
    if i == 0 then size else if m[i - 1] then i - 1 else LastSetFrom(m, size, i - 1)
  }

  /** struct pcpu_block_md */
  datatype Md = Md(contig: nat, start: nat, left: nat, right: nat, first: nat)

  // ----- What the summary must say

  /** `c` is the length of the longest free run, and one of that length starts at `s`. */
  ghost predicate Longest(m: Bits, c: nat, s: nat) {
    && (forall a, b :: Free(m, a, b) ==> b - a <= c)
    && (c > 0 ==> Free(m, s, s + c))
  }

  predicate LeftRun(m: Bits, l: nat) {
    Free(m, 0, l) && (l == |m| || m[l])
  }

  predicate RightRun(m: Bits, r: nat) {
    Free(m, |m| - r, |m|) && (r == |m| || m[|m| - r - 1])
  }

  /** The summary is what a full scan of the block gives. */
  ghost predicate Exact(m: Bits, b: Md) {
    && Longest(m, b.contig, b.start) && LeftRun(m, b.left) && RightRun(m, b.right)
    && b.first <= |m| && Taken(m, 0, b.first)
  }

  /** A longest run cannot be extended. */
  lemma LongestIsMaximal(m: Bits, c: nat, s: nat)
    requires Longest(m, c, s) && c > 0
    ensures s == 0 || m[s - 1]
    ensures s + c == |m| || m[s + c]
  {
    assert s > 0 ==> (Free(m, s - 1, s + c) <==> !m[s - 1]);
    assert s + c < |m| ==> (Free(m, s, s + c + 1) <==> !m[s + c]);
  }

  /** A free stretch inside a taken one is empty. */
  lemma FreeOrTaken(m: Bits, x: int, y: int, a: int, b: int)
    requires Free(m, x, y) && Taken(m, a, b) && a <= x && y <= b
    ensures x == y
  {
    assert x < |m| ==> m[x] || !m[x];
  }

  /** A free stretch that starts before a boundary ends before it. */
  lemma EndsBefore(m: Bits, x: int, y: int, pos: int)
    requires Free(m, x, y) && x < pos <= |m| && m[pos - 1]
    ensures y < pos
  {
  }

  // ----- pcpu_block_update

  function Min(a: int, b: int): int {
    if a < b then a else b
  }

  /** The start of the longer of two runs; of equal ones, the start with the better alignment. */
  function BestStart(b: Md, start: nat, contig: nat): nat {
    if contig > b.contig then start
    else if b.start != 0 && contig == b.contig && (start == 0 || Ffs(start) > Ffs(b.start)) then start
    else b.start
  }

  function BlockUpdate(b: Md, start: nat, end: nat, size: nat): Md
    requires start <= end
  {
    var contig := end - start;
    Md(if contig > b.contig then contig else b.contig, BestStart(b, start, contig),
       if start == 0 then contig else b.left, if end == size then contig else b.right, Min(b.first, start))
  }

  // ----- pcpu_block_refresh_hint

  /** The scan has dealt with everything below `pos`, which is not in the middle of a free run. */
  ghost predicate ScannedTo(m: Bits, pos: nat, b: Md) {
    && b.first <= |m| && Taken(m, 0, b.first)
    && (pos == 0 || pos > |m| || m[pos - 1])
    && (forall x, y :: Free(m, x, y) && y <= pos ==> y - x <= b.contig)
    && (b.contig > 0 ==> Free(m, b.start, b.start + b.contig))
    && (if pos == 0 then b.left == 0 else LeftRun(m, b.left))
    && (if pos <= |m| then b.right == 0 else RightRun(m, b.right))
  }

  lemma ScanRun(m: Bits, pos: nat, b: Md, rs: nat, re: nat)
    requires ScannedTo(m, pos, b) && pos <= |m| && b.first <= pos
    requires pos <= rs < re <= |m| && Taken(m, pos, rs) && Free(m, rs, re) && (re == |m| || m[re])
    ensures ScannedTo(m, re + 1, BlockUpdate(b, rs, re, |m|)) && BlockUpdate(b, rs, re, |m|).first <= re + 1
  {
    var b' := BlockUpdate(b, rs, re, |m|);
    forall x, y | Free(m, x, y) && y <= re + 1
      ensures y - x <= b'.contig
    {
      if x < pos { EndsBefore(m, x, y, pos); }
      if pos <= x < rs { FreeOrTaken(m, x, Min(y, rs), pos, rs); }
    }
  }

  lemma ScanBegin(m: Bits, b: Md)
    requires b.first <= |m| && Taken(m, 0, b.first) && b.contig == 0 && b.left == 0 && b.right == 0
    ensures ScannedTo(m, b.first, b)
  {
    forall x, y | Free(m, x, y) && y <= b.first
      ensures y - x <= 0
    {
      FreeOrTaken(m, x, y, 0, b.first);
    }
  }

  lemma ScanEnd(m: Bits, pos: nat, b: Md)
    requires ScannedTo(m, pos, b) && pos <= |m| && Taken(m, pos, |m|)
    ensures Exact(m, b)
  {
    forall x, y | Free(m, x, y)
      ensures y - x <= b.contig
    {
      if pos <= x { FreeOrTaken(m, x, y, pos, |m|); } else { EndsBefore(m, x, y, pos); }
    }
  }

  method BlockRefreshHint(m: Bits, b0: Md) returns (b: Md)
    requires b0.first <= |m| && Taken(m, 0, b0.first)
    ensures Exact(m, b) && b.first == b0.first
  {
    b := b0.(contig := 0, left := 0, right := 0);
    ScanBegin(m, b);
    var pos := b.first;
    var rs := NextBit(m, pos, false);
    var re := NextBit(m, rs + 1, true);
    while rs < re
      invariant b.first == b0.first <= pos && ScannedTo(m, pos, b)
      invariant rs == NextBit(m, pos, false) && re == NextBit(m, rs + 1, true)
      decreases |m| + 1 - pos
    {
      ScanRun(m, pos, b, rs, re);
      b := BlockUpdate(b, rs, re, |m|);
      pos := re + 1;
      rs := NextBit(m, pos, false);
      re := NextBit(m, rs + 1, true);
    }
    if pos <= |m| {
      ScanEnd(m, pos, b);
    }
  }

  // ----- Allocation in a block

  lemma FillFree(m: Bits, a: nat, b: nat, x: int, y: int)
    requires a <= b <= |m|
    ensures Free(Fill(m, a, b, true), x, y) ==> Free(m, x, y)
    ensures Free(m, x, y) && (y <= a || b <= x) ==> Free(Fill(m, a, b, true), x, y)
  {
    var m' := Fill(m, a, b, true);
    if Free(m', x, y) {
      forall i | x <= i < y ensures !m[i] { assert !m'[i]; }
    }
  }

  /** A free stretch that does not start inside a longest run does not meet it. */
  lemma HintUnbroken(m: Bits, c: nat, s: nat, a: nat, b: nat)
    requires Longest(m, c, s) && c > 0 && Free(m, a, b) && a < b && !(s <= a < s + c)
    ensures b <= s || s + c <= a
  {
    LongestIsMaximal(m, c, s);
  }

  /** The allocation leaves the longest run alone: only the end runs shrink. */
  lemma AllocKeepsHint(m: Bits, b: Md, a: nat, e: nat, first: nat)
    requires Exact(m, b) && a < e && Free(m, a, e) && !(b.start <= a < b.start + b.contig)
    requires first <= |m| && Taken(Fill(m, a, e, true), 0, first)
    ensures Exact(Fill(m, a, e, true), Md(b.contig, b.start, Min(b.left, a), Min(b.right, |m| - e), first))
  {
    var m' := Fill(m, a, e, true);
    assert e - a <= b.contig;
    HintUnbroken(m, b.contig, b.start, a, e);
    FillFree(m, a, e, b.start, b.start + b.contig);
    forall x, y | Free(m', x, y) ensures y - x <= b.contig { FillFree(m, a, e, x, y); }
  }

  /** A block without a free bit. */
  lemma FullIsExact(m: Bits, b: Md)
    requires Taken(m, 0, |m|) && b.contig == b.left == b.right == 0 && b.first <= |m|
    ensures Exact(m, b)
  {
    forall x, y | Free(m, x, y) ensures y - x <= 0 { FreeOrTaken(m, x, y, 0, |m|); }
  }

  lemma EmptyIsExact(m: Bits)
    requires Free(m, 0, |m|)
    ensures Exact(m, Md(|m|, 0, |m|, |m|, 0))
  {
  }

  // ----- Freeing in a block

  /** Where the free run around a freed stretch [a, e) starts and ends, as pcpu_block_update_hint_free finds it. */
  function RunStart(m: Bits, b: Md, a: nat): nat
    requires a <= |m|
  {
    if a == b.contig + b.start then b.start else if LastSet(m, a) == a then 0 else LastSet(m, a) + 1
  }

  function RunEnd(m: Bits, b: Md, e: nat): nat {
    if e == b.start then b.start + b.contig else NextBit(m, e, true)
  }

  /** The freed stretch is already cleared in `now` when its surroundings are looked at. */
  lemma RunStartFacts(m: Bits, now: Bits, b: Md, a: nat)
    requires Exact(m, b) && a < |m| == |now| && m[a] && forall i :: 0 <= i < a ==> now[i] == m[i]
    ensures RunStart(now, b, a) <= a && Free(m, RunStart(now, b, a), a)
            && (RunStart(now, b, a) == 0 || m[RunStart(now, b, a) - 1])
  {
    if a == b.contig + b.start {
      if b.contig > 0 {
        LongestIsMaximal(m, b.contig, b.start);
      } else {
        assert a > 0 ==> (Free(m, a - 1, a) <==> !m[a - 1]);
      }
    }
  }

  lemma RunEndFacts(m: Bits, now: Bits, b: Md, e: nat)
    requires Exact(m, b) && 0 < e <= |m| == |now| && m[e - 1] && forall i :: e <= i < |m| ==> now[i] == m[i]
    ensures e <= RunEnd(now, b, e) && Free(m, e, RunEnd(now, b, e)) && (RunEnd(now, b, e) == |m| || m[RunEnd(now, b, e)])
  {
    if e == b.start {
      if b.contig > 0 {
        LongestIsMaximal(m, b.contig, b.start);
      } else {
        assert e < |m| ==> (Free(m, e, e + 1) <==> !m[e]);
      }
    }
  }

  /** [s, t) is the free run that appears when [a, e) is freed. */
  predicate Joins(m: Bits, a: nat, e: nat, s: nat, t: nat) {
    && s <= a < e <= t <= |m| && Taken(m, a, e) && Free(m, s, a) && Free(m, e, t)
    && (s == 0 || m[s - 1]) && (t == |m| || m[t])
  }

  lemma JoinedRun(m: Bits, a: nat, e: nat, s: nat, t: nat, x: int, y: int)
    requires Joins(m, a, e, s, t)
    ensures var m' := Fill(m, a, e, false);
            Free(m', s, t) && (Free(m, x, y) ==> Free(m', x, y)) && (Free(m', x, y) ==> Free(m, x, y) || y - x <= t - s)
  {
    var m' := Fill(m, a, e, false);
    if Free(m', x, y) && !Free(m, x, y) {
      assert s > 0 ==> m'[s - 1];
      assert t < |m| ==> m'[t];
    }
  }

  lemma FreeLongest(m: Bits, b: Md, a: nat, e: nat, s: nat, t: nat)
    requires Exact(m, b) && Joins(m, a, e, s, t)
    ensures var b' := BlockUpdate(b, s, t, |m|); Longest(Fill(m, a, e, false), b'.contig, b'.start)
  {
    var m', b' := Fill(m, a, e, false), BlockUpdate(b, s, t, |m|);
    forall x, y | Free(m', x, y) ensures y - x <= b'.contig { JoinedRun(m, a, e, s, t, x, y); }
    JoinedRun(m, a, e, s, t, b.start, b.start + b.contig);
  }

  lemma FreeLeft(m: Bits, left: nat, a: nat, e: nat, s: nat, t: nat)
    requires LeftRun(m, left) && Joins(m, a, e, s, t)
    ensures LeftRun(Fill(m, a, e, false), if s == 0 then t else left)
  {
    var m' := Fill(m, a, e, false);
    if s == 0 {
      JoinedRun(m, a, e, s, t, 0, t);
    } else {
      JoinedRun(m, a, e, s, t, 0, left);
    }
  }

  lemma FreeRight(m: Bits, right: nat, a: nat, e: nat, s: nat, t: nat)
    requires RightRun(m, right) && Joins(m, a, e, s, t)
    ensures RightRun(Fill(m, a, e, false), if t == |m| then t - s else right)
  {
    if t == |m| {
      JoinedRun(m, a, e, s, t, s, t);
    } else {
      JoinedRun(m, a, e, s, t, |m| - right, |m|);
    }
  }

  lemma FreeIsExact(m: Bits, b: Md, a: nat, e: nat, s: nat, t: nat)
    requires Exact(m, b) && Joins(m, a, e, s, t)
    ensures Exact(Fill(m, a, e, false), BlockUpdate(b, s, t, |m|))
  {
    FreeLongest(m, b, a, e, s, t);
    FreeLeft(m, b.left, a, e, s, t);
    FreeRight(m, b.right, a, e, s, t);
  }
}
