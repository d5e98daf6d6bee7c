/** Two runs of a percpu chunk after which its hint says more than the space there is. In both the hint was sound until the
    last step, or until the free that mispairs it. */
module PercpuOverstated {
  import opened Align
  import opened Shifts
  import opened PercpuBlock
  import opened Stride
  import opened PercpuChunk
  import opened PercpuRefresh
  import opened PercpuFit
  import opened PercpuHint
  import opened PercpuArea

  /** The first k bits are taken, the others are free, and the hint is exact. */
  ghost predicate TakenUpTo(c: Chunk, blocks: nat, k: nat)
    reads c
  {
    && c.Valid() && c.HintExact() && c.size == c.pageBits == 8 && |c.md| == blocks && |c.allocMap| == 8 * blocks
    && Taken(c.allocMap, 0, k) && Free(c.allocMap, k, |c.allocMap|)
  }

  /** The longest run of a map with one run. */
  lemma OnlyRun(m: Bits, a: nat, e: nat, c: nat, s: nat)
    requires a <= e <= |m| && Longest(m, c, s) && forall i :: 0 <= i < |m| ==> m[i] == !(a <= i < e)
    ensures c == e - a && (c > 0 ==> s == a)
  {
    assert Free(m, a, e);
    if c > 0 {
      assert !m[s] && !m[s + c - 1];
    }
  }

  /** Allocations without alignment fill the chunk from below. */
  method TakeNext(c: Chunk, blocks: nat, k: nat, want: nat)
    requires TakenUpTo(c, blocks, k) && want > 0 && k + want <= |c.allocMap|
    modifies c
    ensures TakenUpTo(c, blocks, k + want) && c.live == old(c.live)[k := want]
  {
    OnlyRun(c.allocMap, k, |c.allocMap|, c.contigBits, c.contigStart);
    assert RunAt(c.allocMap, k, want);
    ghost var m := c.allocMap;
    var r := c.Alloc(want, 1);
    FilledUpTo(m, k, r.value, want);
  }

  lemma FilledUpTo(m: Bits, k: nat, off: nat, want: nat)
    requires Taken(m, 0, k) && Free(m, k, |m|) && want > 0 && k + want <= |m|
    requires Free(m, off, off + want) && NoRunBelow(m, want, off)
    ensures off == k && var m' := Fill(m, off, off + want, true); Taken(m', 0, k + want) && Free(m', k + want, |m'|)
  {
    assert !m[off];
    assert RunAt(m, k, want);
  }

  /** The first free in a full chunk makes that area the hint. */
  lemma FirstFree(old_m: Bits, m: Bits, md: seq<Md>, off: nat, bits: nat, start: nat, end: nat, refresh: bool,
      s: nat, c': nat, s': nat)
    requires AllExact(m, md, 8) && bits > 0 && off + bits <= |m| && SpanOf(off, bits, 8).si == SpanOf(off, bits, 8).ei
    requires forall i :: 0 <= i < |m| ==> m[i] == !(off <= i < off + bits)
    requires HintFreed(old_m, m, md, 8, SpanOf(off, bits, 8), start, end, refresh, 0, s, c', s')
    ensures c' == bits && s' == off
  {
    var p := SpanOf(off, bits, 8);
    SpanFacts(off, bits, 8, |md|);
    if refresh {
      OnlyRun(m, off, off + bits, c', s');
    } else {
      LoneRun(m, md, off, bits, p);
      var x := Blk(m, p.si, |md|, 8);
      assert Free(x, start, end) && !x[start];
    }
  }

  lemma LoneRun(m: Bits, md: seq<Md>, off: nat, bits: nat, p: Span)
    requires AllExact(m, md, 8) && bits > 0 && off + bits <= |m| && p == SpanOf(off, bits, 8) && p.si == p.ei < |md|
    requires forall i :: 0 <= i < |m| ==> m[i] == !(off <= i < off + bits)
    ensures var x := Blk(m, p.si, |md|, 8); p.eo == p.so + bits <= 8 && forall i :: 0 <= i < 8 ==> x[i] == !(p.so <= i < p.eo)
    ensures md[p.si].contig == bits
  {
    SpanFacts(off, bits, 8, |md|);
    BaseOrder(p.si, |md|, 8);
    var x := Blk(m, p.si, |md|, 8);
    assert Exact(x, md[p.si]);
    OnlyRun(x, p.so, p.eo, md[p.si].contig, md[p.si].start);
  }

  /** A chunk whose only free area is [off, off + bits), which its hint names. */
  ghost predicate OneGap(c: Chunk, blocks: nat, off: nat, bits: nat)
    reads c
  {
    && c.Valid() && c.size == c.pageBits == 8 && |c.md| == blocks && |c.allocMap| == 8 * blocks
    && (forall i :: 0 <= i < |c.allocMap| ==> c.allocMap[i] == !(off <= i < off + bits))
    && c.contigBits == bits && c.contigStart == off
  }

  method FreeFirst(c: Chunk, blocks: nat, off: nat)
    requires TakenUpTo(c, blocks, 8 * blocks) && off in c.live && c.live[off] > 0
    requires SpanOf(off, c.live[off], 8).si == SpanOf(off, c.live[off], 8).ei
    modifies c
    ensures OneGap(c, blocks, off, old(c.live[off])) && c.live == old(c.live) - {off}
  {
    OnlyRun(c.allocMap, |c.allocMap|, |c.allocMap|, c.contigBits, c.contigStart);
    ghost var m, bits, s := c.allocMap, c.live[off], c.contigStart;
    LiveFits(c, off);
    FullThenFreed(m, off, bits);
    ghost var start, end := c.FreeArea(off * MIN_ALLOC);
    ghost var p := SpanOf(off, bits, 8);
    FirstFree(m, c.allocMap, c.md, off, bits, start, end, Refreshes(8, 8, p, start, end), s, c.contigBits, c.contigStart);
  }

  lemma LiveFits(c: Chunk, off: nat)
    requires c.Valid() && off in c.live
    ensures off + c.live[off] <= |c.allocMap|
  {
  }

  lemma FullThenFreed(m: Bits, off: nat, bits: nat)
    requires Taken(m, 0, |m|) && off + bits <= |m|
    ensures var now := Fill(m, off, off + bits, false); forall i :: 0 <= i < |now| ==> now[i] == !(off <= i < off + bits)
  {
  }

  /** There is one run around a stretch. */
  lemma RunIs(x: Bits, a: nat, e: nat, start: nat, end: nat, lo: nat, hi: nat)
    requires RunAround(x, a, e, start, end) && RunAround(x, a, e, lo, hi)
    ensures start == lo && end == hi
  {
  }

  /** The first block of the map. */
  lemma FirstBlock(m: Bits, md: seq<Md>)
    requires AllExact(m, md, 8) && |md| > 0
    ensures |m| >= 8 && Base(0, 8) == 0 && Exact(m[..8], md[0]) && Blk(m, 0, |md|, 8) == m[..8]
  {
    BaseOrder(0, |md|, 8);
    assert Exact(Blk(m, 0, |md|, 8), md[0]);
    assert Blk(m, 0, |md|, 8) == m[..8];
  }

  // ----- The free that mispairs the hint

  predicate Gaps(m: Bits) {
    |m| == 8 && forall i :: 0 <= i < 8 ==> m[i] == !(i == 2 || 5 <= i)
  }

  lemma LongestGap(m: Bits, c: nat, s: nat)
    requires Gaps(m) && Longest(m, c, s)
    ensures c == 3
  {
    assert Free(m, 5, 8) && m[0] && m[1] && m[3] && m[4];
  }

  lemma MispairedStart(old_m: Bits, m: Bits, md: seq<Md>, start: nat, end: nat, c': nat, s': nat)
    requires AllExact(m, md, 8) && |md| > 0 && Gaps(m)
    requires var p := Span(0, 2, 0, 3); HintFreed(old_m, m, md, 8, p, start, end, Refreshes(8, 8, p, start, end), 3,
             5, c', s')
    ensures c' == 3 && s' == 2
  {
    FirstBlock(m, md);
    assert m[..8] == m;
    LongestGap(m, md[0].contig, md[0].start);
    assert start == 2 && end == 3 by { assert m[1] && m[3]; }
    assert Ffs(2) == 1 && Ffs(5) == 0;
  }

  /** The hint is the run of 3 bits at 5. Freeing bit 2 keeps its length and moves its start to 2. Allocating the run at 5
      then does not look like breaking the hint, which still says 3 when one free bit is left. */
  method MispairedHint() returns (c: Chunk)
    ensures fresh(c) && c.Valid() && c.contigBits == 3 && forall s: nat :: !RunAt(c.allocMap, s, 2)
  {
    c := FullBlock();
    FreeFirst(c, 1, 5);
    Mispair(c);
    TakeRunAtFive(c);
  }

  method FullBlock() returns (c: Chunk)
    ensures fresh(c) && TakenUpTo(c, 1, 8) && c.live == map[0 := 2, 2 := 1, 3 := 2, 5 := 3]
  {
    c := new Chunk(1, 8, 8);
    TakeNext(c, 1, 0, 2);
    TakeNext(c, 1, 2, 1);
    TakeNext(c, 1, 3, 2);
    TakeNext(c, 1, 5, 3);
  }

  method Mispair(c: Chunk)
    requires OneGap(c, 1, 5, 3) && 2 in c.live && c.live[2] == 1
    modifies c
    ensures c.Valid() && c.size == 8 && Gaps(c.allocMap) && c.contigBits == 3 && c.contigStart == 2
  {
    ghost var m := c.allocMap;
    ghost var start, end := c.FreeArea(2 * MIN_ALLOC);
    MispairedStart(m, c.allocMap, c.md, start, end, c.contigBits, c.contigStart);
  }

  lemma FitInGaps(m: Bits, s: nat)
    requires Gaps(m) && Free(m, s, s + 3)
    ensures s == 5
  {
    assert m[0] && m[1] && m[3] && m[4];
  }

  lemma NoTwoLeft(m: Bits, s: nat)
    requires Gaps(m)
    ensures !RunAt(Fill(m, 5, 8, true), s, 2)
  {
    var m' := Fill(m, 5, 8, true);
    assert m'[0] && m'[1] && m'[3] && m'[4] && m'[5] && m'[6] && m'[7];
  }

  method TakeRunAtFive(c: Chunk)
    requires c.Valid() && c.size == 8 && Gaps(c.allocMap) && c.contigBits == 3 && c.contigStart == 2
    modifies c
    ensures c.Valid() && c.contigBits == 3 && forall s: nat :: !RunAt(c.allocMap, s, 2)
  {
    ghost var m := c.allocMap;
    assert RunAt(m, 5, 3);
    var r := c.Alloc(3, 1);
    FitInGaps(m, r.value);
    forall s: nat ensures !RunAt(c.allocMap, s, 2) { NoTwoLeft(m, s); }
  }

  // ----- The allocation that reaches into the hint

  predicate GapAcross(m: Bits) {
    |m| == 16 && forall i :: 0 <= i < 16 ==> m[i] == !(7 <= i < 11)
  }

  lemma LastBitFree(m: Bits, b: Md)
    requires GapAcross(m) && Exact(m[..8], b)
    ensures b.contig == 1 && RunAround(m[..8], 7, 8, 7, 8)
  {
    var x := m[..8];
    assert forall i :: 0 <= i < 8 ==> x[i] == m[i];
    OnlyRun(x, 7, 8, b.contig, b.start);
  }

  /** Freeing the bit before the hint in the block below. */
  lemma HintUntouched(old_m: Bits, m: Bits, md: seq<Md>, start: nat, end: nat, c': nat, s': nat)
    requires AllExact(m, md, 8) && |md| > 0 && GapAcross(m)
    requires var p := Span(0, 7, 0, 8); HintFreed(old_m, m, md, 8, p, start, end, Refreshes(8, 8, p, start, end), 3,
             8, c', s')
    ensures c' == 3 && s' == 8
  {
    FirstBlock(m, md);
    LastBitFree(m, md[0]);
    RunIs(m[..8], 7, 8, start, end, 7, 8);
    assert !Replaces(3, 8, Base(0, 8) + 7, 1);
  }

  /** The hint is the run of 3 bits at 8. Freeing bit 7 below it changes nothing. The lowest 2 free bits are then at 7, so an
      allocation of 2 takes the first bit of the hint without starting in it, and the hint still says 3. */
  method HintReachedInto() returns (c: Chunk)
    ensures fresh(c) && c.Valid() && c.contigBits == 3 && forall s: nat :: !RunAt(c.allocMap, s, 3)
  {
    c := new Chunk(2, 8, 8);
    TakeNext(c, 2, 0, 7);
    TakeNext(c, 2, 7, 1);
    TakeNext(c, 2, 8, 3);
    TakeNext(c, 2, 11, 5);
    FreeFirst(c, 2, 8);
    FreeBelow(c);
    TakeTwo(c);
  }

  method FreeBelow(c: Chunk)
    requires OneGap(c, 2, 8, 3) && 7 in c.live && c.live[7] == 1
    modifies c
    ensures c.Valid() && c.size == 8 && GapAcross(c.allocMap) && c.contigBits == 3 && c.contigStart == 8
  {
    ghost var m := c.allocMap;
    GapGrows(m);
    assert SpanOf(7, 1, 8) == Span(0, 7, 0, 8);
    ghost var start, end := c.FreeArea(7 * MIN_ALLOC);
    assert c.allocMap == Fill(m, 7, 8, false);
    HintUntouched(m, c.allocMap, c.md, start, end, c.contigBits, c.contigStart);
  }

  lemma GapGrows(m: Bits)
    requires |m| == 16 && forall i :: 0 <= i < 16 ==> m[i] == !(8 <= i < 11)
    ensures GapAcross(Fill(m, 7, 8, false))
  {
  }

  method TakeTwo(c: Chunk)
    requires c.Valid() && c.size == 8 && GapAcross(c.allocMap) && c.contigBits == 3 && c.contigStart == 8
    modifies c
    ensures c.Valid() && c.contigBits == 3 && forall s: nat :: !RunAt(c.allocMap, s, 3)
  {
    ghost var m := c.allocMap;
    assert RunAt(m, 7, 2);
    var r := c.Alloc(2, 1);
    assert !m[r.value];
    forall s: nat ensures !RunAt(c.allocMap, s, 3) { NoThreeLeft(m, s); }
  }

  lemma NoThreeLeft(m: Bits, s: nat)
    requires GapAcross(m)
    ensures !RunAt(Fill(m, 7, 9, true), s, 3)
  {
    var m' := Fill(m, 7, 9, true);
    assert s + 3 <= 16 ==> m'[s] || m'[s + 1] || m'[s + 2];
  }
}
