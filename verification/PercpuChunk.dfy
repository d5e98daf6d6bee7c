/** A percpu chunk: its allocation bitmap cut into blocks, the block summaries, and their incremental update when a range of
    bits is allocated or freed. */
module PercpuChunk {
  import opened PercpuBlock
  import opened Stride

  predicate Shape(m: Bits, n: nat, size: nat) {
    size > 0 && |m| == Base(n, size)
  }

  /** The bits of block i. */
  function Blk(m: Bits, i: nat, n: nat, size: nat): (r: Bits)
    requires Shape(m, n, size) && i < n
    ensures |r| == size
  {
    BaseOrder(i, n, size);
    m[Base(i, size)..Base(i, size) + size]
  }

  /** Where a chunk offset falls relative to block i, cut to the block. */
  function Cut(off: int, i: nat, size: nat): nat {
    if off <= Base(i, size) then 0 else if off >= Base(i, size) + size then size else off - Base(i, size)
  }

  lemma BlkFill(m: Bits, i: nat, n: nat, size: nat, a: nat, e: nat, v: bool)
    requires Shape(m, n, size) && i < n && a <= e <= |m|
    ensures Shape(Fill(m, a, e, v), n, size)
    ensures Blk(Fill(m, a, e, v), i, n, size) == Fill(Blk(m, i, n, size), Cut(a, i, size), Cut(e, i, size), v)
  {
    BaseOrder(i, n, size);
  }

  lemma BlkFree(m: Bits, i: nat, n: nat, size: nat, a: nat, e: nat)
    requires Shape(m, n, size) && i < n && a <= e <= |m|
    ensures Free(m, a, e) ==> Free(Blk(m, i, n, size), Cut(a, i, size), Cut(e, i, size))
    ensures Taken(m, a, e) ==> Taken(Blk(m, i, n, size), Cut(a, i, size), Cut(e, i, size))
  {
    BaseOrder(i, n, size);
  }

  ghost predicate AllExact(m: Bits, md: seq<Md>, size: nat) {
    Shape(m, |md|, size) && forall i :: 0 <= i < |md| ==> Exact(Blk(m, i, |md|, size), md[i])
  }

  // ----- pcpu_block_update_hint_alloc

  /** The update of the first block of an allocation: [a, e) of its bits were free in `old` and are now set. */
  method AllocInFirst(ghost old_m: Bits, m: Bits, b: Md, a: nat, e: nat, bits: nat) returns (r: Md)
    requires Exact(old_m, b) && a < e <= |old_m| && Free(old_m, a, e) && m == Fill(old_m, a, e, true)
    requires a + bits == e || (e == |m| && a + bits >= e)
    ensures Exact(m, r)
  {
    var first := if a == b.first then NextBit(m, a + bits, false) else b.first;
    if b.start <= a < b.start + b.contig {
      r := BlockRefreshHint(m, b.(first := first));
    } else {
      AllocKeepsHint(old_m, b, a, e, first);
      r := Md(b.contig, b.start, Min(b.left, a), Min(b.right, |m| - e), first);
    }
  }

  /** The update of the last block of an allocation that started in an earlier block and does not fill it. */
  method AllocInLast(ghost old_m: Bits, m: Bits, b: Md, e: nat) returns (r: Md)
    requires Exact(old_m, b) && 0 < e < |old_m| && Free(old_m, 0, e) && m == Fill(old_m, 0, e, true)
    ensures Exact(m, r)
  {
    var first := NextBit(m, e, false);
    if e > b.start {
      r := BlockRefreshHint(m, b.(first := first));
    } else {
      AllocKeepsHint(old_m, b, 0, e, first);
      r := Md(b.contig, b.start, 0, Min(b.right, |m| - e), first);
    }
  }

  /** s_index, s_off, e_index and e_off of a range. */
  datatype Span = Span(si: nat, so: nat, ei: nat, eo: nat)

  function SpanOf(off: nat, bits: nat, size: nat): Span
    requires size > 0 && bits > 0
  {
    Span(off / size, off % size, (off + bits - 1) / size, (off + bits - 1) % size + 1)
  }

  lemma SpanFacts(off: nat, bits: nat, size: nat, n: nat)
    requires size > 0 && bits > 0 && off + bits <= Base(n, size)
    ensures var p := SpanOf(off, bits, size);
            && p.si <= p.ei < n && p.so < size && 0 < p.eo <= size
            && Base(p.si, size) + p.so == off && Base(p.ei, size) + p.eo == off + bits
            && (p.si == p.ei ==> p.so + bits == p.eo)
  {
    var p := SpanOf(off, bits, size);
    SplitOffset(off, size);
    SplitOffset(off + bits - 1, size);
    BlockBelow(p.ei, n, size, off + bits - 1);
    IndexOrder(p.si, p.ei, p.so, p.eo - 1, size);
  }

  /** The part of a range that falls into block i. */
  lemma CutFacts(off: nat, bits: nat, size: nat, n: nat, i: nat)
    requires size > 0 && bits > 0 && off + bits <= Base(n, size) && i < n
    ensures var p := SpanOf(off, bits, size);
            && (i < p.si || i > p.ei ==> Cut(off, i, size) == Cut(off + bits, i, size))
            && (i == p.si ==> Cut(off, i, size) == p.so && Cut(off + bits, i, size) == if p.si == p.ei then p.eo else size)
            && (p.si < i == p.ei ==> Cut(off, i, size) == 0 && Cut(off + bits, i, size) == p.eo)
            && (p.si < i < p.ei ==> Cut(off, i, size) == 0 && Cut(off + bits, i, size) == size)
  {
    var p := SpanOf(off, bits, size);
    SpanFacts(off, bits, size, n);
    if i < p.si { BaseOrder(i, p.si, size); }
    if p.si < i { BaseOrder(p.si, i, size); }
    if i < p.ei { BaseOrder(i, p.ei, size); }
    if p.ei < i { BaseOrder(p.ei, i, size); }
  }

  /** Block i of the map after filling a range. */
  ghost predicate Filled(old_m: Bits, m: Bits, n: nat, size: nat, i: nat, a: nat, e: nat, v: bool)
    requires Shape(old_m, n, size) && Shape(m, n, size) && i < n
  {
    a <= e <= size && Blk(m, i, n, size) == Fill(Blk(old_m, i, n, size), a, e, v) &&
    if v then Free(Blk(old_m, i, n, size), a, e) else Taken(Blk(old_m, i, n, size), a, e)
  }

  lemma FilledBlocks(old_m: Bits, n: nat, size: nat, off: nat, bits: nat, v: bool, i: nat)
    requires Shape(old_m, n, size) && bits > 0 && off + bits <= |old_m| && i < n
    requires if v then Free(old_m, off, off + bits) else Taken(old_m, off, off + bits)
    ensures var p, m := SpanOf(off, bits, size), Fill(old_m, off, off + bits, v);
            && Shape(m, n, size)
            && (i < p.si || i > p.ei ==> Blk(m, i, n, size) == Blk(old_m, i, n, size))
            && (i == p.si ==> Filled(old_m, m, n, size, i, p.so, if p.si == p.ei then p.eo else size, v))
            && (p.si < i == p.ei ==> Filled(old_m, m, n, size, i, 0, p.eo, v))
            && (p.si < i < p.ei ==> Filled(old_m, m, n, size, i, 0, size, v))
  {
    CutFacts(off, bits, size, n, i);
    BlkFill(old_m, i, n, size, off, off + bits, v);
    BlkFree(old_m, i, n, size, off, off + bits);
  }

  /** A block in the middle of an allocation, or one that it fills to the end. */
  lemma WholeBlockTaken(old_m: Bits, m: Bits, n: nat, size: nat, i: nat, b: Md)
    requires Shape(old_m, n, size) && Shape(m, n, size) && i < n && Filled(old_m, m, n, size, i, 0, size, true)
             && b.first <= size
    ensures Exact(Blk(m, i, n, size), b.(contig := 0, left := 0, right := 0))
  {
    FullIsExact(Blk(m, i, n, size), b.(contig := 0, left := 0, right := 0));
  }

  /** Before and after an allocation of [off, off + bits). */
  ghost predicate Allocated(old_m: Bits, m: Bits, n: nat, size: nat, off: nat, bits: nat) {
    && Shape(old_m, n, size) && Shape(m, n, size) && bits > 0 && off + bits <= |old_m|
    && Free(old_m, off, off + bits) && m == Fill(old_m, off, off + bits, true)
  }

  /** The first and the last block. `upper` is where the clearing of the blocks after the first one stops. */
  method AllocEnds(ghost old_m: Bits, m: Bits, md0: seq<Md>, size: nat, off: nat, bits: nat) returns (md: seq<Md>, upper: nat)
    requires AllExact(old_m, md0, size) && Allocated(old_m, m, |md0|, size, off, bits)
    ensures var p, n := SpanOf(off, bits, size), |md0|;
            && |md| == n && p.si <= p.ei < n && Exact(Blk(m, p.si, n, size), md[p.si])
            && upper == (if p.si == p.ei || p.eo == size then p.ei + 1 else p.ei)
            && (p.si < p.ei && p.eo < size ==> Exact(Blk(m, p.ei, n, size), md[p.ei]))
            && (forall i :: 0 <= i < n && i != p.si && i != p.ei ==> md[i] == md0[i])
            && md[p.ei].first <= size
  {
    var p := SpanOf(off, bits, size);
    SpanFacts(off, bits, size, |md0|);
    var b := FirstBlockAfterAlloc(old_m, m, md0[p.si], |md0|, size, off, bits);
    md := md0[p.si := b];
    upper := p.si + 1;
    if p.si != p.ei {
      b, upper := LastBlockAfterAlloc(old_m, m, md0[p.ei], |md0|, size, off, bits);
      md := md[p.ei := b];
    }
  }

  method FirstBlockAfterAlloc(ghost old_m: Bits, m: Bits, b0: Md, n: nat, size: nat, off: nat, bits: nat) returns (b: Md)
    requires Allocated(old_m, m, n, size, off, bits)
    requires SpanOf(off, bits, size).si < n && Exact(Blk(old_m, SpanOf(off, bits, size).si, n, size), b0)
    ensures Exact(Blk(m, SpanOf(off, bits, size).si, n, size), b)
  {
    var p := SpanOf(off, bits, size);
    SpanFacts(off, bits, size, n);
    FilledBlocks(old_m, n, size, off, bits, true, p.si);
    var e := if p.si == p.ei then p.eo else size;
    if p.si != p.ei { BaseOrder(p.si, p.ei, size); }
    b := AllocInFirst(Blk(old_m, p.si, n, size), Blk(m, p.si, n, size), b0, p.so, e, bits);
  }

  method LastBlockAfterAlloc(ghost old_m: Bits, m: Bits, b0: Md, n: nat, size: nat, off: nat, bits: nat)
    returns (b: Md, upper: nat)
    requires Allocated(old_m, m, n, size, off, bits)
    requires SpanOf(off, bits, size).si < SpanOf(off, bits, size).ei < n
             && Exact(Blk(old_m, SpanOf(off, bits, size).ei, n, size), b0)
    ensures var p := SpanOf(off, bits, size);
            && b.first <= size && upper == (if p.eo == size then p.ei + 1 else p.ei)
            && (p.eo < size ==> Exact(Blk(m, p.ei, n, size), b))
  {
    var p := SpanOf(off, bits, size);
    SpanFacts(off, bits, size, n);
    FilledBlocks(old_m, n, size, off, bits, true, p.ei);
    if p.eo == size {
      b := b0.(first := NextBit(Blk(m, p.ei, n, size), p.eo, false));
      upper := p.ei + 1;
    } else {
      b := AllocInLast(Blk(old_m, p.ei, n, size), Blk(m, p.ei, n, size), b0, p.eo);
      upper := p.ei;
    }
  }

  /** pcpu_block_update_hint_alloc, up to the chunk's own hint: every summary is exact again. */
  method UpdateHintAlloc(ghost old_m: Bits, m: Bits, md0: seq<Md>, size: nat, off: nat, bits: nat) returns (md: seq<Md>)
    requires AllExact(old_m, md0, size) && Allocated(old_m, m, |md0|, size, off, bits)
    ensures |md| == |md0| && AllExact(m, md, size)
  {
    ghost var n := |md0|;
    var ends, upper := AllocEnds(old_m, m, md0, size, off, bits);
    assert forall i :: 0 <= i < n ==> md0[i].first <= size by {
      forall i | 0 <= i < n ensures md0[i].first <= size { assert Exact(Blk(old_m, i, n, size), md0[i]); }
    }
    var p := SpanOf(off, bits, size);
    md := ZeroBlocks(old_m, m, ends, size, off, bits, p, upper);
    forall i | 0 <= i < n
      ensures Exact(Blk(m, i, n, size), md[i])
    {
      FilledBlocks(old_m, n, size, off, bits, true, i);
    }
  }

  /** "update in-between md_blocks" */
  method ZeroBlocks(ghost old_m: Bits, ghost m: Bits, md0: seq<Md>, size: nat, ghost off: nat, ghost bits: nat,
      p: Span, upper: nat) returns (md: seq<Md>)
    requires Allocated(old_m, m, |md0|, size, off, bits) && p == SpanOf(off, bits, size) && p.si <= p.ei < |md0|
    requires upper == (if p.si == p.ei || p.eo == size then p.ei + 1 else p.ei)
    requires forall i :: 0 <= i < |md0| && i != p.si ==> md0[i].first <= size
    ensures |md| == |md0|
    ensures forall i :: 0 <= i < |md| && !(p.si < i < upper) ==> md[i] == md0[i]
    ensures Shape(m, |md|, size) && forall i :: p.si < i < upper ==> Exact(Blk(m, i, |md|, size), md[i])
  {
    md := md0;
    var i := p.si + 1;
    FilledBlocks(old_m, |md0|, size, off, bits, true, p.si);
    while i < upper
      invariant p.si < i <= upper && |md| == |md0|
      invariant forall j :: 0 <= j < |md| && !(p.si < j < i) ==> md[j] == md0[j]
      invariant forall j :: p.si < j < i ==> Exact(Blk(m, j, |md|, size), md[j])
    {
      FilledBlocks(old_m, |md0|, size, off, bits, true, i);
      WholeBlockTaken(old_m, m, |md0|, size, i, md[i]);
      md := md[i := md[i].(contig := 0, left := 0, right := 0)];
      i := i + 1;
    }
  }

  /** Blocks are ordered as their offsets are. */
  lemma IndexOrder(si: nat, ei: nat, so: nat, eo: nat, size: nat)
    requires so < size && eo < size && Base(si, size) + so <= Base(ei, size) + eo
    ensures si <= ei
  {
    if ei < si {
      BaseOrder(ei, si, size);
    }
  }

  // ----- pcpu_block_update_hint_free

  /** Before and after freeing [off, off + bits). */
  ghost predicate Freed(old_m: Bits, m: Bits, n: nat, size: nat, off: nat, bits: nat) {
    && Shape(old_m, n, size) && Shape(m, n, size) && bits > 0 && off + bits <= |old_m|
    && Taken(old_m, off, off + bits) && m == Fill(old_m, off, off + bits, false)
  }

  /** The free run in the first block starts here, and the one in the last block ends here. */
  lemma FreeStart(old_m: Bits, m: Bits, b: Md, n: nat, size: nat, off: nat, bits: nat)
    requires Freed(old_m, m, n, size, off, bits)
    requires SpanOf(off, bits, size).si < n && Exact(Blk(old_m, SpanOf(off, bits, size).si, n, size), b)
    ensures var p := SpanOf(off, bits, size);
            var x, s := Blk(old_m, p.si, n, size), RunStart(Blk(m, p.si, n, size), b, p.so);
            s <= p.so && Free(x, s, p.so) && (s == 0 || x[s - 1])
  {
    var p := SpanOf(off, bits, size);
    SpanFacts(off, bits, size, n);
    FilledBlocks(old_m, n, size, off, bits, false, p.si);
    RunStartFacts(Blk(old_m, p.si, n, size), Blk(m, p.si, n, size), b, p.so);
  }

  lemma FreeEnd(old_m: Bits, m: Bits, b: Md, n: nat, size: nat, off: nat, bits: nat)
    requires Freed(old_m, m, n, size, off, bits)
    requires SpanOf(off, bits, size).ei < n && Exact(Blk(old_m, SpanOf(off, bits, size).ei, n, size), b)
    ensures var p := SpanOf(off, bits, size);
            var x, t := Blk(old_m, p.ei, n, size), RunEnd(Blk(m, p.ei, n, size), b, p.eo);
            p.eo <= t && Free(x, p.eo, t) && (t == size || x[t])
  {
    var p := SpanOf(off, bits, size);
    SpanFacts(off, bits, size, n);
    FilledBlocks(old_m, n, size, off, bits, false, p.ei);
    RunEndFacts(Blk(old_m, p.ei, n, size), Blk(m, p.ei, n, size), b, p.eo);
  }

  /** The first block after the free; `t` is where the run ends in the last block. */
  lemma FirstBlockAfterFree(old_m: Bits, m: Bits, b: Md, n: nat, size: nat, off: nat, bits: nat, s: nat, t: nat)
    requires Freed(old_m, m, n, size, off, bits) && SpanOf(off, bits, size).si <= SpanOf(off, bits, size).ei < n
    requires var p := SpanOf(off, bits, size); var x := Blk(old_m, p.si, n, size);
             && Exact(x, b) && s <= p.so && Free(x, s, p.so) && (s == 0 || x[s - 1])
             && (p.si == p.ei ==> p.eo <= t && Free(x, p.eo, t) && (t == size || x[t]))
    ensures var p := SpanOf(off, bits, size); var e := if p.si == p.ei then t else size;
            s <= e && Exact(Blk(m, p.si, n, size), BlockUpdate(b, s, e, size))
  {
    var p := SpanOf(off, bits, size);
    SpanFacts(off, bits, size, n);
    FilledBlocks(old_m, n, size, off, bits, false, p.si);
    FreeIsExact(Blk(old_m, p.si, n, size), b, p.so, if p.si == p.ei then p.eo else size, s, if p.si == p.ei then t else size);
  }

  lemma LastBlockAfterFree(old_m: Bits, m: Bits, b: Md, n: nat, size: nat, off: nat, bits: nat, t: nat)
    requires Freed(old_m, m, n, size, off, bits) && SpanOf(off, bits, size).si < SpanOf(off, bits, size).ei < n
    requires var p := SpanOf(off, bits, size); var x := Blk(old_m, p.ei, n, size);
             Exact(x, b) && p.eo <= t && Free(x, p.eo, t) && (t == size || x[t])
    ensures Exact(Blk(m, SpanOf(off, bits, size).ei, n, size), BlockUpdate(b, 0, t, size))
  {
    var p := SpanOf(off, bits, size);
    SpanFacts(off, bits, size, n);
    FilledBlocks(old_m, n, size, off, bits, false, p.ei);
    FreeIsExact(Blk(old_m, p.ei, n, size), b, 0, p.eo, 0, t);
  }

  /** [start, end) is the free run around [a, e) in a block, as far as the block goes. */
  predicate RunAround(x: Bits, a: nat, e: nat, start: nat, end: nat) {
    start <= a < e <= end <= |x| && Free(x, start, end) && (start == 0 || x[start - 1]) && (end == |x| || x[end])
  }

  /** `start` and `end` are the run around a freed area that lies in one block. */
  ghost predicate RunFreed(m: Bits, n: nat, size: nat, p: Span, start: nat, end: nat) {
    p.si == p.ei ==> Shape(m, n, size) && p.si < n && RunAround(Blk(m, p.si, n, size), p.so, p.eo, start, end)
  }

  lemma FreedRun(old_m: Bits, m: Bits, md0: seq<Md>, size: nat, off: nat, bits: nat, p: Span, start: nat, end: nat)
    requires AllExact(old_m, md0, size) && Freed(old_m, m, |md0|, size, off, bits)
    requires p == SpanOf(off, bits, size) && p.si <= p.ei < |md0|
    requires start == RunStart(Blk(m, p.si, |md0|, size), md0[p.si], p.so)
             && end == RunEnd(Blk(m, p.ei, |md0|, size), md0[p.ei], p.eo)
    ensures RunFreed(m, |md0|, size, p, start, end)
  {
    if p.si == p.ei {
      SpanFacts(off, bits, size, |md0|);
      FilledBlocks(old_m, |md0|, size, off, bits, false, p.si);
      FreedInBlock(Blk(old_m, p.si, |md0|, size), Blk(m, p.si, |md0|, size), md0[p.si], p.so, p.eo, start, end);
    }
  }

  lemma FreedInBlock(old_x: Bits, x: Bits, b: Md, a: nat, e: nat, start: nat, end: nat)
    requires Exact(old_x, b) && a < e && Taken(old_x, a, e) && x == Fill(old_x, a, e, false)
    requires start == RunStart(x, b, a) && end == RunEnd(x, b, e)
    ensures RunAround(x, a, e, start, end)
  {
    RunStartFacts(old_x, x, b, a);
    RunEndFacts(old_x, x, b, e);
    RunFilled(old_x, a, e, start, end);
  }

  lemma RunFilled(x: Bits, a: nat, e: nat, start: nat, end: nat)
    requires start <= a < e <= end <= |x| && Free(x, start, a) && Free(x, e, end)
    requires (start == 0 || x[start - 1]) && (end == |x| || x[end])
    ensures RunAround(Fill(x, a, e, false), a, e, start, end)
  {
  }

  /** pcpu_block_update_hint_free, up to the chunk's own hint: every summary is exact again. */
  method UpdateHintFree(ghost old_m: Bits, m: Bits, md0: seq<Md>, size: nat, off: nat, bits: nat)
    returns (md: seq<Md>, start: nat, end: nat)
    requires AllExact(old_m, md0, size) && Freed(old_m, m, |md0|, size, off, bits)
    ensures |md| == |md0| && AllExact(m, md, size)
    ensures RunFreed(m, |md|, size, SpanOf(off, bits, size), start, end)
  {
    var p, n := SpanOf(off, bits, size), |md0|;
    SpanFacts(off, bits, size, n);
    md, start, end := UpdateEdges(old_m, m, md0, size, off, bits, p);
    md := ResetBlocks(old_m, m, md, size, off, bits, p);
    forall i | 0 <= i < n
      ensures Exact(Blk(m, i, n, size), md[i])
    {
      FilledBlocks(old_m, n, size, off, bits, false, i);
    }
  }

  /** The first and the last block of the freed area. */
  method UpdateEdges(ghost old_m: Bits, m: Bits, md0: seq<Md>, size: nat, off: nat, bits: nat, p: Span)
    returns (md: seq<Md>, start: nat, end: nat)
    requires AllExact(old_m, md0, size) && Freed(old_m, m, |md0|, size, off, bits)
    requires p == SpanOf(off, bits, size) && p.si <= p.ei < |md0|
    ensures |md| == |md0| && forall i :: 0 <= i < |md0| && i != p.si && i != p.ei ==> md[i] == md0[i]
    ensures Exact(Blk(m, p.si, |md0|, size), md[p.si]) && Exact(Blk(m, p.ei, |md0|, size), md[p.ei])
    ensures RunFreed(m, |md0|, size, p, start, end)
  {
    var n := |md0|;
    start := RunStart(Blk(m, p.si, n, size), md0[p.si], p.so);
    end := RunEnd(Blk(m, p.ei, n, size), md0[p.ei], p.eo);
    FreedRun(old_m, m, md0, size, off, bits, p, start, end);
    EdgesExact(old_m, m, md0, size, off, bits, p, start, end);
    md := md0[p.si := BlockUpdate(md0[p.si], start, if p.si == p.ei then end else size, size)];
    if p.si != p.ei {
      md := md[p.ei := BlockUpdate(md0[p.ei], 0, end, size)];
    }
  }

  lemma EdgesExact(old_m: Bits, m: Bits, md0: seq<Md>, size: nat, off: nat, bits: nat, p: Span, start: nat, end: nat)
    requires AllExact(old_m, md0, size) && Freed(old_m, m, |md0|, size, off, bits)
    requires p == SpanOf(off, bits, size) && p.si <= p.ei < |md0|
    requires start == RunStart(Blk(m, p.si, |md0|, size), md0[p.si], p.so)
             && end == RunEnd(Blk(m, p.ei, |md0|, size), md0[p.ei], p.eo)
    ensures var e := if p.si == p.ei then end else size;
            start <= e && Exact(Blk(m, p.si, |md0|, size), BlockUpdate(md0[p.si], start, e, size))
    ensures p.si != p.ei ==> Exact(Blk(m, p.ei, |md0|, size), BlockUpdate(md0[p.ei], 0, end, size))
  {
    FirstEdge(old_m, m, md0, size, off, bits, p, start, end);
    if p.si != p.ei {
      LastEdge(old_m, m, md0, size, off, bits, p, end);
    }
  }

  lemma FirstEdge(old_m: Bits, m: Bits, md0: seq<Md>, size: nat, off: nat, bits: nat, p: Span, start: nat, end: nat)
    requires AllExact(old_m, md0, size) && Freed(old_m, m, |md0|, size, off, bits)
    requires p == SpanOf(off, bits, size) && p.si <= p.ei < |md0|
    requires start == RunStart(Blk(m, p.si, |md0|, size), md0[p.si], p.so)
             && end == RunEnd(Blk(m, p.ei, |md0|, size), md0[p.ei], p.eo)
    ensures var e := if p.si == p.ei then end else size;
            start <= e && Exact(Blk(m, p.si, |md0|, size), BlockUpdate(md0[p.si], start, e, size))
  {
    var n := |md0|;
    FreeStart(old_m, m, md0[p.si], n, size, off, bits);
    if p.si == p.ei {
      FreeEnd(old_m, m, md0[p.ei], n, size, off, bits);
    }
    FirstBlockAfterFree(old_m, m, md0[p.si], n, size, off, bits, start, end);
  }

  lemma LastEdge(old_m: Bits, m: Bits, md0: seq<Md>, size: nat, off: nat, bits: nat, p: Span, end: nat)
    requires AllExact(old_m, md0, size) && Freed(old_m, m, |md0|, size, off, bits)
    requires p == SpanOf(off, bits, size) && p.si < p.ei < |md0|
    requires end == RunEnd(Blk(m, p.ei, |md0|, size), md0[p.ei], p.eo)
    ensures Exact(Blk(m, p.ei, |md0|, size), BlockUpdate(md0[p.ei], 0, end, size))
  {
    FreeEnd(old_m, m, md0[p.ei], |md0|, size, off, bits);
    LastBlockAfterFree(old_m, m, md0[p.ei], |md0|, size, off, bits, end);
  }

  /** "reset md_blocks in the middle" */
  method ResetBlocks(ghost old_m: Bits, ghost m: Bits, md0: seq<Md>, size: nat, ghost off: nat, ghost bits: nat,
      p: Span) returns (md: seq<Md>)
    requires Freed(old_m, m, |md0|, size, off, bits) && p == SpanOf(off, bits, size) && p.si <= p.ei < |md0|
    ensures |md| == |md0| && (forall i :: 0 <= i < |md| && !(p.si < i < p.ei) ==> md[i] == md0[i])
    ensures forall i :: p.si < i < p.ei ==> Exact(Blk(m, i, |md|, size), md[i])
  {
    md := md0;
    var i := p.si + 1;
    while i < p.ei
      invariant p.si < i && (i <= p.ei || i == p.si + 1) && |md| == |md0|
      invariant forall j :: 0 <= j < |md| && !(p.si < j < i) ==> md[j] == md0[j]
      invariant forall j :: p.si < j < i && j < p.ei ==> Exact(Blk(m, j, |md|, size), md[j])
    {
      FilledBlocks(old_m, |md0|, size, off, bits, false, i);
      EmptyIsExact(Blk(m, i, |md0|, size));
      md := md[i := Md(size, 0, size, size, 0)];
      i := i + 1;
    }
  }
}
