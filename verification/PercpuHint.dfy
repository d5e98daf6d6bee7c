/** The hint of a percpu chunk: when it stays sound without a refresh. */
module PercpuHint {
  import opened Align
  import opened Shifts
  import opened PercpuBlock
  import opened Stride
  import opened PercpuChunk
  import opened PercpuRefresh
  import opened PercpuFit

  /** The hint names bits that are free, so it is no longer than the longest run. */
  predicate SoundHint(m: Bits, c: nat, s: nat) {
    c > 0 ==> Free(m, s, s + c)
  }

  /** pcpu_chunk_update replaces the hint. */
  predicate Replaces(c: nat, s: nat, at: nat, len: nat) {
    len > c || (len == c && s != 0 && (at == 0 || Ffs(at) > Ffs(s)))
  }

  /** How many free bits follow `start`, where the run inside block i ends at `end`; a whole free block after it counts once. */
  function BitsFrom(md: seq<Md>, size: nat, i: nat, start: nat, end: nat): int {
    end - start + if end == size && i + 1 < |md| then md[i + 1].left else 0
  }

  /** From `start` on, the free bits of block i end at `end`. */
  predicate Stops(m: Bits, i: nat, n: nat, size: nat, start: nat, end: nat) {
    && Shape(m, n, size) && i < n && start <= end <= size
    && var x := Blk(m, i, n, size); Free(x, start, end) && (end == size || x[end])
  }

  lemma StopsInBlock(m: Bits, i: nat, n: nat, size: nat, start: nat, end: nat)
    requires Stops(m, i, n, size, start, end)
    ensures var base := Base(i, size);
            base + size <= |m| && Free(m, base + start, base + end) && (end == size || m[base + end])
  {
    BaseOrder(i, n, size);
    FreeFromBlock(m, i, n, size, start, end);
    assert end < size ==> Blk(m, i, n, size)[end] == m[Base(i, size) + end];
  }

  /** The run goes on for that many bits, and stops there unless they are a block's length or more. */
  lemma RunStops(m: Bits, md: seq<Md>, size: nat, i: nat, start: nat, end: nat)
    requires AllExact(m, md, size) && Stops(m, i, |md|, size, start, end)
    ensures var at, k := Base(i, size) + start, BitsFrom(md, size, i, start, end);
            k >= 0 && Free(m, at, at + k) && (k >= size || at + k == |m| || m[at + k])
  {
    var n, base := |md|, Base(i, size);
    StopsInBlock(m, i, n, size, start, end);
    if end == size && i + 1 < n {
      var next := md[i + 1];
      assert Exact(Blk(m, i + 1, n, size), next);
      assert Stops(m, i + 1, n, size, 0, next.left);
      StopsInBlock(m, i + 1, n, size, 0, next.left);
      FreeJoin(m, base + start, base + size, base + size + next.left);
    }
  }

  /** A stretch of at most one block's length from the start of a run is free exactly if it is no longer than the run. */
  lemma StretchFits(m: Bits, md: seq<Md>, size: nat, i: nat, start: nat, end: nat, len: nat)
    requires AllExact(m, md, size) && Stops(m, i, |md|, size, start, end) && len <= size
    ensures Free(m, Base(i, size) + start, Base(i, size) + start + len) <==> len <= BitsFrom(md, size, i, start, end)
  {
    RunStops(m, md, size, i, start, end);
  }

  /** What taking an area does to the hint: the code looks at the start of the area alone. If it lies in the hint, the hint is
      exact afterwards. Otherwise the hint is left alone, and a sound one stays sound exactly if the area does not reach
      into it. */
  ghost predicate HintTaken(old_m: Bits, m: Bits, off: nat, want: nat, c: nat, s: nat, c': nat, s': nat) {
    if s <= off < s + c then Longest(m, c', s') else
      && c' == c && s' == s
      && (SoundHint(old_m, c, s) ==> (SoundHint(m, c, s) <==> c == 0 || off + want <= s || s + c <= off))
  }

  /** An area that does not start in the hint leaves it sound exactly if it does not reach into it either. */
  lemma AllocSound(m: Bits, c: nat, s: nat, off: nat, want: nat)
    requires SoundHint(m, c, s) && want > 0 && Free(m, off, off + want) && !(s <= off < s + c)
    ensures SoundHint(Fill(m, off, off + want, true), c, s) <==> c == 0 || off + want <= s || s + c <= off
  {
    var m' := Fill(m, off, off + want, true);
    if c > 0 && off < s < off + want {
      assert m'[s];
    }
  }

  /** A free in block i without a refresh turns the hint (c, s) into (c', s'): the start of the freed run [start, end) is paired
      with the longest run of the block. A sound hint stays sound exactly if it is not replaced, or if the longest run of
      the block is no longer than the freed one. */
  ghost predicate HintUpdated(old_m: Bits, m: Bits, md: seq<Md>, size: nat, i: nat, start: nat, end: nat, c: nat,
      s: nat, c': nat, s': nat) {
    && i < |md| && var at, len := Base(i, size) + start, md[i].contig;
    && c' == (if len > c then len else c) && s' == (if Replaces(c, s, at, len) then at else s)
    && (SoundHint(old_m, c, s) ==>
          (SoundHint(m, c', s') <==> !Replaces(c, s, at, len) || len <= BitsFrom(md, size, i, start, end)))
  }

  /** Every bit taken in m is taken in old_m. */
  predicate Fewer(m: Bits, old_m: Bits) {
    |m| == |old_m| && forall k :: 0 <= k < |m| && m[k] ==> old_m[k]
  }

  lemma FreeSound(old_m: Bits, m: Bits, md: seq<Md>, size: nat, i: nat, start: nat, end: nat, c: nat, s: nat)
    requires AllExact(m, md, size) && Stops(m, i, |md|, size, start, end) && start < end && Fewer(m, old_m)
    ensures var at, len := Base(i, size) + start, md[i].contig;
            HintUpdated(old_m, m, md, size, i, start, end, c, s, if len > c then len else c, ChunkStart(c, s, at, len))
  {
    var at, len := Base(i, size) + start, md[i].contig;
    assert Exact(Blk(m, i, |md|, size), md[i]);
    StretchFits(m, md, size, i, start, end, len);
    if SoundHint(old_m, c, s) { StaysSound(old_m, m, c, s); }
  }

  lemma StaysSound(old_m: Bits, m: Bits, c: nat, s: nat)
    requires SoundHint(old_m, c, s) && Fewer(m, old_m)
    ensures SoundHint(m, c, s)
  {
  }

  /** Whether pcpu_block_update_hint_free refreshes the chunk's hint: a page or a block became free, or the free crosses
      blocks. */
  predicate Refreshes(size: nat, pageBits: nat, p: Span, start: nat, end: nat)
    requires size > 0 && pageBits > 0
  {
    var unit := if pageBits < size then pageBits else size;
    AlignDown(end, unit) > Ceil(start, unit) || p.si != p.ei
  }

  /** What a free of the span p does to the hint, where [start, end) is the run around it: it is exact after every refresh. */
  ghost predicate HintFreed(old_m: Bits, m: Bits, md: seq<Md>, size: nat, p: Span, start: nat, end: nat, refresh: bool,
                            c: nat, s: nat, c': nat, s': nat)
  {
    && RunFreed(m, |md|, size, p, start, end)
    && if refresh then Longest(m, c', s')
       else HintUpdated(old_m, m, md, size, p.si, start, end, c, s, c', s')
  }

  lemma RunFreedStops(m: Bits, n: nat, size: nat, p: Span, start: nat, end: nat)
    requires RunFreed(m, n, size, p, start, end) && p.si == p.ei
    ensures start < end && Stops(m, p.si, n, size, start, end)
  {
  }

  /** The chunk's hint at the end of pcpu_block_update_hint_free. */
  method HintAfterFree(ghost old_m: Bits, ghost m: Bits, md: seq<Md>, size: nat, firstBit: nat, p: Span,
                       start: nat, end: nat, refresh: bool, c: nat, s: nat)
    returns (c': nat, s': nat)
    requires AllExact(m, md, size) && firstBit <= |m| && Taken(m, 0, firstBit)
    requires p.si < |md| && RunFreed(m, |md|, size, p, start, end) && (p.si != p.ei ==> refresh)
    requires Fewer(m, old_m)
    ensures HintFreed(old_m, m, md, size, p, start, end, refresh, c, s, c', s')
  {
    if refresh {
      c', s' := ChunkRefreshHint(m, md, size, firstBit, s);
    } else {
      RunFreedStops(m, |md|, size, p, start, end);
      FreeSound(old_m, m, md, size, p.si, start, end, c, s);
      var at, len := Base(p.si, size) + start, md[p.si].contig;
      s' := ChunkStart(c, s, at, len);
      c' := if len > c then len else c;
    }
  }
}
