/** Allocating and freeing areas of a percpu chunk: the search by summaries, the boundary map, and the chunk as a whole. */
module PercpuArea {
  import opened Align
  import opened Shifts
  import opened PercpuBlock
  import opened Stride
  import opened PercpuChunk
  import opened PercpuRefresh
  import opened PercpuFit
  import opened PercpuHint

  // ----- The boundary map

  /** An area's ends are marked and nothing between them is. */
  predicate Marked(bound: Bits, off: nat, len: nat) {
    off + len < |bound| && bound[off] && bound[off + len] && forall k :: off < k < off + len ==> !bound[k]
  }

  /** `live` maps the offset of each live area to its length. The allocated bits are exactly the bits of the live areas, which
      are disjoint, and each live area can be read off the boundary map. Freed space may hold stale marks. */
  ghost predicate Bounded(m: Bits, bound: Bits, live: map<nat, nat>) {
    && |bound| == |m| + 1
    && (forall o :: o in live ==> live[o] > 0 && Taken(m, o, o + live[o]) && Marked(bound, o, live[o]))
    && (forall o, p :: o in live && p in live && o < p ==> o + live[o] <= p)
    && (forall i :: 0 <= i < |m| && m[i] ==> exists o :: o in live && o <= i < o + live[o])
  }

  /** set_bit, bitmap_clear, set_bit on the boundary map. */
  function MarkArea(bound: Bits, off: nat, len: nat): (r: Bits)
    requires len > 0 && off + len < |bound|
    ensures |r| == |bound| && Marked(r, off, len)
    ensures forall i :: 0 <= i < |bound| && !(off <= i <= off + len) ==> r[i] == bound[i]
  {
    Fill(bound[off := true], off + 1, off + len, false)[off + len := true]
  }

  lemma LiveApart(m: Bits, bound: Bits, live: map<nat, nat>, off: nat, len: nat, o: nat)
    requires Bounded(m, bound, live) && o in live && Free(m, off, off + len) && len > 0
    ensures o + live[o] <= off || off + len <= o
  {
    var atLive, atFree := m[o], m[off];
  }

  /** The live areas are as they were. */
  lemma LiveKept(m: Bits, bound: Bits, live: map<nat, nat>, off: nat, len: nat, o: nat)
    requires Bounded(m, bound, live) && len > 0 && Free(m, off, off + len) && o in live
    ensures o + live[o] <= off || off + len <= o
    ensures Taken(Fill(m, off, off + len, true), o, o + live[o]) && Marked(MarkArea(bound, off, len), o, live[o])
  {
    LiveApart(m, bound, live, off, len, o);
  }

  /** Every bit that is set belongs to a live area. */
  lemma CoveredAlloc(m: Bits, bound: Bits, live: map<nat, nat>, off: nat, len: nat, i: nat)
    requires Bounded(m, bound, live) && len > 0 && Free(m, off, off + len) && off !in live
    requires i < |m| && Fill(m, off, off + len, true)[i]
    ensures var live' := live[off := len]; exists o :: o in live' && o <= i < o + live'[o]
  {
    var live' := live[off := len];
    if off <= i < off + len {
      assert off in live';
    } else {
      var o :| o in live && o <= i < o + live[o];
      assert o in live';
    }
  }

  lemma BoundAlloc(m: Bits, bound: Bits, live: map<nat, nat>, off: nat, len: nat)
    requires Bounded(m, bound, live) && len > 0 && Free(m, off, off + len)
    ensures Bounded(Fill(m, off, off + len, true), MarkArea(bound, off, len), live[off := len])
  {
    var m' := Fill(m, off, off + len, true);
    forall o | o in live
      ensures o + live[o] <= off || off + len <= o
      ensures Taken(m', o, o + live[o]) && Marked(MarkArea(bound, off, len), o, live[o])
    {
      LiveKept(m, bound, live, off, len, o);
    }
    assert off !in live;
    var live' := live[off := len];
    forall i | 0 <= i < |m'| && m'[i]
      ensures exists o :: o in live' && o <= i < o + live'[o]
    {
      CoveredAlloc(m, bound, live, off, len, i);
    }
  }

  /** The length of a live area is found again from the boundary map. */
  lemma LengthFound(m: Bits, bound: Bits, live: map<nat, nat>, o: nat)
    requires Bounded(m, bound, live) && o in live
    ensures NextBit(bound[..|m|], o + 1, true) == o + live[o]
  {
    var b, e := bound[..|m|], o + live[o];
    var r := NextBit(b, o + 1, true);
    assert e < |m| ==> b[e];
  }

  lemma BoundFree(m: Bits, bound: Bits, live: map<nat, nat>, o: nat)
    requires Bounded(m, bound, live) && o in live
    ensures Bounded(Fill(m, o, o + live[o], false), bound, live - {o})
  {
    var m', live' := Fill(m, o, o + live[o], false), live - {o};
    forall p | p in live'
      ensures Taken(m', p, p + live'[p])
    {
    }
    forall i | 0 <= i < |m'| && m'[i]
      ensures exists p :: p in live' && p <= i < p + live'[p]
    {
      assert m[i];
      var p :| p in live && p <= i < p + live[p];
      assert p in live';
    }
  }

  // ----- Counting free bits

  function CountTo(m: Bits, n: nat): nat
    requires n <= |m|
  {
    if n == 0 then 0 else CountTo(m, n - 1) + if m[n - 1] then 0 else 1
  }

  function CountFree(m: Bits): nat {
    CountTo(m, |m|)
  }

  lemma {:induction false} CountFillTo(m: Bits, a: nat, e: nat, v: bool, n: nat)
    requires a <= e <= |m| && n <= |m| && forall i :: a <= i < e ==> m[i] == !v
    ensures var inside := if n <= a then 0 else if n <= e then n - a else e - a;
            CountTo(Fill(m, a, e, v), n) == CountTo(m, n) + if v then -inside else inside
    decreases n
  {
    if n > 0 {
      CountFillTo(m, a, e, v, n - 1);
    }
  }

  lemma CountFill(m: Bits, a: nat, e: nat, v: bool)
    requires a <= e <= |m| && forall i :: a <= i < e ==> m[i] == !v
    ensures CountFree(Fill(m, a, e, v)) == CountFree(m) + if v then a - e else e - a
  {
    CountFillTo(m, a, e, v, |m|);
  }

  /** bitmap_find_next_zero_area: the lowest aligned free area from `s` on. */
  function FindZeroArea(m: Bits, s: nat, bits: nat, align: nat): (r: nat)
    requires align > 0
    ensures r + bits <= |m| ==> s <= r && Aligned(r, align) && Free(m, r, r + bits)
    ensures forall t :: s <= t && Aligned(t, align) && Free(m, t, t + bits) ==> r <= t
    decreases |m| - s
  {
    if s + bits > |m| then s
    else if Aligned(s, align) && Free(m, s, s + bits) then s
    else FindZeroArea(m, s + 1, bits, align)
  }

  // ----- The chunk

  /** PCPU_MIN_ALLOC_SIZE */
  const MIN_ALLOC := 4

  datatype Maybe = Nothing | Just(value: nat)

  lemma FreshChunkExact(m: Bits, n: nat, size: nat)
    requires Shape(m, n, size) && Free(m, 0, |m|)
    ensures AllExact(m, seq(n, _ => Md(size, 0, size, size, 0)), size)
  {
    forall i | 0 <= i < n
      ensures Exact(Blk(m, i, n, size), Md(size, 0, size, size, 0))
    {
      BaseOrder(i, n, size);
      FreeInBlock(m, i, n, size, Base(i, size), Base(i, size) + size);
      EmptyIsExact(Blk(m, i, n, size));
    }
  }

  lemma {:induction false} CountAllFree(m: Bits, n: nat)
    requires n <= |m| && Free(m, 0, |m|)
    ensures CountTo(m, n) == n
  {
    if n > 0 { CountAllFree(m, n - 1); }
  }

  /** The books of a chunk apart from its hints: areas and boundaries, the count of free bytes, and the first bit that may be
      free. */
  ghost predicate Books(m: Bits, bound: Bits, live: map<nat, nat>, freeBytes: int, firstBit: nat) {
    && Bounded(m, bound, live) && freeBytes == MIN_ALLOC * CountFree(m)
    && firstBit <= |m| && Taken(m, 0, firstBit)
  }

  lemma BooksAlloc(m: Bits, bound: Bits, live: map<nat, nat>, freeBytes: int, firstBit: nat, off: nat, len: nat)
    requires Books(m, bound, live, freeBytes, firstBit) && len > 0 && Free(m, off, off + len)
    ensures off !in live
    ensures var m' := Fill(m, off, off + len, true);
            Books(m', MarkArea(bound, off, len), live[off := len], freeBytes - len * MIN_ALLOC,
                  if off == firstBit then NextBit(m', off + len, false) else firstBit)
  {
    BoundAlloc(m, bound, live, off, len);
    CountFill(m, off, off + len, true);
    if off in live { LiveApart(m, bound, live, off, len, off); }
  }

  lemma FirstAfterFree(m: Bits, firstBit: nat, off: nat, e: nat)
    requires firstBit <= |m| && Taken(m, 0, firstBit) && off <= e <= |m|
    ensures var first := if off < firstBit then off else firstBit;
            first <= |Fill(m, off, e, false)| && Taken(Fill(m, off, e, false), 0, first)
  {
  }

  lemma AreaTaken(m: Bits, bound: Bits, live: map<nat, nat>, off: nat)
    requires Bounded(m, bound, live) && off in live
    ensures live[off] > 0 && Taken(m, off, off + live[off])
  {
  }

  lemma CountFreed(m: Bits, off: nat, len: nat, freeBytes: int)
    requires Taken(m, off, off + len) && freeBytes == MIN_ALLOC * CountFree(m)
    ensures freeBytes + len * MIN_ALLOC == MIN_ALLOC * CountFree(Fill(m, off, off + len, false))
  {
    CountFill(m, off, off + len, false);
  }

  lemma BooksFree(m: Bits, bound: Bits, live: map<nat, nat>, freeBytes: int, firstBit: nat, off: nat)
    requires Books(m, bound, live, freeBytes, firstBit) && off in live
    ensures live[off] > 0 && Taken(m, off, off + live[off])
    ensures Books(Fill(m, off, off + live[off], false), bound, live - {off}, freeBytes + live[off] * MIN_ALLOC,
                  if off < firstBit then off else firstBit)
  {
    AreaTaken(m, bound, live, off);
    BoundFree(m, bound, live, off);
    CountFreed(m, off, live[off], freeBytes);
    FirstAfterFree(m, firstBit, off, off + live[off]);
  }

  /** The lowest aligned free area from `start` on. */
  ghost predicate LowestFit(m: Bits, start: nat, want: nat, align: nat, off: nat)
    requires align > 0
  {
    && start <= off && Aligned(off, align) && Free(m, off, off + want)
    && forall t :: start <= t && Aligned(t, align) && Free(m, t, t + want) ==> off <= t
  }

  /** The search of pcpu_alloc_area, up to one block past `start`. */
  method SearchArea(m: Bits, size: nat, want: nat, align: nat, start: nat) returns (r: Maybe)
    requires align > 0
    ensures Promised(m, start, want, align, size) ==> r.Just?
    ensures r.Just? ==> LowestFit(m, start, want, align, r.value)
    ensures r.Nothing? ==> forall t :: start <= t <= start + size && Aligned(t, align) ==> !Free(m, t, t + want)
  {
    var end := start + want + size;
    var off := FindZeroArea(m, start, want, align);
    if off + want > end || off + want > |m| { return Nothing; }
    return Just(off);
  }

  /** The length of an area, from the boundary map. */
  method AreaLength(m: Bits, bound: Bits, ghost live: map<nat, nat>, off: nat) returns (bits: nat)
    requires Bounded(m, bound, live) && off in live
    ensures bits == live[off]
  {
    LengthFound(m, bound, live, off);
    var end := NextBit(bound[..|m|], off + 1, true);
    bits := end - off;
  }

  /** The new books when an area is freed; its length comes from the boundary map. */
  method FreedBooks(m: Bits, bound: Bits, ghost live: map<nat, nat>, freeBytes: int, firstBit: nat, off: nat)
    returns (bits: nat, m': Bits, freeBytes': int, firstBit': nat)
    requires Books(m, bound, live, freeBytes, firstBit) && off in live
    ensures Books(m', bound, live - {off}, freeBytes', firstBit') && bits == live[off] > 0
    ensures Taken(m, off, off + bits) && m' == Fill(m, off, off + bits, false)
  {
    bits := AreaLength(m, bound, live, off);
    BooksFree(m, bound, live, freeBytes, firstBit, off);
    m', freeBytes' := Fill(m, off, off + bits, false), freeBytes + bits * MIN_ALLOC;
    firstBit' := if off < firstBit then off else firstBit;
  }

  lemma HintRulesOut(m: Bits, c: nat, start: nat, want: nat)
    ensures Longest(m, c, start) && c < want ==> forall s: nat :: !RunAt(m, s, want)
  {
  }

  lemma PromisedRun(m: Bits, off: nat, want: nat, align: nat, size: nat)
    requires align > 0 && Promised(m, off, want, align, size)
    ensures exists s: nat :: RunAt(m, s, want)
  {
    var s :| off <= s <= off + size && Aligned(s, align) && Free(m, s, s + want);
    assert RunAt(m, s, want);
  }

  class Chunk {
    const size: nat
    const pageBits: nat
    var allocMap: Bits
    var boundMap: Bits
    var md: seq<Md>
    var freeBytes: int
    var contigBits: nat
    var contigStart: nat
    var firstBit: nat
    ghost var live: map<nat, nat>

    ghost predicate Valid()
      reads this
    {
      && size > 0 && pageBits > 0
      && AllExact(allocMap, md, size)
      && Books(allocMap, boundMap, live, freeBytes, firstBit)
    }

    /** The chunk's own hint is the longest free run. */
    ghost predicate HintExact()
      reads this
    {
      Longest(allocMap, contigBits, contigStart)
    }

    /** pcpu_alloc_chunk: everything is free. */
    constructor (blocks: nat, size: nat, pageBits: nat)
      requires size > 0 && pageBits > 0
      ensures Valid() && HintExact() && live == map[] && |md| == blocks && this.size == size && this.pageBits == pageBits
      ensures |allocMap| == Base(blocks, size) == contigBits && contigStart == 0 && Free(allocMap, 0, |allocMap|)
    {
      this.size, this.pageBits := size, pageBits;
      var bits := Base(blocks, size);
      allocMap := seq(bits, _ => false);
      boundMap := seq(bits + 1, _ => false);
      md := seq(blocks, _ => Md(size, 0, size, size, 0));
      freeBytes, contigBits, contigStart, firstBit, live := MIN_ALLOC * bits, bits, 0, 0, map[];
      new;
      FreshChunkExact(allocMap, blocks, size);
      CountAllFree(allocMap, |allocMap|);
    }

    /** The test against the chunk's own hint. */
    predicate HintAllows(want: nat, align: nat)
      requires align > 0
      reads this
    {
      Ceil(contigStart, align) - contigStart + want <= contigBits
    }

    /** pcpu_find_block_fit for any page population: a returned offset promises an area near it. It finds one exactly if the
        chunk's hint allows it and the summary of some block shows one, which they do of every run that is long enough for
        any misalignment. Without alignment that is exactly if there is one, and no area of the wanted size starts below
        the offset. */
    method FindBlockFit(want: nat, align: nat) returns (r: Maybe)
      requires Valid() && want > 0 && align > 0 && Aligned(size, align)
      ensures r.Just? ==> Promised(allocMap, r.value, want, align, size)
      ensures align == 1 && (contigBits >= want || HintExact()) ==> (r.Just? <==> exists s: nat :: RunAt(allocMap, s, want))
      ensures align == 1 && r.Just? ==> NoRunBelow(allocMap, want, r.value)
      ensures r.Just? <==> HintAllows(want, align) && ShownFrom(allocMap, md, size, align, want, 0)
      ensures HintAllows(want, align) && (exists s: nat :: RoomyAt(allocMap, s, want, align)) ==> r.Just?
    {
      CeilOne(contigStart);
      LongRunsShow(allocMap, md, size, align, want);
      if Ceil(contigStart, align) - contigStart + want > contigBits {
        HintRulesOut(allocMap, contigBits, contigStart, want);
        return Nothing;
      }
      var off := NextFitRegion(allocMap, md, size, align, want, firstBit);
      if off == |allocMap| { return Nothing; }
      PromisedRun(allocMap, off, want, align, size);
      return Just(off);
    }

    /** pcpu_block_update_hint_alloc with the chunk's hint. */
    method HintsAfterAlloc(ghost old_m: Bits, off: nat, bits: nat)
      requires AllExact(old_m, md, size) && Allocated(old_m, allocMap, |md|, size, off, bits)
      requires firstBit <= |allocMap| && Taken(allocMap, 0, firstBit)
      modifies this`md, this`contigBits, this`contigStart
      ensures AllExact(allocMap, md, size) && |md| == old(|md|)
      ensures HintTaken(old_m, allocMap, off, bits, old(contigBits), old(contigStart), contigBits, contigStart)
    {
      md := UpdateHintAlloc(old_m, allocMap, md, size, off, bits);
      if contigStart <= off < contigStart + contigBits {
        contigBits, contigStart := ChunkRefreshHint(allocMap, md, size, firstBit, contigStart);
      } else if SoundHint(old_m, contigBits, contigStart) {
        AllocSound(old_m, contigBits, contigStart, off, bits);
      }
    }

    /** The two bitmaps, free_bytes and first_bit when an area is allocated. */
    method RecordAlloc(off: nat, len: nat)
      requires Books(allocMap, boundMap, live, freeBytes, firstBit) && len > 0 && Free(allocMap, off, off + len)
      modifies this`allocMap, this`boundMap, this`live, this`freeBytes, this`firstBit
      ensures Books(allocMap, boundMap, live, freeBytes, firstBit)
      ensures off !in old(live) && live == old(live)[off := len] && allocMap == Fill(old(allocMap), off, off + len, true)
    {
      BooksAlloc(allocMap, boundMap, live, freeBytes, firstBit, off, len);
      allocMap := Fill(allocMap, off, off + len, true);
      boundMap := MarkArea(boundMap, off, len);
      live := live[off := len];
      freeBytes := freeBytes - len * MIN_ALLOC;
      if off == firstBit {
        firstBit := NextBit(allocMap, off + len, false);
      }
    }

    /** The same when an area is freed. */
    method RecordFree(off: nat) returns (bits: nat)
      requires Books(allocMap, boundMap, live, freeBytes, firstBit) && off in live
      modifies this`allocMap, this`live, this`freeBytes, this`firstBit
      ensures Books(allocMap, boundMap, live, freeBytes, firstBit)
      ensures live == old(live) - {off} && bits == old(live[off]) > 0 && old(Taken(allocMap, off, off + live[off]))
      ensures off + bits <= |old(allocMap)| && allocMap == Fill(old(allocMap), off, off + bits, false)
    {
      bits, allocMap, freeBytes, firstBit := FreedBooks(allocMap, boundMap, live, freeBytes, firstBit, off);
      live := live - {off};
    }

    /** pcpu_alloc_area: the lowest aligned free area within reach becomes a live area. It is taken inside the bitmap and
        cannot fail when the offset came from pcpu_find_block_fit, although the search limit may lie past the bitmap. */
    method AllocArea(want: nat, align: nat, start: nat) returns (r: Maybe)
      requires Valid() && want > 0 && align > 0
      modifies this
      ensures Valid() && |allocMap| == old(|allocMap|) && |md| == old(|md|)
      ensures old(Promised(allocMap, start, want, align, size)) ==> r.Just?
      ensures r.Nothing? ==>
                && (forall t :: start <= t <= start + size && Aligned(t, align) ==> !Free(allocMap, t, t + want))
                && live == old(live) && allocMap == old(allocMap) && contigBits == old(contigBits)
                    && contigStart == old(contigStart)
      ensures r.Just? ==> r.value % MIN_ALLOC == 0 && var off := r.value / MIN_ALLOC;
                && LowestFit(old(allocMap), start, want, align, off) && off !in old(live)
                && live == old(live)[off := want] && allocMap == Fill(old(allocMap), off, off + want, true)
                && HintTaken(old(allocMap), allocMap, off, want, old(contigBits), old(contigStart), contigBits, contigStart)
    {
      var found := AllocBits(want, align, start);
      r := if found.Nothing? then Nothing else Just(found.value * MIN_ALLOC);
    }

    /** The same with offsets in bits. */
    method AllocBits(want: nat, align: nat, start: nat) returns (r: Maybe)
      requires Valid() && want > 0 && align > 0
      modifies this
      ensures Valid() && |allocMap| == old(|allocMap|) && |md| == old(|md|)
      ensures old(Promised(allocMap, start, want, align, size)) ==> r.Just?
      ensures r.Nothing? ==>
                && (forall t :: start <= t <= start + size && Aligned(t, align) ==> !Free(allocMap, t, t + want))
                && live == old(live) && allocMap == old(allocMap) && contigBits == old(contigBits)
                    && contigStart == old(contigStart)
      ensures r.Just? ==> var off := r.value;
                && LowestFit(old(allocMap), start, want, align, off) && off !in old(live)
                && live == old(live)[off := want] && allocMap == Fill(old(allocMap), off, off + want, true)
                && HintTaken(old(allocMap), allocMap, off, want, old(contigBits), old(contigStart), contigBits, contigStart)
    {
      r := SearchArea(allocMap, size, want, align, start);
      if r.Just? {
        ghost var m0 := allocMap;
        RecordAlloc(r.value, want);
        HintsAfterAlloc(m0, r.value, want);
      }
    }

    /** pcpu_free_area: the boundary map gives back exactly the area that was allocated at this offset. */
    method FreeArea(addr: nat) returns (ghost start: nat, ghost end: nat)
      requires Valid() && addr / MIN_ALLOC in live
      modifies this
      ensures Valid() && live == old(live) - {addr / MIN_ALLOC} && |md| == old(|md|)
      ensures allocMap == old(Fill(allocMap, addr / MIN_ALLOC, addr / MIN_ALLOC + live[addr / MIN_ALLOC], false))
      ensures var p := SpanOf(addr / MIN_ALLOC, old(live[addr / MIN_ALLOC]), size);
              HintFreed(old(allocMap), allocMap, md, size, p, start, end, Refreshes(size, pageBits, p, start, end),
                        old(contigBits), old(contigStart), contigBits, contigStart)
    {
      var off := addr / MIN_ALLOC;
      ghost var m0 := allocMap;
      var bits := RecordFree(off);
      start, end := HintsAfterFree(m0, off, bits);
    }

    /** pcpu_block_update_hint_free with the chunk's hint. */
    method HintsAfterFree(ghost old_m: Bits, off: nat, bits: nat) returns (ghost start: nat, ghost end: nat)
      requires pageBits > 0 && AllExact(old_m, md, size) && Freed(old_m, allocMap, |md|, size, off, bits)
      requires firstBit <= |allocMap| && Taken(allocMap, 0, firstBit)
      modifies this`md, this`contigBits, this`contigStart
      ensures AllExact(allocMap, md, size) && |md| == old(|md|)
      ensures var p := SpanOf(off, bits, size);
              HintFreed(old_m, allocMap, md, size, p, start, end, Refreshes(size, pageBits, p, start, end),
                        old(contigBits), old(contigStart), contigBits, contigStart)
    {
      var from, to;
      md, from, to := UpdateHintFree(old_m, allocMap, md, size, off, bits);
      start, end := from, to;
      SpanFacts(off, bits, size, |md|);
      var p := SpanOf(off, bits, size);
      var refresh := Refreshes(size, pageBits, p, from, to);
      contigBits, contigStart :=
        HintAfterFree(old_m, allocMap, md, size, firstBit, p, from, to, refresh, contigBits, contigStart);
    }

    /** One chunk's turn in pcpu_alloc: find a block, then take an area there. It succeeds exactly if the hint allows it and some
        block shows an area. Without alignment that is exactly if some run is long enough, and it takes the lowest such run
        of the whole chunk. */
    method Alloc(want: nat, align: nat) returns (r: Maybe)
      requires Valid() && want > 0 && align > 0 && Aligned(size, align)
      modifies this
      ensures Valid() && |allocMap| == old(|allocMap|) && |md| == old(|md|)
      ensures r.Nothing? ==> live == old(live) && allocMap == old(allocMap)
      ensures r.Nothing? ==> contigBits == old(contigBits) && contigStart == old(contigStart)
      ensures r.Just? ==> var off := r.value;
                && Aligned(off, align) && old(Free(allocMap, off, off + want))
                && (align == 1 ==> NoRunBelow(old(allocMap), want, off))
                && live == old(live)[off := want] && allocMap == Fill(old(allocMap), off, off + want, true)
                && HintTaken(old(allocMap), allocMap, off, want, old(contigBits), old(contigStart), contigBits, contigStart)
      ensures align == 1 ==> (r.Just? <==> old(contigBits >= want && exists s: nat :: RunAt(allocMap, s, want)))
      ensures r.Just? <==> old(HintAllows(want, align) && ShownFrom(allocMap, md, size, align, want, 0))
      ensures old(HintAllows(want, align) && exists s: nat :: RoomyAt(allocMap, s, want, align)) ==> r.Just?
    {
      CeilOne(contigStart);
      r := FindBlockFit(want, align);
      if r.Just? {
        ghost var m0 := allocMap;
        var addr := AllocArea(want, align, r.value);
        if align == 1 {
          FirstOfAll(m0, want, r.value, addr.value / MIN_ALLOC);
        }
        r := Just(addr.value / MIN_ALLOC);
      }
    }
  }

  lemma FirstOfAll(m: Bits, want: nat, start: nat, off: nat)
    requires NoRunBelow(m, want, start) && LowestFit(m, start, want, 1, off)
    ensures NoRunBelow(m, want, off)
  {
    forall s: nat | RunAt(m, s, want)
      ensures s >= off
    {
      assert Aligned(s, 1);
    }
  }
}
