/** pcpu_next_fit_region: the search for room in a percpu chunk by the summaries of its blocks, and exactly what it can see. */
module PercpuFit {
  import opened Align
  import opened Shifts
  import opened PercpuBlock
  import opened Stride
  import opened PercpuChunk
  import opened PercpuRefresh

  // ----- pcpu_next_fit_region

  /** From `off`, an aligned free area of this many bits starts within one block's distance. */
  ghost predicate Promised(m: Bits, off: nat, bits: nat, align: nat, size: nat)
    requires align > 0
  {
    exists s :: off <= s <= off + size && Aligned(s, align) && Free(m, s, s + bits)
  }

  lemma {:induction false} BaseAligned(i: nat, size: nat, align: nat)
    requires align > 0 && Aligned(size, align)
    ensures Aligned(Base(i, size), align)
  {
    if i > 0 {
      BaseAligned(i - 1, size, align);
      Combine(Base(i - 1, size), size, align);
    }
  }

  /** An aligned run that reaches the start of block i. */
  ghost predicate Reaches(m: Bits, i: nat, n: nat, size: nat, align: nat, off: nat, bits: nat) {
    && align > 0 && Aligned(size, align) && Shape(m, n, size) && i <= n
    && (bits > 0 ==> off + bits == Base(i, size) && Aligned(off, align) && Free(m, off, Base(i, size)))
  }

  lemma FirstBeforeHint(x: Bits, b: Md)
    requires Exact(x, b) && b.contig > 0
    ensures b.first <= b.start
  {
    if b.start < b.first {
      FreeOrTaken(x, b.start, Min(b.start + b.contig, b.first), 0, b.first);
    }
  }

  lemma FitInHint(m: Bits, i: nat, n: nat, size: nat, align: nat, b: Md, bits: nat)
    requires align > 0 && Aligned(size, align) && Shape(m, n, size) && i < n && Exact(Blk(m, i, n, size), b)
    requires b.contig > 0 && bits > 0 && b.contig >= Ceil(b.start, align) - b.start + bits
    ensures Promised(m, Base(i, size) + b.first, bits, align, size)
  {
    var x, c := Blk(m, i, n, size), Ceil(b.start, align);
    CeilFacts(b.start, align);
    BaseAligned(i, size, align);
    Combine(Base(i, size), c, align);
    FreeFromBlock(m, i, n, size, c, c + bits);
    FirstBeforeHint(x, b);
    var s := Base(i, size) + c;
    assert Free(m, s, s + bits);
  }

  lemma FitAtRight(m: Bits, i: nat, n: nat, size: nat, align: nat, b: Md)
    requires align > 0 && Aligned(size, align) && Shape(m, n, size) && i < n && Exact(Blk(m, i, n, size), b)
    ensures var c := Ceil(size - b.right, align);
            c <= size && Reaches(m, i + 1, n, size, align, Base(i, size) + c, size - c)
  {
    var c := Ceil(size - b.right, align);
    CeilFacts(size - b.right, align);
    BaseAligned(i, size, align);
    Combine(Base(i, size), c, align);
    FreeFromBlock(m, i, n, size, c, size);
  }

  lemma FitAcross(m: Bits, i: nat, n: nat, size: nat, align: nat, off: nat, bits: nat, b: Md)
    requires Reaches(m, i, n, size, align, off, bits) && bits > 0 && i < n && Exact(Blk(m, i, n, size), b)
    ensures Free(m, off, off + bits + b.left) && Aligned(off, align)
    ensures b.left == size ==> Reaches(m, i + 1, n, size, align, off, bits + b.left)
  {
    FreeFromBlock(m, i, n, size, 0, b.left);
  }

  /** An area of the wanted size is free where a run starts that the search carries on. */
  predicate Pending(m: Bits, off: nat, bits: nat, want: nat) {
    bits > 0 && Free(m, off, off + want)
  }

  /** What the search can see in the summary of a block: an area at the first aligned bit of its longest run, or one from the
      first aligned bit of the free bits at its end on. */
  predicate Shows(m: Bits, b: Md, size: nat, align: nat, want: nat, i: nat)
    requires align > 0 && b.right <= size
  {
    || (b.contig > 0 && b.contig >= Ceil(b.start, align) - b.start + want)
    || (Ceil(size - b.right, align) < size && Free(m, Base(i, size) + Ceil(size - b.right, align),
                                                   Base(i, size) + Ceil(size - b.right, align) + want))
  }

  lemma FreeJoin(m: Bits, a: nat, b: nat, c: nat)
    requires Free(m, a, b) && Free(m, b, c)
    ensures Free(m, a, c)
  {
  }

  /** A run that fills the block: whatever the block shows, the run has room for. */
  lemma CarriedOver(m: Bits, i: nat, n: nat, size: nat, align: nat, off: nat, bits: nat, b: Md, want: nat)
    requires Reaches(m, i, n, size, align, off, bits) && bits > 0 && i < n && Exact(Blk(m, i, n, size), b)
    requires b.left == size && bits + size < want
    ensures b.right <= size && (Shows(m, b, size, align, want, i) ==> Free(m, off, off + want))
  {
    var x := Blk(m, i, n, size);
    assert forall k :: 0 <= k < size ==> !x[k];
    assert b.right == size;
    CeilFacts(b.start, align);
    CeilFacts(0, align);
    if Free(m, Base(i, size), Base(i, size) + want) {
      FreeJoin(m, off, Base(i, size), Base(i, size) + want);
    }
  }

  /** A run that ends in the block with too few bits. */
  lemma CutShort(m: Bits, i: nat, n: nat, size: nat, align: nat, off: nat, bits: nat, b: Md, want: nat)
    requires Reaches(m, i, n, size, align, off, bits) && bits > 0 && i < n && Exact(Blk(m, i, n, size), b)
    requires b.left < size && bits + b.left < want
    ensures !Free(m, off, off + want)
  {
    BaseOrder(i, n, size);
    assert Blk(m, i, n, size)[b.left] && m[Base(i, size) + b.left];
  }

  /** One block of the search. */
  method FitInBlock(ghost m: Bits, b: Md, ghost n: nat, size: nat, align: nat, want: nat, i: nat, off0: nat,
      bits0: nat, blockOff: nat)
    returns (found: bool, off: nat, bits: nat)
    requires Reaches(m, i, n, size, align, off0, bits0) && i < n && Exact(Blk(m, i, n, size), b) && want > 0
    ensures found ==> Promised(m, off, want, align, size)
    ensures !found ==> bits < want && Reaches(m, i + 1, n, size, align, off, bits)
    ensures align == 1 && (b.contig == 0 || b.start >= blockOff) && Missed(m, i, size, want, Base(i, size) - bits0) ==>
              if found then NoRunBelow(m, want, off) else Missed(m, i + 1, size, want, Base(i + 1, size) - bits)
    ensures b.right <= size
    ensures b.contig == 0 || b.start >= blockOff ==>
              (found || Pending(m, off, bits, want) <==> Pending(m, off0, bits0, want) || Shows(m, b, size, align, want, i))
  {
    found, off, bits := true, off0, bits0;
    if bits > 0 {
      FitAcross(m, i, n, size, align, off, bits, b);
      bits := bits + b.left;
      if bits >= want {
        FitHere(m, off, off + bits, want, align, size);
        return;
      }
      if b.left == size {
        CarriedOver(m, i, n, size, align, off0, bits0, b, want);
      } else {
        CutShort(m, i, n, size, align, off0, bits0, b, want);
      }
      if Missed(m, i, size, want, Base(i, size) - bits0) {
        MissedAcross(m, i, n, size, want, b, bits0);
      }
      if b.left == size { return false, off, bits; }
    }
    found, off, bits := FitInside(m, b, n, size, align, want, i, blockOff);
  }

  /** The block by itself: its longest run, then the free bits at its end. */
  method FitInside(ghost m: Bits, b: Md, ghost n: nat, size: nat, align: nat, want: nat, i: nat, blockOff: nat)
    returns (found: bool, off: nat, bits: nat)
    requires align > 0 && Aligned(size, align) && Shape(m, n, size) && i < n && Exact(Blk(m, i, n, size), b) && want > 0
    ensures found ==> Promised(m, off, want, align, size)
    ensures !found ==> bits < want && Reaches(m, i + 1, n, size, align, off, bits)
    ensures align == 1 && (b.contig == 0 || b.start >= blockOff) && NoRunBelow(m, want, Base(i, size)) ==>
              if found then NoRunBelow(m, want, off) else Missed(m, i + 1, size, want, Base(i + 1, size) - bits)
    ensures b.right <= size
    ensures b.contig == 0 || b.start >= blockOff ==>
              (found || Pending(m, off, bits, want) <==> Shows(m, b, size, align, want, i))
  {
    CeilFacts(b.start, align);
    found, off, bits := true, 0, Ceil(b.start, align) - b.start;
    if b.contig > 0 && b.start >= blockOff && b.contig >= bits + want {
      off, bits := TakeHint(m, b, n, size, align, want, i);
      return;
    }
    found, off, bits := FitInRight(m, b, n, size, align, want, i);
    if align == 1 && (b.contig == 0 || b.start >= blockOff) && NoRunBelow(m, want, Base(i, size)) {
      MissedInside(m, i, n, size, want, b);
    }
  }

  method TakeHint(ghost m: Bits, b: Md, ghost n: nat, size: nat, align: nat, want: nat, i: nat) returns (off: nat, bits: nat)
    requires align > 0 && Aligned(size, align) && Shape(m, n, size) && i < n && Exact(Blk(m, i, n, size), b) && want > 0
    requires b.contig > 0 && b.contig >= Ceil(b.start, align) - b.start + want
    ensures Promised(m, off, want, align, size)
    ensures NoRunBelow(m, want, Base(i, size)) ==> NoRunBelow(m, want, off)
  {
    FitInHint(m, i, n, size, align, b, want);
    FirstBeforeHint(Blk(m, i, n, size), b);
    CeilFacts(b.start, align);
    bits := Ceil(b.start, align) - b.start + want + b.start - b.first;
    off := Base(i, size) + b.first;
    MissedBelowFirst(m, i, n, size, want, b);
  }

  lemma MissedBelowFirst(m: Bits, i: nat, n: nat, size: nat, want: nat, b: Md)
    requires Shape(m, n, size) && i < n && Exact(Blk(m, i, n, size), b) && want > 0
    ensures NoRunBelow(m, want, Base(i, size)) ==> NoRunBelow(m, want, Base(i, size) + b.first)
  {
    var x, base := Blk(m, i, n, size), Base(i, size);
    BaseOrder(i, n, size);
    forall s: nat | base <= s < base + b.first
      ensures !RunAt(m, s, want)
    {
      assert x[s - base] && m[s];
    }
  }

  /** Up to block i, no run of the wanted size starts before c, where the free run that reaches the block starts. */
  ghost predicate Missed(m: Bits, i: nat, size: nat, want: nat, c: int) {
    0 <= c <= Base(i, size) && Base(i, size) - c < want && Free(m, c, Base(i, size)) && NoRunBelow(m, want, c)
  }

  /** `want` free bits start at s. */
  predicate RunAt(m: Bits, s: nat, want: nat) {
    Free(m, s, s + want)
  }

  ghost predicate NoRunBelow(m: Bits, want: nat, c: int) {
    forall s: nat :: RunAt(m, s, want) ==> s >= c
  }

  /** The run that reaches block i is too short with the free bits that the block begins with. */
  lemma MissedAcross(m: Bits, i: nat, n: nat, size: nat, want: nat, b: Md, bits: nat)
    requires Shape(m, n, size) && i < n && Exact(Blk(m, i, n, size), b) && bits + b.left < want && bits <= Base(i, size)
    requires Missed(m, i, size, want, Base(i, size) - bits)
    ensures b.left < size ==> NoRunBelow(m, want, Base(i, size))
    ensures b.left == size ==> Missed(m, i + 1, size, want, Base(i, size) - bits)
  {
    var x, base := Blk(m, i, n, size), Base(i, size);
    BaseOrder(i, n, size);
    FreeFromBlock(m, i, n, size, 0, b.left);
    if b.left < size {
      assert x[b.left] && m[base + b.left];
      forall s: nat | RunAt(m, s, want)
        ensures s >= base
      {
        assert s >= base - bits;
      }
    }
  }

  /** Nor does it fit inside block i, so it can only start in the free bits at its end. */
  lemma MissedInside(m: Bits, i: nat, n: nat, size: nat, want: nat, b: Md)
    requires Shape(m, n, size) && i < n && Exact(Blk(m, i, n, size), b) && (b.contig == 0 || b.contig < want)
    requires NoRunBelow(m, want, Base(i, size)) && want > 0
    ensures b.right < want && Missed(m, i + 1, size, want, Base(i + 1, size) - b.right)
  {
    var base := Base(i, size);
    BaseOrder(i, n, size);
    FreeFromBlock(m, i, n, size, size - b.right, size);
    forall s: nat | RunAt(m, s, want)
      ensures s >= base + size - b.right
    {
      MissedStart(m, i, n, size, want, b, s);
    }
  }

  lemma MissedStart(m: Bits, i: nat, n: nat, size: nat, want: nat, b: Md, s: nat)
    requires Shape(m, n, size) && i < n && Exact(Blk(m, i, n, size), b) && (b.contig == 0 || b.contig < want) && want > 0
    requires RunAt(m, s, want) && s >= Base(i, size)
    ensures s >= Base(i, size) + size - b.right
  {
    var x, base := Blk(m, i, n, size), Base(i, size);
    BaseOrder(i, n, size);
    if s + want <= base + size {
      FreeInBlock(m, i, n, size, s, s + want);
    } else if b.right < size {
      var k := size - b.right - 1;
      assert x[k] && m[base + k];
    }
  }

  lemma CeilOne(x: nat)
    ensures Ceil(x, 1) == x
  {
  }

  lemma FitHere(m: Bits, off: nat, end: nat, want: nat, align: nat, size: nat)
    requires align > 0 && Aligned(off, align) && Free(m, off, end) && off + want <= end
    ensures Promised(m, off, want, align, size)
  {
    assert Free(m, off, off + want);
  }

  /** The end run of the block, from its first aligned bit on. */
  method FitInRight(ghost m: Bits, b: Md, ghost n: nat, size: nat, align: nat, want: nat, i: nat)
    returns (found: bool, off: nat, bits: nat)
    requires align > 0 && Aligned(size, align) && Shape(m, n, size) && i < n && Exact(Blk(m, i, n, size), b) && want > 0
    ensures found ==> Promised(m, off, want, align, size)
    ensures !found ==> bits < want && Reaches(m, i + 1, n, size, align, off, bits)
    ensures align == 1 ==> bits == b.right && (found <==> b.right >= want)
    ensures b.right <= size
    ensures var c := Ceil(size - b.right, align); c <= size && off == Base(i, size) + c && bits == size - c && (found <==> bits >= want)
    ensures found ==> Free(m, off, off + want)
  {
    if align == 1 {
      CeilOne(size - b.right);
    }
    FitAtRight(m, i, n, size, align, b);
    off := Ceil(size - b.right, align);
    bits := size - off;
    off := Base(i, size) + off;
    found := bits >= want;
    if found { FitHere(m, off, off + bits, want, align, size); }
  }

  lemma NothingMissed(m: Bits, n: nat, size: nat, want: nat, pos: nat)
    requires Shape(m, n, size) && size > 0 && Taken(m, 0, pos) && pos <= |m| && want > 0
    ensures pos / size <= n && Missed(m, pos / size, size, want, Base(pos / size, size))
  {
    SplitOffset(pos, size);
    if pos / size > n {
      BaseOrder(n, pos / size, size);
    }
    forall s: nat | RunAt(m, s, want)
      ensures s >= pos
    {
      assert s < |m| ==> m[s] || !m[s];
    }
  }

  lemma HintNotBefore(m: Bits, n: nat, size: nat, pos: nat, b: Md)
    requires Shape(m, n, size) && size > 0 && Taken(m, 0, pos) && pos / size < n && Exact(Blk(m, pos / size, n, size), b)
    ensures b.contig == 0 || b.start >= pos % size
  {
    SplitOffset(pos, size);
    if b.contig > 0 {
      FreeFromBlock(m, pos / size, n, size, b.start, b.start + b.contig);
      var at := Base(pos / size, size) + b.start;
      assert !m[at];
    }
  }

  predicate ShowsAt(m: Bits, md: seq<Md>, size: nat, align: nat, want: nat, j: nat) {
    align > 0 && j < |md| && md[j].right <= size && Shows(m, md[j], size, align, want, j)
  }

  /** Some block from block i on shows an area. */
  ghost predicate ShownFrom(m: Bits, md: seq<Md>, size: nat, align: nat, want: nat, i: nat) {
    exists j: nat :: i <= j && ShowsAt(m, md, size, align, want, j)
  }

  /** Nothing is free below pos. */
  predicate Clean(m: Bits, pos: nat) {
    pos <= |m| && Taken(m, 0, pos)
  }

  /** The blocks below pos are full, and show nothing. */
  lemma FullShowsNothing(m: Bits, md: seq<Md>, size: nat, align: nat, want: nat, pos: nat, j: nat)
    requires AllExact(m, md, size) && Clean(m, pos) && want > 0 && j < |md| && j < pos / size
    ensures !ShowsAt(m, md, size, align, want, j)
  {
    var x := Blk(m, j, |md|, size);
    assert Exact(x, md[j]);
    BaseOrder(j, |md|, size);
    SplitOffset(pos, size);
    BaseOrder(j, pos / size, size);
    assert forall k :: 0 <= k < size ==> x[k] == m[Base(j, size) + k];
    var b := md[j];
    if b.contig > 0 { FreeOrTaken(x, b.start, b.start + b.contig, 0, size); }
    FreeOrTaken(x, size - b.right, size, 0, size);
    if align > 0 { CeilFacts(size, align); }
  }

  lemma ShownAhead(m: Bits, md: seq<Md>, size: nat, align: nat, want: nat, pos: nat)
    requires AllExact(m, md, size) && Clean(m, pos) && want > 0
    ensures ShownFrom(m, md, size, align, want, 0) <==> ShownFrom(m, md, size, align, want, pos / size)
  {
    if j: nat :| ShowsAt(m, md, size, align, want, j) {
      if j < pos / size { FullShowsNothing(m, md, size, align, want, pos, j); }
      assert pos / size <= j;
    }
  }

  /** The search stands before block i with the run [off, off + bits). From a start below which nothing is free, something can
      still be found exactly if there was something to find. */
  ghost predicate Going(m: Bits, md: seq<Md>, size: nat, align: nat, want: nat, pos: nat, i: nat, off: nat,
      bits: nat, blockOff: nat)
    requires size > 0
  {
    && bits < want && (i <= |md| ==> Reaches(m, i, |md|, size, align, off, bits))
    && (blockOff == 0 || (i == pos / size && blockOff == pos % size))
    && (Clean(m, pos) ==>
          && i <= |md|
          && (ShownFrom(m, md, size, align, want, 0) <==> Pending(m, off, bits, want) || ShownFrom(m, md, size,
              align, want, i))
          && (align == 1 ==> Missed(m, i, size, want, Base(i, size) - bits)))
  }

  lemma GoingStarts(m: Bits, md: seq<Md>, size: nat, align: nat, want: nat, pos: nat)
    requires AllExact(m, md, size) && align > 0 && Aligned(size, align) && want > 0
    ensures Going(m, md, size, align, want, pos, pos / size, pos, 0, pos % size)
  {
    if Clean(m, pos) {
      NothingMissed(m, |md|, size, want, pos);
      ShownAhead(m, md, size, align, want, pos);
    }
  }

  lemma ShownNext(m: Bits, md: seq<Md>, size: nat, align: nat, want: nat, i: nat)
    requires align > 0 && i < |md| && md[i].right <= size
    ensures ShownFrom(m, md, size, align, want, i) <==>
              Shows(m, md[i], size, align, want, i) || ShownFrom(m, md, size, align, want, i + 1)
  {
    assert Shows(m, md[i], size, align, want, i) <==> ShowsAt(m, md, size, align, want, i);
    if j: nat :| i <= j && ShowsAt(m, md, size, align, want, j) {
      assert j == i || i + 1 <= j;
    }
  }

  lemma PromisedInside(m: Bits, off: nat, want: nat, align: nat, size: nat)
    requires align > 0 && want > 0 && Promised(m, off, want, align, size)
    ensures off < |m|
  {
  }

  lemma GoingEnds(m: Bits, md: seq<Md>, size: nat, align: nat, want: nat, pos: nat, off: nat, bits: nat, blockOff: nat)
    requires AllExact(m, md, size) && want > 0 && Clean(m, pos)
    requires Going(m, md, size, align, want, pos, |md|, off, bits, blockOff)
    ensures !ShownFrom(m, md, size, align, want, 0) && (align == 1 ==> NoRunBelow(m, want, |m|))
  {
  }

  /** One turn of the search. */
  method LookOn(ghost m: Bits, md: seq<Md>, size: nat, align: nat, want: nat, ghost pos: nat, i: nat, off0: nat,
      bits0: nat, blockOff: nat)
    returns (found: bool, off: nat, bits: nat)
    requires AllExact(m, md, size) && align > 0 && Aligned(size, align) && want > 0 && i < |md|
    requires Going(m, md, size, align, want, pos, i, off0, bits0, blockOff)
    ensures found ==> Promised(m, off, want, align, size)
    ensures found && Clean(m, pos) ==> ShownFrom(m, md, size, align, want, 0) && (align == 1 ==> NoRunBelow(m, want, off))
    ensures !found ==> Going(m, md, size, align, want, pos, i + 1, off, bits, 0)
  {
    assert Exact(Blk(m, i, |md|, size), md[i]);
    if Clean(m, pos) && blockOff > 0 {
      HintNotBefore(m, |md|, size, pos, md[i]);
    }
    found, off, bits := FitInBlock(m, md[i], |md|, size, align, want, i, off0, bits0, blockOff);
    ShownNext(m, md, size, align, want, i);
  }

  /** pcpu_next_fit_region: the offset is the end of the chunk, or an area of the wanted size and alignment is near it. From the
      first bit that may be free on, it is the end exactly if no block shows an area; and without alignment no area of the
      wanted size starts below it. */
  method NextFitRegion(ghost m: Bits, md: seq<Md>, size: nat, align: nat, want: nat, pos: nat) returns (off: nat)
    requires AllExact(m, md, size) && align > 0 && Aligned(size, align) && want > 0
    ensures off == |m| || Promised(m, off, want, align, size)
    ensures Clean(m, pos) ==> (off < |m| <==> ShownFrom(m, md, size, align, want, 0))
    ensures align == 1 && Clean(m, pos) ==> NoRunBelow(m, want, off)
  {
    var i: nat, blockOff: nat, bits: nat, found := pos / size, pos % size, 0, false;
    off := pos;
    GoingStarts(m, md, size, align, want, pos);
    while i < |md|
      invariant Going(m, md, size, align, want, pos, i, off, bits, blockOff)
    {
      found, off, bits := LookOn(m, md, size, align, want, pos, i, off, bits, blockOff);
      if found {
        PromisedInside(m, off, want, align, size);
        return;
      }
      blockOff := 0;
      i := i + 1;
    }
    if Clean(m, pos) { GoingEnds(m, md, size, align, want, pos, off, bits, blockOff); }
    off := Base(|md|, size);
  }

  // ----- What is always shown

  /** A run inside one block. */
  lemma InsideShows(m: Bits, md: seq<Md>, size: nat, align: nat, want: nat, i: nat, s: nat, e: nat)
    requires AllExact(m, md, size) && align > 0 && want > 0 && i < |md|
    requires Base(i, size) <= s && e <= Base(i, size) + size && Free(m, s, e) && e - s >= want + align - 1
    ensures ShowsAt(m, md, size, align, want, i)
  {
    assert Exact(Blk(m, i, |md|, size), md[i]);
    FreeInBlock(m, i, |md|, size, s, e);
    CeilFacts(md[i].start, align);
  }

  /** The free bits at the end of a block cover what is free up to its end. */
  lemma EndRunCovers(m: Bits, i: nat, n: nat, size: nat, b: Md, s: nat)
    requires Shape(m, n, size) && i < n && Exact(Blk(m, i, n, size), b)
    requires Base(i, size) <= s <= Base(i, size) + size && Free(m, s, Base(i, size) + size)
    ensures b.right <= size && Base(i, size) + size - b.right <= s
            && Free(m, Base(i, size) + size - b.right, Base(i, size) + size)
  {
    FreeInBlock(m, i, n, size, s, Base(i, size) + size);
    FreeFromBlock(m, i, n, size, size - b.right, size);
    var x := Blk(m, i, n, size);
    assert b.right < size ==> x[size - b.right - 1];
  }

  /** A run that goes past the end of block i, with an aligned bit before that end. */
  lemma AcrossShows(m: Bits, md: seq<Md>, size: nat, align: nat, want: nat, i: nat, s: nat, e: nat)
    requires AllExact(m, md, size) && align > 0 && want > 0 && i < |md|
    requires Base(i, size) <= s < Base(i, size) + size < e && Free(m, s, e) && e - s >= want + align - 1
    requires Ceil(s - Base(i, size), align) < size
    ensures ShowsAt(m, md, size, align, want, i)
  {
    var base, b := Base(i, size), md[i];
    assert Exact(Blk(m, i, |md|, size), b);
    EndRunCovers(m, i, |md|, size, b, s);
    CeilBetween(size - b.right, s - base, align);
    FreeJoin(m, base + size - b.right, base + size, e);
    FreePart(m, base + size - b.right, e, base + Ceil(size - b.right, align), want);
  }

  lemma CeilBetween(x: nat, y: nat, align: nat)
    requires align > 0 && x <= y
    ensures x <= Ceil(x, align) <= Ceil(y, align) <= y + align - 1
  {
    CeilFacts(x, align);
    CeilFacts(y, align);
  }

  lemma FreePart(m: Bits, a: nat, e: nat, s: nat, want: nat)
    requires Free(m, a, e) && a <= s && s + want <= e
    ensures Free(m, s, s + want)
  {
  }

  /** A run from the start of a block on. */
  lemma FromStartShows(m: Bits, md: seq<Md>, size: nat, align: nat, want: nat, i: nat, e: nat)
    requires AllExact(m, md, size) && align > 0 && want > 0 && i < |md|
    requires Free(m, Base(i, size), e) && e - Base(i, size) >= want + align - 1
    ensures ShowsAt(m, md, size, align, want, i)
  {
    var s := Base(i, size);
    if e <= s + size {
      InsideShows(m, md, size, align, want, i, s, e);
    } else {
      CeilZero(align);
      AcrossShows(m, md, size, align, want, i, s, e);
    }
  }

  lemma CeilZero(align: nat)
    requires align > 0
    ensures Ceil(0, align) == 0
  {
    SmallMod(align - 1, align);
  }

  lemma LongRunInBlock(m: Bits, md: seq<Md>, size: nat, align: nat, want: nat, i: nat, s: nat, e: nat) returns (j: nat)
    requires AllExact(m, md, size) && align > 0 && Aligned(size, align) && want > 0 && i < |md|
    requires Base(i, size) <= s < Base(i, size) + size && Free(m, s, e) && e - s >= want + 2 * (align - 1)
    ensures ShowsAt(m, md, size, align, want, j)
  {
    j := i;
    if e <= Base(i, size) + size {
      InsideShows(m, md, size, align, want, i, s, e);
    } else if Ceil(s - Base(i, size), align) < size {
      AcrossShows(m, md, size, align, want, i, s, e);
    } else {
      MisalignedTail(s - Base(i, size), size, align);
      BlockBelow(i + 1, |md|, size, Base(i, size) + size);
      j := i + 1;
      FromStartShows(m, md, size, align, want, j, e);
    }
  }

  /** A run with room to spare is always shown: as long as what is wanted and two misalignments. */
  lemma LongRunShows(m: Bits, md: seq<Md>, size: nat, align: nat, want: nat, s: nat)
    requires AllExact(m, md, size) && align > 0 && Aligned(size, align) && want > 0
    requires Free(m, s, s + want + 2 * (align - 1))
    ensures ShownFrom(m, md, size, align, want, 0)
  {
    SplitOffset(s, size);
    BlockBelow(s / size, |md|, size, s);
    var j := LongRunInBlock(m, md, size, align, want, s / size, s, s + want + 2 * (align - 1));
  }

  lemma MisalignedTail(x: nat, size: nat, align: nat)
    requires align > 0 && Aligned(size, align) && x < size && Ceil(x, align) >= size
    ensures size - x <= align - 1
  {
    CeilFacts(x, align);
  }

  /** A free run that holds the wanted area wherever it is aligned, with as much again to spare. */
  predicate RoomyAt(m: Bits, s: nat, want: nat, align: nat)
    requires align > 0
  {
    Free(m, s, s + want + 2 * (align - 1))
  }

  lemma LongRunsShow(m: Bits, md: seq<Md>, size: nat, align: nat, want: nat)
    requires AllExact(m, md, size) && align > 0 && Aligned(size, align) && want > 0
    ensures (exists s: nat :: RoomyAt(m, s, want, align)) ==> ShownFrom(m, md, size, align, want, 0)
  {
    if s: nat :| RoomyAt(m, s, want, align) {
      LongRunShows(m, md, size, align, want, s);
    }
  }
}
