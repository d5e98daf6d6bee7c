/** pcpu_chunk_refresh_hint: the longest free run of a whole chunk, found from the block summaries alone. */
module PercpuRefresh {
  import opened Shifts
  import opened PercpuBlock
  import opened Stride
  import opened PercpuChunk

  function Max(a: int, b: int): int {
    if a > b then a else b
  }

  /** Every free run that starts below `pos` has at most `best` bits. */
  ghost predicate SeenBelow(m: Bits, pos: int, best: int) {
    forall a, b :: Free(m, a, b) && a < pos ==> b - a <= best
  }

  /** The run [q, q + bits) reaches the start of block i and may go on there; without one, bits is 0. */
  ghost predicate Carrying(m: Bits, i: nat, n: nat, size: nat, pos: nat, best: nat, q: nat, bits: nat) {
    && Shape(m, n, size) && i <= n
    && (bits > 0 ==> q + bits == Base(i, size) && Free(m, q, Base(i, size)))
    && SeenBelow(m, if bits > 0 then q else Max(pos, Base(i, size)), Max(best, bits))
  }

  lemma FreeInBlock(m: Bits, i: nat, n: nat, size: nat, a: nat, b: nat)
    requires Shape(m, n, size) && i < n && Free(m, a, b) && Base(i, size) <= a && b <= Base(i, size) + size
    ensures Free(Blk(m, i, n, size), a - Base(i, size), b - Base(i, size))
  {
    BaseOrder(i, n, size);
    var x := Blk(m, i, n, size);
    forall k | a - Base(i, size) <= k < b - Base(i, size) ensures !x[k] { assert !m[k + Base(i, size)]; }
  }

  lemma FreeFromBlock(m: Bits, i: nat, n: nat, size: nat, a: nat, b: nat)
    requires Shape(m, n, size) && i < n && Free(Blk(m, i, n, size), a, b)
    ensures Free(m, Base(i, size) + a, Base(i, size) + b)
  {
    BaseOrder(i, n, size);
    var x := Blk(m, i, n, size);
    forall k | Base(i, size) + a <= k < Base(i, size) + b ensures !m[k] { assert !x[k - Base(i, size)]; }
  }

  /** Free runs that start in block i below a taken bit of the block, or below its end run, have at most contig bits. */
  lemma InnerRuns(m: Bits, i: nat, n: nat, size: nat, md: Md, cut: nat, a: int, b: int)
    requires Shape(m, n, size) && i < n && Exact(Blk(m, i, n, size), md) && 0 < cut <= size && Blk(m, i, n, size)[cut - 1]
    requires Free(m, a, b) && Base(i, size) <= a < Base(i, size) + cut
    ensures b - a <= md.contig
  {
    BaseOrder(i, n, size);
    var x := Blk(m, i, n, size);
    assert m[Base(i, size) + cut - 1] == x[cut - 1];
    FreeInBlock(m, i, n, size, a, b);
  }

  /** A block whose own longest run is reported. */
  lemma ReportHint(m: Bits, i: nat, n: nat, size: nat, pos: nat, best: nat, q: nat, md: Md)
    requires Carrying(m, i, n, size, pos, best, q, 0) && i < n && Exact(Blk(m, i, n, size), md)
    requires 0 < md.contig && md.start + md.contig < size
    ensures var off := Base(i, size) + md.start;
            && Free(m, off, off + md.contig) && off + md.contig < |m| && m[off + md.contig]
            && SeenBelow(m, off, Max(best, md.contig))
  {
    var off, x := Base(i, size) + md.start, Blk(m, i, n, size);
    BaseOrder(i, n, size);
    LongestIsMaximal(x, md.contig, md.start);
    FreeFromBlock(m, i, n, size, md.start, md.start + md.contig);
    assert m[off + md.contig] == x[md.start + md.contig];
    forall a, b | Free(m, a, b) && a < off
      ensures b - a <= Max(best, md.contig)
    {
      if a >= Base(i, size) {
        InnerRuns(m, i, n, size, md, md.start, a, b);
      }
    }
  }

  /** A block whose longest run was seen before, or reaches its end: its end run is carried on. */
  lemma CarryRight(m: Bits, i: nat, n: nat, size: nat, pos: nat, best: nat, q: nat, md: Md)
    requires Carrying(m, i, n, size, pos, best, q, 0) && i < n && Exact(Blk(m, i, n, size), md)
    requires md.contig == 0 || Base(i, size) + md.start < pos || md.start + md.contig >= size
    requires SeenBelow(m, pos, best)
    requires pos <= Base(i + 1, size)
    ensures Carrying(m, i + 1, n, size, pos, best, Base(i + 1, size) - md.right, md.right)
  {
    var x := Blk(m, i, n, size);
    BaseOrder(i, n, size);
    FreeFromBlock(m, i, n, size, size - md.right, size);
    if md.contig > 0 {
      FreeFromBlock(m, i, n, size, md.start, md.start + md.contig);
      assert md.start + md.contig >= size ==> Free(x, md.start, size);
    }
    assert md.contig <= Max(best, md.right);
    forall a, b | Free(m, a, b) && a < (if md.right > 0 then Base(i + 1, size) - md.right else Max(pos, Base(i + 1, size)))
      ensures b - a <= Max(best, md.right)
    {
      if a >= Base(i, size) && a >= pos {
        InnerRuns(m, i, n, size, md, size - md.right, a, b);
      }
    }
  }

  /** The carried run goes on into block i. */
  lemma CarryLeft(m: Bits, i: nat, n: nat, size: nat, pos: nat, best: nat, q: nat, bits: nat, md: Md)
    requires Carrying(m, i, n, size, pos, best, q, bits) && bits > 0 && i < n && Exact(Blk(m, i, n, size), md)
    ensures Free(m, q, q + bits + md.left) && SeenBelow(m, q, Max(best, bits + md.left))
    ensures md.left < size ==> q + bits + md.left < |m| && m[q + bits + md.left]
    ensures md.left == size ==> Carrying(m, i + 1, n, size, pos, best, q, bits + md.left)
  {
    BaseOrder(i, n, size);
    FreeFromBlock(m, i, n, size, 0, md.left);
    assert md.left < size ==> m[Base(i, size) + md.left] == Blk(m, i, n, size)[md.left];
  }

  /** What the next region must be: a free run that cannot be extended upwards, with nothing longer below it; or the end of
      the chunk, with nothing longer than what was seen. */
  ghost predicate NextRegion(m: Bits, best: nat, off: nat, bits: nat) {
    if bits == 0 then off >= |m| && SeenBelow(m, |m|, best)
    else Free(m, off, off + bits) && (off + bits == |m| || m[off + bits]) && SeenBelow(m, off, Max(best, bits))
  }

  /** `pos` is not inside a free run. */
  predicate Boundary(m: Bits, pos: nat) {
    pos == 0 || pos > |m| || m[pos - 1]
  }

  lemma EndRunAbove(m: Bits, i: nat, n: nat, size: nat, md: Md, pos: nat)
    requires Shape(m, n, size) && i < n && Exact(Blk(m, i, n, size), md) && Boundary(m, pos) && pos <= Base(i + 1, size)
    ensures pos <= Base(i + 1, size) - md.right
  {
    BaseOrder(i, n, size);
    FreeFromBlock(m, i, n, size, size - md.right, size);
  }

  /** The loop of pcpu_next_md_free_region stands before block i; it started at `pos`, in block i0. */
  ghost predicate AtBlock(m: Bits, n: nat, size: nat, pos: nat, best: nat, i0: nat, i: nat, off: nat, bits: nat,
      blockOff: nat) {
    && Carrying(m, i, n, size, pos, best, off, bits) && SeenBelow(m, pos, best) && i0 <= i && pos < Base(i0, size) + size
    && Boundary(m, pos) && pos <= off
    && (if i == i0 then bits == 0 && off == pos == blockOff + Base(i, size)
        else blockOff == 0 && pos <= Base(i, size) && (bits == 0 ==> off == Base(i, size)))
  }

  lemma CarriedOn(m: Bits, b: Md, n: nat, size: nat, pos: nat, best: nat, i0: nat, i: nat, off: nat, bits: nat, blockOff: nat)
    requires AtBlock(m, n, size, pos, best, i0, i, off, bits, blockOff) && i < n && Exact(Blk(m, i, n, size), b) && bits > 0
    ensures b.left != size ==> NextRegion(m, best, off, bits + b.left)
    ensures b.left == size ==> AtBlock(m, n, size, pos, best, i0, i + 1, off, bits + b.left, blockOff)
  {
    CarryLeft(m, i, n, size, pos, best, off, bits, b);
  }

  lemma HintReported(m: Bits, b: Md, n: nat, size: nat, pos: nat, best: nat, i0: nat, i: nat, off: nat, blockOff: nat)
    requires AtBlock(m, n, size, pos, best, i0, i, off, 0, blockOff) && i < n && Exact(Blk(m, i, n, size), b)
    requires b.contig > 0 && b.start >= blockOff && b.contig + b.start < size
    ensures NextRegion(m, best, Base(i, size) + b.start, b.contig) && pos <= Base(i, size) + b.start
  {
    ReportHint(m, i, n, size, pos, best, off, b);
  }

  lemma RightCarried(m: Bits, b: Md, n: nat, size: nat, pos: nat, best: nat, i0: nat, i: nat, off: nat, blockOff: nat)
    requires AtBlock(m, n, size, pos, best, i0, i, off, 0, blockOff) && i < n && Exact(Blk(m, i, n, size), b)
    requires !(b.contig > 0 && b.start >= blockOff && b.contig + b.start < size)
    ensures b.right <= size && AtBlock(m, n, size, pos, best, i0, i + 1, Base(i + 1, size) - b.right, b.right, 0)
  {
    if i0 < i { BaseOrder(i0, i, size); }
    CarryRight(m, i, n, size, pos, best, off, b);
    EndRunAbove(m, i, n, size, b, pos);
  }

  method LookAtBlock(ghost m: Bits, b: Md, ghost n: nat, size: nat, ghost pos: nat, ghost best: nat, ghost i0: nat,
      i: nat, off0: nat, bits0: nat, blockOff0: nat)
    returns (found: bool, off: nat, bits: nat, blockOff: nat)
    requires AtBlock(m, n, size, pos, best, i0, i, off0, bits0, blockOff0) && i < n && Exact(Blk(m, i, n, size), b)
    ensures found ==> NextRegion(m, best, off, bits) && pos <= off
    ensures !found ==> AtBlock(m, n, size, pos, best, i0, i + 1, off, bits, blockOff)
  {
    found, off, blockOff := true, off0, blockOff0;
    if bits0 > 0 {
      CarriedOn(m, b, n, size, pos, best, i0, i, off0, bits0, blockOff0);
      bits := bits0 + b.left;
      found := b.left != size;
    } else {
      bits := b.contig;
      if bits > 0 && b.start >= blockOff && bits + b.start < size {
        HintReported(m, b, n, size, pos, best, i0, i, off0, blockOff0);
        off := Base(i, size) + b.start;
      } else {
        RightCarried(m, b, n, size, pos, best, i0, i, off0, blockOff0);
        found, blockOff := false, 0;
        bits := b.right;
        off := Base(i + 1, size) - b.right;
      }
    }
  }

  lemma FirstLook(m: Bits, n: nat, size: nat, pos: nat, best: nat)
    requires Shape(m, n, size) && SeenBelow(m, pos, best) && Boundary(m, pos)
    ensures pos / size < n ==> AtBlock(m, n, size, pos, best, pos / size, pos / size, pos, 0, pos % size)
    ensures pos / size >= n ==> NextRegion(m, best, pos, 0)
  {
    SplitOffset(pos, size);
    if n < pos / size { BaseOrder(n, pos / size, size); }
  }

  lemma LastLook(m: Bits, n: nat, size: nat, pos: nat, best: nat, i0: nat, off: nat, bits: nat, blockOff: nat)
    requires AtBlock(m, n, size, pos, best, i0, n, off, bits, blockOff) && i0 < n
    ensures NextRegion(m, best, off, bits)
  {
  }

  /** pcpu_next_md_free_region */
  method NextMdFreeRegion(ghost m: Bits, md: seq<Md>, size: nat, pos: nat, ghost best: nat) returns (off: nat, bits: nat)
    requires AllExact(m, md, size) && SeenBelow(m, pos, best) && Boundary(m, pos)
    ensures NextRegion(m, best, off, bits) && pos <= off
  {
    FirstLook(m, |md|, size, pos, best);
    var i := pos / size;
    if i < |md| {
      off, bits := ScanBlocks(m, md, size, pos, best, i, pos % size);
    } else {
      off, bits := pos, 0;
    }
  }

  /** Its loop over the blocks from block i0 on. */
  method ScanBlocks(ghost m: Bits, md: seq<Md>, size: nat, pos: nat, ghost best: nat, i0: nat, blockOff0: nat)
    returns (off: nat, bits: nat)
    requires AllExact(m, md, size) && i0 < |md| && AtBlock(m, |md|, size, pos, best, i0, i0, pos, 0, blockOff0)
    ensures NextRegion(m, best, off, bits) && pos <= off
  {
    var i, blockOff, found := i0, blockOff0, false;
    off, bits := pos, 0;
    while i < |md|
      invariant i <= |md| && AtBlock(m, |md|, size, pos, best, i0, i, off, bits, blockOff)
    {
      found, off, bits, blockOff := LookAtBlock(m, md[i], |md|, size, pos, best, i0, i, off, bits, blockOff);
      if found { return; }
      i := i + 1;
    }
    LastLook(m, |md|, size, pos, best, i0, off, bits, blockOff);
  }

  // ----- pcpu_chunk_refresh_hint

  /** pcpu_chunk_update: the start that goes with the longer run, or with the better aligned one of two equal runs. */
  function ChunkStart(contig: nat, start: nat, off: nat, bits: nat): nat {
    if bits > contig then off
    else if bits == contig && start != 0 && (off == 0 || Ffs(off) > Ffs(start)) then off
    else start
  }

  lemma RegionDone(m: Bits, best: nat, off: nat, bits: nat)
    requires NextRegion(m, best, off, bits) && bits > 0
    ensures SeenBelow(m, off + bits + 1, Max(best, bits))
  {
    forall a, b | Free(m, a, b) && a < off + bits + 1
      ensures b - a <= Max(best, bits)
    {
    }
  }

  /** The chunk's hint is the longest free run of the whole chunk, including runs across blocks, and its start is the start
      of such a run; only the summaries are read. */
  method ChunkRefreshHint(ghost m: Bits, md: seq<Md>, size: nat, firstBit: nat, oldStart: nat)
    returns (contig: nat, start: nat)
    requires AllExact(m, md, size) && firstBit <= |m| && Taken(m, 0, firstBit)
    ensures Longest(m, contig, start)
  {
    contig, start := 0, oldStart;
    assert SeenBelow(m, firstBit, 0) by {
      forall a, b | Free(m, a, b) && a < firstBit ensures b - a <= 0 { FreeOrTaken(m, a, Min(b, firstBit), 0, firstBit); }
    }
    var off: nat, bits: nat := NextMdFreeRegion(m, md, size, firstBit, contig);
    var mapBits := Base(|md|, size);
    while off < mapBits
      invariant NextRegion(m, contig, off, bits)
      invariant contig > 0 ==> Free(m, start, start + contig)
      decreases mapBits - off
    {
      RegionDone(m, contig, off, bits);
      start := ChunkStart(contig, start, off, bits);
      contig := if bits > contig then bits else contig;
      off, bits := NextMdFreeRegion(m, md, size, off + bits + 1, contig);
    }
  }
}
