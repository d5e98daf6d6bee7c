/** Offsets in a row of blocks of equal size, kept free of products so that proofs stay linear. */
module Stride {

  /** The start of block i when every block holds `size`: i * size. */
  function Base(i: nat, size: nat): nat {
    if i == 0 then 0 else Base(i - 1, size) + size
  }

  lemma {:induction false} BaseIsProduct(i: nat, size: nat)
    ensures Base(i, size) == i * size
  {
    if i > 0 {
      BaseIsProduct(i - 1, size);
      assert i * size == (i - 1) * size + size;
    }
  }

  lemma {:induction false} BaseOrder(i: nat, j: nat, size: nat)
    requires i < j
    ensures Base(i, size) + size <= Base(j, size)
    decreases j
  {
    if i < j - 1 {
      BaseOrder(i, j - 1, size);
    }
  }

  /** Division splits an offset into its block and its place there. */
  lemma SplitOffset(off: nat, size: nat)
    requires size > 0
    ensures Base(off / size, size) + off % size == off && off % size < size
  {
    BaseIsProduct(off / size, size);
  }

  lemma BlockBelow(i: nat, n: nat, size: nat, off: nat)
    requires size > 0 && Base(i, size) <= off < Base(n, size)
    ensures i < n
  {
    if n < i {
      BaseOrder(n, i, size);
    }
  }

  /** The block that holds offset i, and the place there: a shift and a mask when `size` is a power of two. */
  function Slot(i: nat, size: nat): nat
    requires size > 0
  {
    if i < size then 0 else 1 + Slot(i - size, size)
  }

  function Rest(i: nat, size: nat): (r: nat)
    requires size > 0
    ensures r < size
  {
    if i < size then i else Rest(i - size, size)
  }

  lemma {:induction false} SplitIs(i: nat, size: nat)
    requires size > 0
    ensures i == Base(Slot(i, size), size) + Rest(i, size)
  {
    if i >= size {
      SplitIs(i - size, size);
    }
  }

  lemma {:induction false} SplitOf(k: nat, r: nat, size: nat)
    requires r < size
    ensures Slot(Base(k, size) + r, size) == k && Rest(Base(k, size) + r, size) == r
  {
    if k > 0 {
      SplitOf(k - 1, r, size);
    }
  }

  /** The block and the place are quotient and remainder. */
  lemma SplitIsDivision(i: nat, size: nat)
    requires size > 0
    ensures Slot(i, size) == i / size && Rest(i, size) == i % size
  {
    SplitOffset(i, size);
    SplitOf(i / size, i % size, size);
  }

  lemma SlotBelow(i: nat, n: nat, size: nat)
    requires size > 0 && i < Base(n, size)
    ensures Slot(i, size) < n
  {
    SplitIs(i, size);
    BlockBelow(Slot(i, size), n, size, i);
  }
}
