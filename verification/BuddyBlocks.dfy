/** Blocks of the buddy allocator: aligned runs of 2^order pages, families of free blocks, and the theorem that a
    coalesced family is determined by the set of pages it covers. */
module BuddyBlocks {
  import opened Shifts

  /** The block of the pages p with p >> order == index; its first page is index << order. */
  datatype Block = Block(index: nat, order: nat)

  predicate Contains(b: Block, p: nat) {
    Shift(p, b.order) == b.index
  }

  function Head(b: Block): nat {
    Up(b.index, b.order)
  }

  function Buddy(b: Block): Block {
    Block(if b.index % 2 == 0 then b.index + 1 else b.index - 1, b.order)
  }

  function Parent(b: Block): Block {
    Block(b.index / 2, b.order + 1)
  }

  function Lower(b: Block): Block
    requires b.order > 0
  {
    Block(2 * b.index, b.order - 1)
  }

  function Upper(b: Block): Block
    requires b.order > 0
  {
    Block(2 * b.index + 1, b.order - 1)
  }

  /** page and page[1 << (order - 1)] head the two halves. */
  lemma HalfHeads(b: Block)
    requires b.order > 0
    ensures Head(Lower(b)) == Head(b) && Head(Upper(b)) == Head(b) + Up(1, b.order - 1)
  {
    UpDoubles(b.index, b.order - 1);
    UpAdds(2 * b.index, 1, b.order - 1);
  }

  lemma HeadInside(b: Block)
    ensures Contains(b, Head(b))
  {
    ShiftUp(b.index, b.order);
  }

  /** A block is the disjoint union of its halves. */
  lemma Halves(b: Block, p: nat)
    requires b.order > 0
    ensures Contains(b, p) <==> Contains(Lower(b), p) || Contains(Upper(b), p)
    ensures !(Contains(Lower(b), p) && Contains(Upper(b), p))
  {
  }

  /** Blocks that share a page are nested. */
  lemma Nested(small: Block, big: Block, p: nat, q: nat)
    requires small.order <= big.order && Contains(small, p) && Contains(big, p) && Contains(small, q)
    ensures Contains(big, q)
  {
    ShiftAdds(p, small.order, big.order - small.order);
    ShiftAdds(q, small.order, big.order - small.order);
  }

  // ----- The bit operations of the source on page frame numbers

  function Xor(a: nat, b: nat): nat {
    if a == 0 && b == 0 then 0 else 2 * Xor(a / 2, b / 2) + if a % 2 != b % 2 then 1 else 0
  }

  function And(a: nat, b: nat): nat {
    if a == 0 && b == 0 then 0 else 2 * And(a / 2, b / 2) + if a % 2 == 1 && b % 2 == 1 then 1 else 0
  }

  /** __find_buddy_pfn */
  function FindBuddyPfn(pfn: nat, order: nat): nat {
    Xor(pfn, Up(1, order))
  }

  lemma XorZero(a: nat)
    ensures Xor(a, 0) == a
  {
  }

  lemma AndSelf(a: nat)
    ensures And(a, a) == a
  {
  }

  lemma DoubleBits(a: nat, b: nat)
    ensures Xor(2 * a, 2 * b) == 2 * Xor(a, b) && And(2 * a, 2 * b) == 2 * And(a, b)
  {
  }

  lemma LowestBits(k: nat)
    ensures Xor(k, 1) == if k % 2 == 0 then k + 1 else k - 1
    ensures And(Xor(k, 1), k) == 2 * (k / 2)
  {
    XorZero(k / 2);
    AndSelf(k / 2);
    assert Xor(k, 1) / 2 == k / 2;
  }

  /** Flipping one bit of the head gives the buddy's head, and clearing it gives the merged block's head. */
  lemma {:induction false} BuddyBits(b: Block)
    ensures FindBuddyPfn(Head(b), b.order) == Head(Buddy(b))
    ensures And(Head(Buddy(b)), Head(b)) == Head(Parent(b))
    decreases b.order
  {
    if b.order == 0 {
      LowestBits(b.index);
      HeadDoubles(b.index / 2, 1);
      assert Head(b) == b.index && Head(Buddy(b)) == Xor(b.index, 1);
    } else {
      var c := Block(b.index, b.order - 1);
      BuddyBits(c);
      HeadDoubles(b.index, b.order);
      HeadDoubles(Buddy(b).index, b.order);
      HeadDoubles(1, b.order);
      HeadDoubles(Parent(b).index, b.order + 1);
      DoubleBits(Head(c), Up(1, c.order));
      DoubleBits(Head(Buddy(c)), Head(c));
    }
  }

  lemma HeadDoubles(k: nat, order: nat)
    requires order > 0
    ensures Up(k, order) == 2 * Up(k, order - 1)
  {
  }

  // ----- Families of free blocks

  /** No page is in two blocks. */
  ghost predicate Disjoint(free: set<Block>) {
    forall a, b, p :: a in free && b in free && Contains(a, p) && Contains(b, p) ==> a == b
  }

  /** No block could still be merged with its buddy. */
  ghost predicate Coalesced(free: set<Block>, maxOrder: nat) {
    && (forall b :: b in free ==> b.order < maxOrder)
    && (forall b :: b in free && b.order + 1 < maxOrder ==> Buddy(b) !in free)
  }

  ghost predicate Canonical(free: set<Block>, maxOrder: nat) {
    Disjoint(free) && Coalesced(free, maxOrder)
  }

  ghost predicate Covers(free: set<Block>, p: nat) {
    exists b :: b in free && Contains(b, p)
  }

  ghost predicate CoversAll(free: set<Block>, b: Block) {
    forall p :: Contains(b, p) ==> Covers(free, p)
  }

  /** In a coalesced family, a block all of whose pages are free lies inside a single free block. */
  lemma {:induction false} FreeBlockIsWhole(free: set<Block>, maxOrder: nat, b: Block) returns (f: Block)
    requires Canonical(free, maxOrder) && b.order < maxOrder && CoversAll(free, b)
    ensures f in free && f.order >= b.order && (forall p :: Contains(b, p) ==> Contains(f, p))
    decreases b.order
  {
    HeadInside(b);
    if b.order == 0 {
      assert Covers(free, b.index);
      f :| f in free && Contains(f, b.index);
    } else {
      forall p | Contains(Lower(b), p) ensures Covers(free, p) { Halves(b, p); }
      forall p | Contains(Upper(b), p) ensures Covers(free, p) { Halves(b, p); }
      var lo := FreeBlockIsWhole(free, maxOrder, Lower(b));
      var hi := FreeBlockIsWhole(free, maxOrder, Upper(b));
      HeadInside(Lower(b));
      HeadInside(Upper(b));
      if lo.order >= b.order {
        f := lo;
        Halves(b, Head(Lower(b)));
        forall p | Contains(b, p) ensures Contains(f, p) { Nested(b, f, Head(Lower(b)), p); }
      } else if hi.order >= b.order {
        f := hi;
        Halves(b, Head(Upper(b)));
        forall p | Contains(b, p) ensures Contains(f, p) { Nested(b, f, Head(Upper(b)), p); }
      } else {
        // both halves are free blocks of their own: buddies that were not merged
        assert false;
      }
    }
  }

  ghost predicate SamePages(a: set<Block>, b: set<Block>) {
    forall p :: Covers(a, p) <==> Covers(b, p)
  }

  lemma CanonicalContains(a: set<Block>, b: set<Block>, maxOrder: nat, x: Block)
    requires Canonical(a, maxOrder) && Canonical(b, maxOrder) && SamePages(a, b) && x in a
    ensures x in b
  {
    var p := Head(x);
    HeadInside(x);
    forall q | Contains(x, q) ensures Covers(b, q) { assert Covers(a, q); }
    var y := FreeBlockIsWhole(b, maxOrder, x);
    forall q | Contains(y, q) ensures Covers(a, q) { assert Covers(b, q); }
    var z := FreeBlockIsWhole(a, maxOrder, y);
    assert Contains(x, p) && Contains(y, p) && Contains(z, p);
    assert z == x;
  }

  /** The canonical form: a coalesced family is determined by the pages it covers. */
  lemma CanonicalIsUnique(a: set<Block>, b: set<Block>, maxOrder: nat)
    requires Canonical(a, maxOrder) && Canonical(b, maxOrder) && SamePages(a, b)
    ensures a == b
  {
    forall x | x in a ensures x in b { CanonicalContains(a, b, maxOrder, x); }
    forall x | x in b ensures x in a { CanonicalContains(b, a, maxOrder, x); }
  }

  // ----- Merging and splitting

  /** No page of `b` is free. */
  ghost predicate Unfree(free: set<Block>, b: Block) {
    forall p :: Contains(b, p) ==> !Covers(free, p)
  }

  lemma UnfreeNotIn(free: set<Block>, b: Block)
    requires Unfree(free, b)
    ensures b !in free
  {
    HeadInside(b);
  }

  lemma ParentIsPair(b: Block, p: nat)
    ensures Contains(Parent(b), p) <==> Contains(b, p) || Contains(Buddy(b), p)
    ensures !(Contains(b, p) && Contains(Buddy(b), p))
    ensures Buddy(Buddy(b)) == b
  {
  }

  ghost predicate CoversPlus(free: set<Block>, b: Block, p: nat) {
    Covers(free, p) || Contains(b, p)
  }

  /** One turn of the merge loop: the free buddy leaves the family and the pair becomes one block. */
  lemma MergeStep(free: set<Block>, maxOrder: nat, b: Block)
    requires Canonical(free, maxOrder) && Unfree(free, b) && Buddy(b) in free
    ensures var rest := free - {Buddy(b)};
            Canonical(rest, maxOrder) && Unfree(rest, Parent(b)) &&
            forall p :: CoversPlus(rest, Parent(b), p) <==> CoversPlus(free, b, p)
  {
    var rest := free - {Buddy(b)};
    forall p
      ensures Contains(Parent(b), p) ==> !Covers(rest, p)
      ensures CoversPlus(rest, Parent(b), p) <==> CoversPlus(free, b, p)
    {
      ParentIsPair(b, p);
      if Covers(free, p) {
        var x :| x in free && Contains(x, p);
        assert x in rest || x == Buddy(b);
      }
      if Covers(rest, p) {
        var x :| x in rest && Contains(x, p);
        assert Covers(free, p);
      }
      if Contains(Buddy(b), p) {
        assert Covers(free, p);
      }
    }
  }

  /** The end of the merge loop: the block joins the family, which is coalesced again. */
  lemma AddBlock(free: set<Block>, maxOrder: nat, b: Block)
    requires Canonical(free, maxOrder) && Unfree(free, b) && b.order < maxOrder
    requires b.order + 1 < maxOrder ==> Buddy(b) !in free
    ensures Canonical(free + {b}, maxOrder)
    ensures forall p :: Covers(free + {b}, p) <==> CoversPlus(free, b, p)
  {
    var more := free + {b};
    forall p
      ensures Covers(more, p) <==> CoversPlus(free, b, p)
    {
      if CoversPlus(free, b, p) {
        if Contains(b, p) {
          assert b in more;
        } else {
          var x :| x in free && Contains(x, p);
          assert x in more;
        }
      }
    }
    forall x, y, p | x in more && y in more && Contains(x, p) && Contains(y, p)
      ensures x == y
    {
      assert x in free || y in free ==> Covers(free, p);
    }
    forall x | x in more && x.order + 1 < maxOrder
      ensures Buddy(x) !in more
    {
      ParentIsPair(x, 0);
    }
  }

  /** One turn of expand(): the upper half becomes free, the lower half stays taken. */
  lemma SplitStep(free: set<Block>, maxOrder: nat, b: Block)
    requires Canonical(free, maxOrder) && Unfree(free, b) && 0 < b.order < maxOrder
    ensures var more := free + {Upper(b)};
            Canonical(more, maxOrder) && Unfree(more, Lower(b)) &&
            forall p :: CoversPlus(more, Lower(b), p) <==> CoversPlus(free, b, p)
  {
    forall p
      ensures Contains(b, p) <==> Contains(Lower(b), p) || Contains(Upper(b), p)
      ensures !(Contains(Lower(b), p) && Contains(Upper(b), p))
    {
      Halves(b, p);
    }
    UnfreeNotIn(free, Lower(b));
    assert Buddy(Upper(b)) == Lower(b);
    AddBlock(free, maxOrder, Upper(b));
    assert forall p :: Covers(free + {Upper(b)}, p) <==> CoversPlus(free, Upper(b), p);
  }

  /** Taking a block out of the family. */
  lemma RemoveBlock(free: set<Block>, maxOrder: nat, b: Block)
    requires Canonical(free, maxOrder) && b in free
    ensures Canonical(free - {b}, maxOrder) && Unfree(free - {b}, b)
    ensures forall p :: CoversPlus(free - {b}, b, p) <==> Covers(free, p)
  {
    forall p
      ensures CoversPlus(free - {b}, b, p) <==> Covers(free, p)
    {
      if Covers(free, p) {
        var x :| x in free && Contains(x, p);
        assert x == b || x in free - {b};
      }
      if Covers(free - {b}, p) {
        var x :| x in free - {b} && Contains(x, p);
        assert x in free;
      }
    }
  }
}
