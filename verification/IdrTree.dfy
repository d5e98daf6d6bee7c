/** The whole tree of an IDR: its head, its height and the root's IDR_FREE tag, as a map from indices to pointers. */
module IdrTree {
  import opened Stride
  import opened RadixTree
  import opened RadixDigits

  ghost predicate Used(r: Root, m: Fanout, i: nat) {
    i < Cap(r.height, m) && !TagAt(r.head, r.tag, Digits(i, r.height, m))
  }

  /** __radix_tree_lookup(). */
  ghost predicate Sound(r: Root, m: Fanout) {
    && Ok(r.head, r.height, r.tag, m)
    && (r.head == Null ==> r.tag)
    && !r.head.Entry?
  }

  /** What every operation keeps: an empty tree is just the root; any other has the least height for its indices, but at
      least one node. */
  ghost predicate Valid(r: Root, m: Fanout) {
    && Sound(r, m)
    && (r.head == Null <==> r.height == 0)
    && !Shrinkable(r.head, r.height)
  }

  /** Two trees that hold the same. */
  ghost predicate Same(a: Root, b: Root, m: Fanout) {
    forall j: nat :: Used(a, m, j) == Used(b, m, j) && Lookup(a, m, j) == Lookup(b, m, j)
  }

  // ---------------------------------------------------------------- height

  /** radix_tree_extend() one level; an empty tree gets its nodes only when something is stored. */
  function Taller(r: Root, m: Fanout): Root {
    Root(if r.head == Null then Null else Grow(r.head, r.tag, m), r.height + 1, true)
  }

  lemma TallerSound(r: Root, m: Fanout)
    requires Sound(r, m) && (r.head != Null ==> r.height > 0)
    ensures Sound(Taller(r, m), m)
  {
    if r.head != Null {
      GrowOk(r.head, r.height, r.tag, m);
    }
  }

  lemma GrowAt(t: Tree, tag: bool, m: Fanout, p: Path)
    requires p.Step? && p.slot < m
    ensures TagAt(Grow(t, tag, m), true, p) == (p.slot > 0 || TagAt(t, tag, p.rest))
    ensures Get(Grow(t, tag, m), p) == if p.slot > 0 then 0 else Get(t, p.rest)
  {
    var g := Grow(t, tag, m);
    if p.slot > 0 {
      assert g.slots[p.slot] == Null && g.tags[p.slot];
      NullAt(p.rest);
    }
  }

  lemma NullAt(p: Path)
    ensures TagAt(Null, true, p) && Get(Null, p) == 0
  {
  }

  lemma TallerSame(r: Root, m: Fanout)
    requires Sound(r, m)
    ensures Same(r, Taller(r, m), m)
  {
    var b := Taller(r, m);
    forall j: nat
      ensures Used(r, m, j) == Used(b, m, j) && Lookup(r, m, j) == Lookup(b, m, j)
    {
      CapGrows(r.height, m);
      if j < Cap(b.height, m) {
        var p := Digits(j, b.height, m);
        DigitsAbove(j, r.height, m);
        DigitsFit(j, b.height, m);
        if r.head == Null {
          NullAt(p);
          NullAt(Digits(j, r.height, m));
        } else {
          GrowAt(r.head, r.tag, m, p);
        }
      }
    }
  }

  /** radix_tree_extend(): tall enough for index i. */
  function Extend(r: Root, m: Fanout, i: nat): Root
    decreases i - Cap(r.height, m)
  {
    if i < Cap(r.height, m) then r
    else
      CapGrows(r.height, m);
      Extend(Taller(r, m), m, i)
  }

  /** Extending covers the index, changes no lookup, and adds no level that the index does not need. */
  lemma {:induction false} ExtendKeeps(r: Root, m: Fanout, i: nat)
    requires Sound(r, m) && (r.head != Null ==> r.height > 0)
    ensures var e := Extend(r, m, i);
            && Sound(e, m) && i < Cap(e.height, m) && Same(r, e, m)
            && (e == r || (e.height > 0 && i >= Cap(e.height - 1, m)))
    decreases i - Cap(r.height, m)
  {
    if i >= Cap(r.height, m) {
      CapGrows(r.height, m);
      var t := Taller(r, m);
      TallerSound(r, m);
      TallerSame(r, m);
      ExtendKeeps(t, m, i);
      var e := Extend(t, m, i);
      forall j: nat
        ensures Used(r, m, j) == Used(e, m, j) && Lookup(r, m, j) == Lookup(e, m, j)
      {
        assert Used(r, m, j) == Used(t, m, j);
        assert Used(t, m, j) == Used(e, m, j);
      }
    }
  }

  /** radix_tree_shrink() one level. */
  function Lower(r: Root): Root
    requires Shrinkable(r.head, r.height)
  {
    Root(r.head.slots[0], r.height - 1, r.tag && r.head.tags[0])
  }

  lemma LowerSame(r: Root, m: Fanout)
    requires Sound(r, m) && Shrinkable(r.head, r.height)
    ensures Sound(Lower(r), m) && Lower(r).head.Node? && Same(r, Lower(r), m)
  {
    var b := Lower(r);
    CapGrows(b.height, m);
    DigitsFit(Cap(b.height, m), r.height, m);
    DigitsAbove(Cap(b.height, m), b.height, m);
    ShrinkableIsLow(r.head, r.height, r.tag, m, Digits(Cap(b.height, m), r.height, m));
    forall j: nat
      ensures Used(r, m, j) == Used(b, m, j) && Lookup(r, m, j) == Lookup(b, m, j)
    {
      if j < Cap(r.height, m) {
        DigitsAbove(j, b.height, m);
        DigitsFit(j, r.height, m);
        if j >= Cap(b.height, m) {
          ShrinkableIsLow(r.head, r.height, r.tag, m, Digits(j, r.height, m));
        }
      }
    }
  }

  /** radix_tree_shrink(). */
  function Shrink(r: Root): Root
    decreases r.height
  {
    if Shrinkable(r.head, r.height) then Shrink(Lower(r)) else r
  }

  lemma {:induction false} ShrinkKeeps(r: Root, m: Fanout)
    requires Sound(r, m) && (r.head == Null <==> r.height == 0)
    ensures Valid(Shrink(r), m) && Same(r, Shrink(r), m)
    decreases r.height
  {
    if Shrinkable(r.head, r.height) {
      var b := Lower(r);
      LowerSame(r, m);
      ShrinkKeeps(b, m);
      forall j: nat
        ensures Used(r, m, j) == Used(Shrink(r), m, j) && Lookup(r, m, j) == Lookup(Shrink(r), m, j)
      {
        assert Used(r, m, j) == Used(b, m, j);
        assert Used(b, m, j) == Used(Shrink(b), m, j);
      }
    }
  }

  /** The height is the least that covers the indices in use: unless a single node is left, one of them needs it. */
  lemma HeightIsLeast(r: Root, m: Fanout) returns (i: nat)
    requires Valid(r, m) && r.height > 1
    ensures Used(r, m, i) && i >= Cap(r.height - 1, m)
  {
    var p := LeastHeight(r.head, r.height, r.tag, m);
    i := PathIsIndex(p, r.height, m);
    DigitsAbove(i, r.height - 1, m);
  }

  // ---------------------------------------------------------------- store and erase

  /** idr_get_free() for the free index i it settles on, then radix_tree_iter_replace() and radix_tree_iter_tag_clear(). */
  function Store(r: Root, m: Fanout, i: nat, ptr: nat): Root
    requires Valid(r, m) && !Used(r, m, i)
  {
    ExtendKeeps(r, m, i);
    var e := Extend(r, m, i);
    var h := if e.height == 0 then 1 else e.height;
    CapGrows(0, m);
    DigitsFit(i, h, m);
    var head := Insert(e.head, h, e.tag, m, Digits(i, h, m), ptr);
    Root(head, h, TagOf(head))
  }

  /** A tree about to be stored into: it covers the index, and is no taller than it must be. */
  ghost predicate Ready(e: Root, m: Fanout, i: nat) {
    && Sound(e, m) && e.height > 0 && i < Cap(e.height, m) && !Used(e, m, i)
    && (i >= Cap(e.height - 1, m) || e.height == 1 || (e.head.Node? && !Shrinkable(e.head, e.height)))
  }

  lemma InsertKeeps(e: Root, m: Fanout, i: nat, ptr: nat)
    requires Ready(e, m, i) && Fits(Digits(i, e.height, m), e.height, m)
    ensures var head := Insert(e.head, e.height, e.tag, m, Digits(i, e.height, m), ptr);
            Valid(Root(head, e.height, TagOf(head)), m)
  {
    var p := Digits(i, e.height, m);
    InsertOk(e.head, e.height, e.tag, m, p, ptr);
    DigitsAbove(i, e.height - 1, m);
    if e.height > 1 {
      InsertUnshrinkable(e.head, e.height, e.tag, m, p, ptr);
    }
  }

  lemma InsertUses(e: Root, m: Fanout, i: nat, ptr: nat, j: nat)
    requires Ready(e, m, i) && Fits(Digits(i, e.height, m), e.height, m)
    ensures var head := Insert(e.head, e.height, e.tag, m, Digits(i, e.height, m), ptr);
            var n := Root(head, e.height, TagOf(head));
            && Used(n, m, j) == (j == i || Used(e, m, j))
            && Lookup(n, m, j) == if j == i then ptr else Lookup(e, m, j)
  {
    if j < Cap(e.height, m) {
      DigitsFit(j, e.height, m);
      InsertAt(e.head, e.height, e.tag, m, Digits(i, e.height, m), ptr, Digits(j, e.height, m));
      if j != i {
        DigitsDiffer(i, j, e.height, m);
      }
    }
  }

  /** Storing refines a map update. */
  lemma StoreKeeps(r: Root, m: Fanout, i: nat, ptr: nat)
    requires Valid(r, m) && !Used(r, m, i)
    ensures var n := Store(r, m, i, ptr);
            && Valid(n, m)
            && forall j: nat :: (Used(n, m, j) <==> j == i || Used(r, m, j))
                && Lookup(n, m, j) == if j == i then ptr else Lookup(r, m, j)
  {
    ExtendKeeps(r, m, i);
    var x := Extend(r, m, i);
    var e := if x.height == 0 then Taller(x, m) else x;
    CapGrows(0, m);
    assert Used(r, m, i) == Used(x, m, i);
    TallerSame(x, m);
    assert Used(x, m, i) == Used(e, m, i);
    DigitsFit(i, e.height, m);
    InsertKeeps(e, m, i, ptr);
    forall j: nat
      ensures var n := Store(r, m, i, ptr);
              Used(n, m, j) == (j == i || Used(r, m, j)) && Lookup(n, m, j) == if j == i then ptr else Lookup(r, m, j)
    {
      assert Used(r, m, j) == Used(x, m, j) && Used(x, m, j) == Used(e, m, j);
      InsertUses(e, m, i, ptr, j);
    }
  }

  /** __radix_tree_delete(): the tree is shrunk only if the node that stayed is the root. */
  function Erase(r: Root, m: Fanout, i: nat): Root
    requires Valid(r, m) && Used(r, m, i)
  {
    var h := r.height;
    DigitsFit(i, h, m);
    var p := Digits(i, h, m);
    var head := Remove(r.head, h, r.tag, m, p);
    RemoveOk(r.head, h, r.tag, m, p);
    if head == Null then Root(Null, 0, true)
    else if h == 1 || head.slots[p.slot] == Null then Shrink(Root(head, h, true))
    else Root(head, h, true)
  }

  lemma RemoveUses(r: Root, m: Fanout, i: nat, j: nat)
    requires Valid(r, m) && Used(r, m, i) && Fits(Digits(i, r.height, m), r.height, m)
    ensures var n := Root(Remove(r.head, r.height, r.tag, m, Digits(i, r.height, m)), r.height, true);
            && Used(n, m, j) == (j != i && Used(r, m, j))
            && Lookup(n, m, j) == if j == i then 0 else Lookup(r, m, j)
  {
    if j < Cap(r.height, m) {
      DigitsFit(j, r.height, m);
      RemoveAt(r.head, r.height, r.tag, m, Digits(i, r.height, m), Digits(j, r.height, m));
      if j != i {
        DigitsDiffer(i, j, r.height, m);
      }
    }
  }

  /** The part of Erase after the removal holds what the removal left. */
  lemma EraseSame(r: Root, m: Fanout, i: nat)
    requires Valid(r, m) && Used(r, m, i) && Fits(Digits(i, r.height, m), r.height, m)
    ensures var n := Root(Remove(r.head, r.height, r.tag, m, Digits(i, r.height, m)), r.height, true);
            Valid(Erase(r, m, i), m) && Same(n, Erase(r, m, i), m)
  {
    var h, p := r.height, Digits(i, r.height, m);
    var n := Root(Remove(r.head, h, r.tag, m, p), h, true);
    RemoveOk(r.head, h, r.tag, m, p);
    if n.head == Null {
      forall j: nat
        ensures Used(n, m, j) == Used(Root(Null, 0, true), m, j) && Lookup(n, m, j) == Lookup(Root(Null, 0, true), m, j)
      {
        NullAt(Digits(j, h, m));
        NullAt(Digits(j, 0, m));
      }
    } else if h == 1 || n.head.slots[p.slot] == Null {
      ShrinkKeeps(n, m);
    } else {
      RemoveUnshrinkable(r.head, h, r.tag, m, p);
    }
  }

  /** Erasing refines removal from a map. */
  lemma EraseKeeps(r: Root, m: Fanout, i: nat)
    requires Valid(r, m) && Used(r, m, i)
    ensures var n := Erase(r, m, i);
            && Valid(n, m)
            && forall j: nat :: (Used(n, m, j) <==> j != i && Used(r, m, j))
                && Lookup(n, m, j) == if j == i then 0 else Lookup(r, m, j)
  {
    DigitsFit(i, r.height, m);
    EraseSame(r, m, i);
    var n := Root(Remove(r.head, r.height, r.tag, m, Digits(i, r.height, m)), r.height, true);
    forall j: nat
      ensures var e := Erase(r, m, i);
              Used(e, m, j) == (j != i && Used(r, m, j)) && Lookup(e, m, j) == if j == i then 0 else Lookup(r, m, j)
    {
      RemoveUses(r, m, i, j);
      assert Used(n, m, j) == Used(Erase(r, m, i), m, j);
    }
  }
}
