/** The whole radix tree, or XArray, over single indices: its head, its height and the root's tag. */
module RadixIndex {
  import opened RadixTree
  import opened RadixDigits
  import opened RadixMap

  /** Is the entry at index i marked? */
  predicate Marked(r: Root, m: Fanout, i: nat) {
    i < Cap(r.height, m) && TagAt(r.head, r.tag, Digits(i, r.height, m))
  }

  ghost predicate Sound(r: Root, m: Fanout) {
    Kept(r.head, r.height, r.tag, m)
  }

  /** radix_tree_shrink() or xas_shrink() may take this root off. */
  predicate Low(t: Tree, h: nat) {
    t.Node? && h > 0 && t.count == 1 && |t.slots| > 0 && t.slots[0] != Null
  }

  /** What every operation keeps: the height is the least for the entries there are. */
  ghost predicate Tidy(r: Root, m: Fanout) {
    Sound(r, m) && (r.head == Null ==> r.height == 0) && !Low(r.head, r.height)
  }

  ghost predicate Same(a: Root, b: Root, m: Fanout) {
    forall j: nat :: Lookup(a, m, j) == Lookup(b, m, j) && Marked(a, m, j) == Marked(b, m, j)
  }

  // ---------------------------------------------------------------- height

  /** One turn of radix_tree_extend() or xas_expand(). */
  function Over(t: Tree, tag: bool, m: Fanout): Tree {
    Node(Blank(m).slots[0 := t], Blank(m).tags[0 := tag], 1)
  }

  function Taller(r: Root, m: Fanout): Root {
    Root(if r.head == Null then Null else Over(r.head, r.tag, m), r.height + 1, r.tag)
  }

  lemma TallerSound(r: Root, m: Fanout)
    requires Sound(r, m)
    ensures Sound(Taller(r, m), m)
  {
    if r.head != Null {
      BlankInside(m);
      CountUpdate(Blank(m).slots, Blank(m).tags, 1, 0, r.head, r.tag);
      var n := Over(r.head, r.tag, m);
      assert n.tags[0] == r.tag;
      assert Any(n.tags) == r.tag;
    }
  }

  lemma OverAt(t: Tree, tag: bool, m: Fanout, p: Path)
    requires p.Step? && p.slot < m
    ensures Get(Over(t, tag, m), p) == if p.slot > 0 then 0 else Get(t, p.rest)
    ensures TagAt(Over(t, tag, m), tag, p) == (p.slot == 0 && TagAt(t, tag, p.rest))
  {
    NullShows(p.rest);
  }

  lemma TallerSame(r: Root, m: Fanout)
    requires Sound(r, m)
    ensures Same(r, Taller(r, m), m)
  {
    var b := Taller(r, m);
    forall j: nat
      ensures Lookup(r, m, j) == Lookup(b, m, j) && Marked(r, m, j) == Marked(b, m, j)
    {
      CapGrows(r.height, m);
      if j < Cap(b.height, m) {
        var p := Digits(j, b.height, m);
        DigitsAbove(j, r.height, m);
        DigitsFit(j, b.height, m);
        if r.head == Null {
          NullShows(p);
          NullShows(Digits(j, r.height, m));
        } else {
          OverAt(r.head, r.tag, m, p);
        }
      }
    }
  }

  function Extend(r: Root, m: Fanout, i: nat): Root
    decreases i - Cap(r.height, m)
  {
    if i < Cap(r.height, m) then r
    else
      CapGrows(r.height, m);
      Extend(Taller(r, m), m, i)
  }

  /** Extending covers the index, changes no lookup, and adds no level that the index does not need. */
  lemma {:induction false} ExtendKeeps(r: Root, m: Fanout, i: nat)
    requires Sound(r, m)
    ensures var e := Extend(r, m, i);
            && Sound(e, m) && i < Cap(e.height, m) && Same(r, e, m)
            && (e == r || (e.height > 0 && i >= Cap(e.height - 1, m)))
    decreases i - Cap(r.height, m)
  {
    if i >= Cap(r.height, m) {
      CapGrows(r.height, m);
      var t := Taller(r, m);
      TallerSound(r, m);
      TallerSame(r, m);
      ExtendKeeps(t, m, i);
      var e := Extend(t, m, i);
      forall j: nat
        ensures Lookup(r, m, j) == Lookup(e, m, j) && Marked(r, m, j) == Marked(e, m, j)
      {
        assert Lookup(r, m, j) == Lookup(t, m, j);
        assert Lookup(t, m, j) == Lookup(e, m, j);
      }
    }
  }

  function Lower(r: Root): Root
    requires Low(r.head, r.height)
  {
    Root(r.head.slots[0], r.height - 1, r.tag)
  }

  /** In a root that may go, only slot 0 holds anything. */
  lemma LowIsLow(t: Tree, h: nat, tag: bool, m: Fanout, k: nat)
    requires Kept(t, h, tag, m) && Low(t, h) && 0 < k < m
    ensures t.slots[k] == Null && !t.tags[k]
  {
    if t.slots[k] != Null {
      CountTwo(t.slots, t.tags, 1, 0, k);
    }
  }

  lemma LowerSound(r: Root, m: Fanout)
    requires Sound(r, m) && Low(r.head, r.height)
    ensures Sound(Lower(r), m) && Lower(r).head != Null && r.tag == r.head.tags[0]
  {
    forall k | 0 < k < m
      ensures !r.head.tags[k]
    {
      LowIsLow(r.head, r.height, r.tag, m, k);
    }
  }

  lemma LowerSame(r: Root, m: Fanout)
    requires Sound(r, m) && Low(r.head, r.height)
    ensures Sound(Lower(r), m) && Lower(r).head != Null && Same(r, Lower(r), m)
  {
    var b := Lower(r);
    CapGrows(b.height, m);
    LowerSound(r, m);
    forall j: nat
      ensures Lookup(r, m, j) == Lookup(b, m, j) && Marked(r, m, j) == Marked(b, m, j)
    {
      if j < Cap(r.height, m) {
        DigitsAbove(j, b.height, m);
        DigitsFit(j, r.height, m);
        var p := Digits(j, r.height, m);
        if j >= Cap(b.height, m) {
          LowIsLow(r.head, r.height, r.tag, m, p.slot);
          NullShows(p.rest);
        }
      }
    }
  }

  function Shrink(r: Root): Root
    decreases r.height
  {
    if Low(r.head, r.height) then Shrink(Lower(r)) else r
  }

  /** Shrinking changes no lookup and leaves the least height. */
  lemma {:induction false} ShrinkKeeps(r: Root, m: Fanout)
    requires Sound(r, m) && r.head != Null
    ensures Tidy(Shrink(r), m) && Same(r, Shrink(r), m)
    decreases r.height
  {
    if Low(r.head, r.height) {
      var b := Lower(r);
      LowerSame(r, m);
      ShrinkKeeps(b, m);
      forall j: nat
        ensures Lookup(r, m, j) == Lookup(Shrink(r), m, j) && Marked(r, m, j) == Marked(Shrink(r), m, j)
      {
        assert Lookup(r, m, j) == Lookup(b, m, j);
        assert Lookup(b, m, j) == Lookup(Shrink(b), m, j);
      }
    }
  }

  /** The height is the least that covers the entries: one of them needs it. */
  lemma HeightIsLeast(r: Root, m: Fanout) returns (i: nat)
    requires Tidy(r, m) && r.height > 0
    ensures Lookup(r, m, i) != 0 && i >= Cap(r.height - 1, m)
  {
    var t := r.head;
    var k := CountWitness(t.slots, t.tags, 1);
    if k == 0 {
      CountUpdate(t.slots, t.tags, 1, 0, Null, false);
      k := CountWitness(t.slots[0 := Null], t.tags[0 := false], 1);
    }
    var p := NodeHasEntry(t.slots[k], r.height - 1, t.tags[k], m);
    i := PathIsIndex(Step(k, p), r.height, m);
    DigitsAbove(i, r.height - 1, m);
  }

  // ---------------------------------------------------------------- storing

  function Store(r: Root, m: Fanout, i: nat, ptr: nat): Root
    requires Sound(r, m)
  {
    ExtendKeeps(r, m, i);
    var e := Extend(r, m, i);
    DigitsFit(i, e.height, m);
    Root(Put(e.head, e.height, e.tag, m, Digits(i, e.height, m), ptr), e.height, e.tag)
  }

  /** Storing leaves no root that could go, if the root could not before or the index needs this height. */
  lemma PutHigh(t: Tree, h: nat, tag: bool, m: Fanout, p: Path, ptr: nat)
    requires Kept(t, h, tag, m) && Fits(p, h, m) && ptr != 0 && h > 0
    requires p.slot > 0 || (t.Node? && !Low(t, h))
    ensures !Low(Put(t, h, tag, m, p, ptr), h)
  {
    NodeForKept(t, h, tag, m);
    var n, k := NodeFor(t, m), p.slot;
    PutKept(n.slots[k], h - 1, n.tags[k], m, p.rest, ptr);
    PutKept(t, h, tag, m, p, ptr);
    var r := Put(t, h, tag, m, p, ptr);
    if k > 0 && r.slots[0] != Null {
      CountTwo(r.slots, r.tags, 1, 0, k);
    }
  }

  lemma PutValid(e: Root, m: Fanout, i: nat, ptr: nat)
    requires Sound(e, m) && i < Cap(e.height, m) && ptr != 0 && Fits(Digits(i, e.height, m), e.height, m)
    requires e.height > 0 ==> i >= Cap(e.height - 1, m) || (e.head.Node? && !Low(e.head, e.height))
    ensures Tidy(Root(Put(e.head, e.height, e.tag, m, Digits(i, e.height, m), ptr), e.height, e.tag), m)
  {
    var p := Digits(i, e.height, m);
    PutKept(e.head, e.height, e.tag, m, p, ptr);
    if e.height > 0 {
      DigitsAbove(i, e.height - 1, m);
      PutHigh(e.head, e.height, e.tag, m, p, ptr);
    }
  }

  lemma PutIndex(e: Root, m: Fanout, i: nat, ptr: nat, j: nat)
    requires Sound(e, m) && i < Cap(e.height, m) && ptr != 0 && Fits(Digits(i, e.height, m), e.height, m)
    ensures var n := Root(Put(e.head, e.height, e.tag, m, Digits(i, e.height, m), ptr), e.height, e.tag);
            Lookup(n, m, j) == (if j == i then ptr else Lookup(e, m, j)) && Marked(n, m, j) == Marked(e, m, j)
  {
    if j < Cap(e.height, m) {
      DigitsFit(j, e.height, m);
      PutAt(e.head, e.height, e.tag, m, Digits(i, e.height, m), ptr, Digits(j, e.height, m));
      if j != i {
        DigitsDiffer(i, j, e.height, m);
      }
    }
  }

  /** Storing refines a map update, and keeps every mark. */
  lemma StoreKeeps(r: Root, m: Fanout, i: nat, ptr: nat)
    requires Tidy(r, m) && ptr != 0
    ensures var n := Store(r, m, i, ptr);
            && Tidy(n, m)
            && forall j: nat :: Lookup(n, m, j) == (if j == i then ptr else Lookup(r, m, j))
                && Marked(n, m, j) == Marked(r, m, j)
  {
    ExtendKeeps(r, m, i);
    var e := Extend(r, m, i);
    DigitsFit(i, e.height, m);
    PutValid(e, m, i, ptr);
    forall j: nat
      ensures var n := Store(r, m, i, ptr);
              Lookup(n, m, j) == (if j == i then ptr else Lookup(r, m, j)) && Marked(n, m, j) == Marked(r, m, j)
    {
      PutIndex(e, m, i, ptr, j);
      assert Lookup(r, m, j) == Lookup(e, m, j);
    }
  }

  // ---------------------------------------------------------------- erasing and marking

  /** The tree right after a change at index i. */
  function After(r: Root, m: Fanout, i: nat, c: Change): Root
    requires Sound(r, m) && i < Cap(r.height, m)
  {
    DigitsFit(i, r.height, m);
    var head := Changed(r.head, r.height, r.tag, m, Digits(i, r.height, m), c);
    Root(head, r.height, NewTag(head, r.height, c))
  }

  lemma AfterKeeps(r: Root, m: Fanout, i: nat, c: Change)
    requires Sound(r, m) && i < Cap(r.height, m) && Lookup(r, m, i) != 0
    ensures var n := After(r, m, i, c);
            && Sound(n, m)
            && forall j: nat :: Lookup(n, m, j) == (if j == i && c == Erase then 0 else Lookup(r, m, j))
                                && Marked(n, m, j) == (if j == i then c == SetMark else Marked(r, m, j))
  {
    var p := Digits(i, r.height, m);
    DigitsFit(i, r.height, m);
    ChangedKept(r.head, r.height, r.tag, m, p, c);
    forall j: nat
      ensures var n := After(r, m, i, c);
              Lookup(n, m, j) == (if j == i && c == Erase then 0 else Lookup(r, m, j))
              && Marked(n, m, j) == (if j == i then c == SetMark else Marked(r, m, j))
    {
      if j < Cap(r.height, m) {
        DigitsFit(j, r.height, m);
        ChangedAt(r.head, r.height, r.tag, m, p, c, Digits(j, r.height, m));
        if j != i {
          DigitsDiffer(i, j, r.height, m);
        }
      }
    }
  }

  /** delete_node() or xas_delete_node(): the tree is shrunk only if the node that stayed is the root. */
  function Erased(r: Root, m: Fanout, i: nat): Root
    requires Sound(r, m) && i < Cap(r.height, m)
  {
    var n := After(r, m, i, Erase);
    DigitsFit(i, r.height, m);
    if n.head == Null then Root(Null, 0, false)
    else if n.head.Node? && Digits(i, r.height, m).slot < |n.head.slots|
        && n.head.slots[Digits(i, r.height, m).slot] == Null then Shrink(n)
    else n
  }

  lemma EraseValid(r: Root, m: Fanout, i: nat)
    requires Tidy(r, m) && i < Cap(r.height, m) && Lookup(r, m, i) != 0
    ensures Tidy(Erased(r, m, i), m) && Same(After(r, m, i, Erase), Erased(r, m, i), m)
  {
    var n, p := After(r, m, i, Erase), Digits(i, r.height, m);
    DigitsFit(i, r.height, m);
    ChangedKept(r.head, r.height, r.tag, m, p, Erase);
    if n.head == Null {
      forall j: nat
        ensures Lookup(n, m, j) == Lookup(Root(Null, 0, false), m, j) && Marked(n, m, j) == Marked(Root(Null, 0, false), m, j)
      {
        NullShows(Digits(j, n.height, m));
        NullShows(Digits(j, 0, m));
      }
    } else {
      ShrinkKeeps(n, m);
      EraseKeepsRoot(r.head, r.height, r.tag, m, p);
    }
  }

  /** The root keeps its shape unless the slot below it empties. */
  lemma EraseKeepsRoot(t: Tree, h: nat, tag: bool, m: Fanout, p: Path)
    requires Kept(t, h, tag, m) && Fits(p, h, m) && !Low(t, h) && Get(t, p) != 0
    ensures var n := Changed(t, h, tag, m, p, Erase);
            n != Null ==> h > 0 && (n.slots[p.slot] != Null ==> !Low(n, h))
  {
    if h > 0 {
      ChangedKept(t.slots[p.slot], h - 1, t.tags[p.slot], m, p.rest, Erase);
      ChangedKept(t, h, tag, m, p, Erase);
    }
  }

  /** Erasing refines removal from a map. */
  lemma EraseKeeps(r: Root, m: Fanout, i: nat)
    requires Tidy(r, m) && i < Cap(r.height, m) && Lookup(r, m, i) != 0
    ensures var n := Erased(r, m, i);
            && Tidy(n, m)
            && forall j: nat :: Lookup(n, m, j) == (if j == i then 0 else Lookup(r, m, j))
                && Marked(n, m, j) == (j != i && Marked(r, m, j))
  {
    AfterKeeps(r, m, i, Erase);
    EraseValid(r, m, i);
    var a, n := After(r, m, i, Erase), Erased(r, m, i);
    forall j: nat
      ensures Lookup(n, m, j) == (if j == i then 0 else Lookup(r, m, j)) && Marked(n, m, j) == (j != i && Marked(r, m, j))
    {
      assert Lookup(a, m, j) == Lookup(n, m, j);
    }
  }

  /** Setting or clearing a mark changes that mark alone. */
  lemma MarkKeeps(r: Root, m: Fanout, i: nat, c: Change)
    requires Tidy(r, m) && i < Cap(r.height, m) && Lookup(r, m, i) != 0 && c != Erase
    ensures Tidy(After(r, m, i, c), m)
  {
    DigitsFit(i, r.height, m);
    var p := Digits(i, r.height, m);
    ChangedKept(r.head, r.height, r.tag, m, p, c);
    if r.height > 0 {
      ChangedKept(r.head.slots[p.slot], r.height - 1, r.head.tags[p.slot], m, p.rest, c);
    }
  }

  /** Only entries are marked. */
  lemma AbsentIsUnmarked(r: Root, m: Fanout, i: nat)
    requires Sound(r, m)
    ensures Marked(r, m, i) ==> Lookup(r, m, i) != 0
  {
    if Marked(r, m, i) {
      DigitsFit(i, r.height, m);
      MarkedIsThere(r.head, r.height, r.tag, m, Digits(i, r.height, m));
    }
  }

  /** From r to n, index i was bound to ptr (0: unbound), and nothing else changed but the mark of i. */
  ghost predicate Bound(r: Root, n: Root, m: Fanout, i: nat, ptr: nat) {
    forall j: nat :: Lookup(n, m, j) == (if j == i then ptr else Lookup(r, m, j)) && (j != i ==>
        Marked(n, m, j) == Marked(r, m, j))
  }

  class IndexTree {
    const m: Fanout
    var root: Root

    ghost predicate Valid()
      reads this
    {
      Tidy(root, m)
    }

    constructor (m: Fanout)
      ensures Valid() && this.m == m && forall i: nat :: Lookup(root, m, i) == 0
    {
      this.m, root := m, Root(Null, 0, false);
      new;
      forall i: nat
        ensures Lookup(root, m, i) == 0
      {
        NullShows(Digits(i, 0, m));
      }
    }

    /** radix_tree_insert(): fails if the index is taken; a new entry has no mark. */
    method Insert(i: nat, item: nat) returns (inserted: bool)
      requires Valid() && item != 0
      modifies this
      ensures Valid()
      ensures inserted <==> Lookup(old(root), m, i) == 0
      ensures if inserted then Bound(old(root), root, m, i, item) && !Marked(root, m, i) else root == old(root)
    {
      if Lookup(root, m, i) != 0 {
        return false;
      }
      AbsentIsUnmarked(root, m, i);
      StoreKeeps(root, m, i, item);
      root := Store(root, m, i, item);
      inserted := true;
    }

    /** radix_tree_delete() and xa_erase(): returns what was there; what is gone has no mark. */
    method Delete(i: nat) returns (item: nat)
      requires Valid()
      modifies this
      ensures Valid() && item == Lookup(old(root), m, i)
      ensures Bound(old(root), root, m, i, 0) && !Marked(root, m, i)
      ensures item == 0 ==> root == old(root)
    {
      item := Lookup(root, m, i);
      if item != 0 {
        EraseKeeps(root, m, i);
        root := Erased(root, m, i);
      } else {
        AbsentIsUnmarked(root, m, i);
      }
    }

    /** xa_store(): returns what was there; an entry that is replaced hands its mark on. */
    method XaStore(i: nat, entry: nat) returns (item: nat)
      requires Valid()
      modifies this
      ensures Valid() && item == Lookup(old(root), m, i)
      ensures Bound(old(root), root, m, i, entry)
      ensures entry != 0 ==> Marked(root, m, i) == Marked(old(root), m, i)
    {
      if entry == 0 {
        item := Delete(i);
        return;
      }
      item := Lookup(root, m, i);
      StoreKeeps(root, m, i, entry);
      root := Store(root, m, i, entry);
    }

    /** radix_tree_tag_set() and xas_set_mark(), or radix_tree_tag_clear() and xas_clear_mark(), on an entry. */
    method SetMarkAt(i: nat, on: bool)
      requires Valid() && Lookup(root, m, i) != 0
      modifies this
      ensures Valid()
      ensures Bound(old(root), root, m, i, Lookup(old(root), m, i)) && Marked(root, m, i) == on
    {
      var c := if on then SetMark else ClearMark;
      AfterKeeps(root, m, i, c);
      MarkKeeps(root, m, i, c);
      root := After(root, m, i, c);
    }
  }
}
