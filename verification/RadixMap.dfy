/** The radix tree and the XArray as maps from indices to entries, with one mark (each mark is kept like the others). Here a
    slot is occupied if it holds an entry or a node, and its tag says that an entry below it is marked. */
module RadixMap {
  import opened RadixTree

  /** What every subtree keeps, with the tag its parent (or the root) holds for it: nodes are never empty and count their
      occupied slots, nothing absent is marked, and a tag is set exactly if one of the tags below is. */
  ghost predicate Kept(t: Tree, h: nat, tag: bool, m: Fanout)
    decreases h
  {
    match t
    case Null => !tag
    case Entry(p) => h == 0 && p != 0
    case Node(slots, tags, count) => h > 0 && count > 0 && tag == Any(tags) && Inside(slots, tags, count, m)
                                     && forall k :: 0 <= k < m ==> Kept(slots[k], h - 1, tags[k], m)
  }

  predicate Inside(slots: seq<Tree>, tags: seq<bool>, count: nat, m: Fanout) {
    |slots| == |tags| == m && count == Count(slots, tags, 1)
  }

  /** A marked index has an entry. */
  lemma {:induction false} MarkedIsThere(t: Tree, h: nat, tag: bool, m: Fanout, p: Path)
    requires Kept(t, h, tag, m) && Fits(p, h, m) && TagAt(t, tag, p)
    ensures Get(t, p) != 0 && tag
    decreases h
  {
    if t.Node? {
      MarkedIsThere(t.slots[p.slot], h - 1, t.tags[p.slot], m, p.rest);
    }
  }

  lemma {:induction false} TagHasTagged(t: Tree, h: nat, m: Fanout) returns (p: Path)
    requires Kept(t, h, true, m)
    ensures Fits(p, h, m) && TagAt(t, true, p)
    decreases h
  {
    if t.Node? {
      var k: nat :| k < m && t.tags[k];
      var r := TagHasTagged(t.slots[k], h - 1, m);
      p := Step(k, r);
    } else {
      p := End;
    }
  }

  /** The mark law: a slot's tag is set if and only if some entry below it is marked. */
  lemma TagMeansMarked(t: Tree, h: nat, tag: bool, m: Fanout)
    requires Kept(t, h, tag, m)
    ensures tag <==> HasTagged(t, h, tag, m)
  {
    if tag {
      var p := TagHasTagged(t, h, m);
      assert Fits(p, h, m) && TagAt(t, tag, p);
    }
    if HasTagged(t, h, tag, m) {
      var p :| Fits(p, h, m) && TagAt(t, tag, p);
      MarkedIsThere(t, h, tag, m, p);
    }
  }

  lemma {:induction false} NodeHasEntry(t: Tree, h: nat, tag: bool, m: Fanout) returns (p: Path)
    requires Kept(t, h, tag, m) && t != Null
    ensures Fits(p, h, m) && Get(t, p) != 0
    decreases h
  {
    if h == 0 {
      p := End;
    } else {
      var k := CountWitness(t.slots, t.tags, 1);
      var r := NodeHasEntry(t.slots[k], h - 1, t.tags[k], m);
      p := Step(k, r);
    }
  }

  // ---------------------------------------------------------------- one level

  /** A new node: nothing in it, nothing marked. */
  function Blank(m: Fanout): Tree {
    Node(seq(m, _ => Null), seq(m, _ => false), 0)
  }

  lemma {:induction false} CountBlank(n: nat, m: Fanout)
    requires n <= m
    ensures Count(Blank(m).slots[..n], Blank(m).tags[..n], 1) == 0
  {
    if n > 0 {
      assert Blank(m).slots[..n][..n - 1] == Blank(m).slots[..n - 1];
      assert Blank(m).tags[..n][..n - 1] == Blank(m).tags[..n - 1];
      CountBlank(n - 1, m);
    }
  }

  lemma BlankInside(m: Fanout)
    ensures Inside(Blank(m).slots, Blank(m).tags, 0, m)
  {
    CountBlank(m, m);
    assert Blank(m).slots[..m] == Blank(m).slots && Blank(m).tags[..m] == Blank(m).tags;
  }

  /** The node to store into: the one there, or a new one. */
  function NodeFor(t: Tree, m: Fanout): Tree {
    if t == Null then Blank(m) else t
  }

  ghost predicate KeptInside(n: Tree, h: nat, m: Fanout) {
    && n.Node? && Inside(n.slots, n.tags, n.count, m)
    && forall k :: 0 <= k < m ==> Kept(n.slots[k], h, n.tags[k], m)
  }

  lemma NodeForKept(t: Tree, h: nat, tag: bool, m: Fanout)
    requires Kept(t, h, tag, m) && h > 0
    ensures KeptInside(NodeFor(t, m), h - 1, m) && (tag == Any(NodeFor(t, m).tags))
  {
    BlankInside(m);
  }

  /** Slot k of a node replaced: a slot that fills or empties is counted, and a node that counts nothing goes away. */
  function Replaced(n: Tree, k: nat, x: Tree, b: bool): Tree
    requires n.Node? && k < |n.slots| && k < |n.tags|
  {
    var count: int := n.count + (if n.slots[k] == Null then 0 else -1) + (if x == Null then 0 else 1);
    if count <= 0 then Null else Node(n.slots[k := x], n.tags[k := b], count)
  }

  lemma ReplacedKept(n: Tree, h: nat, m: Fanout, k: nat, x: Tree, b: bool)
    requires KeptInside(n, h, m) && k < m && Kept(x, h, b, m)
    ensures Kept(Replaced(n, k, x, b), h + 1, TagOf(Replaced(n, k, x, b)), m)
    ensures Replaced(n, k, x, b) == Null ==> x == Null && forall j :: 0 <= j < m && j != k ==> n.slots[j] == Null
    ensures x != Null ==> Replaced(n, k, x, b) != Null
  {
    CountUpdate(n.slots, n.tags, 1, k, x, b);
    forall j | 0 <= j < m && j != k && n.slots[j] != Null
      ensures Count(n.slots[k := x], n.tags[k := b], 1) >= 1
    {
      CountOne(n.slots[k := x], n.tags[k := b], 1, j);
    }
    if x != Null {
      CountOne(n.slots[k := x], n.tags[k := b], 1, k);
    }
  }

  /** What replacing shows: slot k the new subtree, every other slot what it showed. */
  lemma ReplacedAt(n: Tree, h: nat, m: Fanout, k: nat, x: Tree, b: bool, q: Path)
    requires KeptInside(n, h, m) && k < m && Kept(x, h, b, m) && Fits(q, h + 1, m)
    ensures var r := Replaced(n, k, x, b);
            && Get(r, q) == (if q.slot == k then Get(x, q.rest) else Get(n.slots[q.slot], q.rest))
            && TagAt(r, TagOf(r), q) == (if q.slot == k then TagAt(x, b, q.rest) else TagAt(n.slots[q.slot],
                n.tags[q.slot], q.rest))
  {
    ReplacedKept(n, h, m, k, x, b);
    var r := Replaced(n, k, x, b);
    if r == Null {
      assert q.slot != k ==> Kept(n.slots[q.slot], h, n.tags[q.slot], m);
      NullShows(q.rest);
    }
  }

  lemma NullShows(p: Path)
    ensures Get(Null, p) == 0 && !TagAt(Null, false, p)
  {
  }

  // ---------------------------------------------------------------- changes along a path

  /** Store an entry: nodes are created where they are missing; an entry already there keeps its mark. */
  function Put(t: Tree, h: nat, tag: bool, m: Fanout, p: Path, ptr: nat): Tree
    requires Kept(t, h, tag, m) && Fits(p, h, m)
    decreases h
  {
    if h == 0 then Entry(ptr)
    else
      NodeForKept(t, h, tag, m);
      var n := NodeFor(t, m);
      Replaced(n, p.slot, Put(n.slots[p.slot], h - 1, n.tags[p.slot], m, p.rest, ptr), n.tags[p.slot])
  }

  /** Change the entry at p: erase it, or set or clear its mark. */
  datatype Change = Erase | SetMark | ClearMark

  /** The tag of a subtree after a change below it. */
  predicate NewTag(r: Tree, h: nat, c: Change) {
    if h == 0 then r != Null && c == SetMark else TagOf(r)
  }

  /** The subtree after a change at p: node_tag_set() and node_tag_clear() go up as far as the tags change. */
  function Changed(t: Tree, h: nat, tag: bool, m: Fanout, p: Path, c: Change): Tree
    requires Kept(t, h, tag, m) && Fits(p, h, m)
    decreases h
  {
    if t == Null || h == 0 then
      if c == Erase then Null else t
    else
      var x := Changed(t.slots[p.slot], h - 1, t.tags[p.slot], m, p.rest, c);
      Replaced(t, p.slot, x, NewTag(x, h - 1, c))
  }

  lemma {:induction false} PutKept(t: Tree, h: nat, tag: bool, m: Fanout, p: Path, ptr: nat)
    requires Kept(t, h, tag, m) && Fits(p, h, m) && ptr != 0
    ensures var r := Put(t, h, tag, m, p, ptr);
            r != Null && Kept(r, h, tag, m) && (h > 0 ==> r.Node? && tag == TagOf(r))
    decreases h
  {
    if h > 0 {
      NodeForKept(t, h, tag, m);
      var n, k := NodeFor(t, m), p.slot;
      PutKept(n.slots[k], h - 1, n.tags[k], m, p.rest, ptr);
      var x := Put(n.slots[k], h - 1, n.tags[k], m, p.rest, ptr);
      ReplacedKept(n, h - 1, m, k, x, n.tags[k]);
      assert n.tags[k := n.tags[k]] == n.tags;
    }
  }

  lemma NodeForAt(t: Tree, h: nat, tag: bool, m: Fanout, q: Path)
    requires Kept(t, h, tag, m) && h > 0 && Fits(q, h, m)
    ensures var n := NodeFor(t, m);
            && KeptInside(n, h - 1, m)
            && Get(n.slots[q.slot], q.rest) == Get(t, q)
            && TagAt(n.slots[q.slot], n.tags[q.slot], q.rest) == TagAt(t, tag, q)
  {
    NodeForKept(t, h, tag, m);
    NullShows(q.rest);
  }

  /** One level of storing: slot k shows what the subtree shows after it. */
  lemma PutLevel(t: Tree, h: nat, tag: bool, m: Fanout, p: Path, ptr: nat, q: Path)
    requires Kept(t, h, tag, m) && Fits(p, h, m) && Fits(q, h, m) && ptr != 0 && h > 0
    ensures var n, k := NodeFor(t, m), p.slot;
            && KeptInside(n, h - 1, m)
            && var x, r := Put(n.slots[k], h - 1, n.tags[k], m, p.rest, ptr), Put(t, h, tag, m, p, ptr);
               && Get(r, q) == (if q.slot == k then Get(x, q.rest) else Get(t, q))
               && TagAt(r, tag, q) == (if q.slot == k then TagAt(x, n.tags[k], q.rest) else TagAt(t, tag, q))
  {
    NodeForAt(t, h, tag, m, q);
    var n, k := NodeFor(t, m), p.slot;
    var x := Put(n.slots[k], h - 1, n.tags[k], m, p.rest, ptr);
    PutKept(t, h, tag, m, p, ptr);
    PutKept(n.slots[k], h - 1, n.tags[k], m, p.rest, ptr);
    ReplacedAt(n, h - 1, m, k, x, n.tags[k], q);
  }

  /** Storing at p changes p alone, and no mark. */
  lemma {:induction false} PutAt(t: Tree, h: nat, tag: bool, m: Fanout, p: Path, ptr: nat, q: Path)
    requires Kept(t, h, tag, m) && Fits(p, h, m) && Fits(q, h, m) && ptr != 0
    ensures var r := Put(t, h, tag, m, p, ptr);
            Get(r, q) == (if q == p then ptr else Get(t, q)) && TagAt(r, tag, q) == TagAt(t, tag, q)
    decreases h
  {
    if h > 0 {
      PutLevel(t, h, tag, m, p, ptr, q);
      NodeForAt(t, h, tag, m, q);
      if q.slot == p.slot {
        var n := NodeFor(t, m);
        PutAt(n.slots[p.slot], h - 1, n.tags[p.slot], m, p.rest, ptr, q.rest);
      }
    }
  }

  lemma {:induction false} ChangedKept(t: Tree, h: nat, tag: bool, m: Fanout, p: Path, c: Change)
    requires Kept(t, h, tag, m) && Fits(p, h, m)
    ensures var r := Changed(t, h, tag, m, p, c);
            Kept(r, h, NewTag(r, h, c), m) && (c != Erase ==> (r == Null <==> t == Null))
    decreases h
  {
    if t != Null && h > 0 {
      var k := p.slot;
      ChangedKept(t.slots[k], h - 1, t.tags[k], m, p.rest, c);
      var x := Changed(t.slots[k], h - 1, t.tags[k], m, p.rest, c);
      ReplacedKept(t, h - 1, m, k, x, NewTag(x, h - 1, c));
    }
  }

  /** The same for a node of a tree. */
  lemma ReplacedShows(t: Tree, h: nat, tag: bool, m: Fanout, k: nat, x: Tree, b: bool, q: Path)
    requires Kept(t, h, tag, m) && t.Node? && k < m && Kept(x, h - 1, b, m) && Fits(q, h, m)
    ensures var r := Replaced(t, k, x, b);
            && Get(r, q) == (if q.slot == k then Get(x, q.rest) else Get(t, q))
            && TagAt(r, TagOf(r), q) == (if q.slot == k then TagAt(x, b, q.rest) else TagAt(t, tag, q))
  {
    ReplacedAt(t, h - 1, m, k, x, b, q);
  }

  lemma ChangedLevel(t: Tree, h: nat, tag: bool, m: Fanout, p: Path, c: Change, q: Path)
    requires Kept(t, h, tag, m) && Fits(p, h, m) && Fits(q, h, m) && t != Null && h > 0
    ensures var k, r := p.slot, Changed(t, h, tag, m, p, c);
            var x := Changed(t.slots[k], h - 1, t.tags[k], m, p.rest, c);
            && Get(r, q) == (if q.slot == k then Get(x, q.rest) else Get(t, q))
            && TagAt(r, NewTag(r, h, c), q) == (if q.slot == k then TagAt(x, NewTag(x, h - 1, c),
                q.rest) else TagAt(t, tag, q))
  {
    var k := p.slot;
    ChangedKept(t.slots[k], h - 1, t.tags[k], m, p.rest, c);
    var x := Changed(t.slots[k], h - 1, t.tags[k], m, p.rest, c);
    ReplacedShows(t, h, tag, m, k, x, NewTag(x, h - 1, c), q);
  }

  /** The entry at p is gone, or has its mark as asked; nothing else changed. */
  lemma {:induction false} ChangedAt(t: Tree, h: nat, tag: bool, m: Fanout, p: Path, c: Change, q: Path)
    requires Kept(t, h, tag, m) && Fits(p, h, m) && Fits(q, h, m) && Get(t, p) != 0
    ensures var r := Changed(t, h, tag, m, p, c);
            && Get(r, q) == (if q == p && c == Erase then 0 else Get(t, q))
            && TagAt(r, NewTag(r, h, c), q) == (if q == p then c == SetMark else TagAt(t, tag, q))
    decreases h
  {
    if h > 0 {
      ChangedLevel(t, h, tag, m, p, c, q);
      if q.slot == p.slot {
        ChangedAt(t.slots[p.slot], h - 1, t.tags[p.slot], m, p.rest, c, q.rest);
      }
    }
  }
}
