/** The radix tree as the IDR uses it: nodes of m slots, one IDR_FREE tag per slot and a count of occupied slots. An
    index is the path of slots that leads to it, one digit per level; height 0 is a single slot. Pointers are numbers, 0 is
    NULL. */
module RadixTree {
  /** RADIX_TREE_MAP_SIZE. */
  type Fanout = m: nat | m >= 2 witness 2

  datatype Tree = Null | Entry(ptr: nat) | Node(slots: seq<Tree>, tags: seq<bool>, count: nat)

  /** The digits of an index, the top level first. */
  datatype Path = End | Step(slot: nat, rest: Path)

  ghost predicate Fits(p: Path, h: nat, m: Fanout) {
    match p
    case End => h == 0
    case Step(k, r) => h > 0 && k < m && Fits(r, h - 1, m)
  }

  predicate Any(tags: seq<bool>) {
    exists k :: 0 <= k < |tags| && tags[k]
  }

  /** A bottom slot is occupied when its id is in use, even with a NULL pointer; a higher slot when it holds a node. */
  predicate Occupied(slot: Tree, tag: bool, h: nat) {
    if h == 0 then !tag else slot != Null
  }

  function Count(slots: seq<Tree>, tags: seq<bool>, h: nat): nat
    requires |slots| == |tags|
  {
    if slots == [] then 0
    else
      var k := |slots| - 1;
      Count(slots[..k], tags[..k], h) + if Occupied(slots[k], tags[k], h) then 1 else 0
  }

  lemma {:induction false} CountUpdate(slots: seq<Tree>, tags: seq<bool>, h: nat, k: nat, x: Tree, b: bool)
    requires |slots| == |tags| && k < |slots|
    ensures Count(slots[k := x], tags[k := b], h) ==
            Count(slots, tags, h) - (if Occupied(slots[k], tags[k], h) then 1 else 0) + if Occupied(x, b, h) then 1 else 0
  {
    var n := |slots| - 1;
    if k == n {
      assert slots[k := x][..n] == slots[..n] && tags[k := b][..n] == tags[..n];
    } else {
      assert slots[k := x][..n] == slots[..n][k := x] && tags[k := b][..n] == tags[..n][k := b];
      CountUpdate(slots[..n], tags[..n], h, k, x, b);
    }
  }

  lemma {:induction false} CountOne(slots: seq<Tree>, tags: seq<bool>, h: nat, k: nat)
    requires |slots| == |tags| && k < |slots| && Occupied(slots[k], tags[k], h)
    ensures Count(slots, tags, h) >= 1
  {
    var n := |slots| - 1;
    if k < n {
      CountOne(slots[..n], tags[..n], h, k);
    }
  }

  lemma {:induction false} CountWitness(slots: seq<Tree>, tags: seq<bool>, h: nat) returns (k: nat)
    requires |slots| == |tags| && Count(slots, tags, h) > 0
    ensures k < |slots| && Occupied(slots[k], tags[k], h)
  {
    var n := |slots| - 1;
    if Occupied(slots[n], tags[n], h) {
      k := n;
    } else {
      k := CountWitness(slots[..n], tags[..n], h);
    }
  }

  lemma {:induction false} CountTwo(slots: seq<Tree>, tags: seq<bool>, h: nat, j: nat, k: nat)
    requires |slots| == |tags| && j < k < |slots|
    requires Occupied(slots[j], tags[j], h) && Occupied(slots[k], tags[k], h)
    ensures Count(slots, tags, h) >= 2
  {
    var n := |slots| - 1;
    if k < n {
      CountTwo(slots[..n], tags[..n], h, j, k);
    } else {
      CountOne(slots[..n], tags[..n], h, j);
    }
  }

  /** What every subtree keeps, with the tag its parent (or the root) holds for it: nodes are never empty and count their
      occupied slots, an absent node has its tag set, and a tag is set exactly if one of the tags below is. */
  ghost predicate Ok(t: Tree, h: nat, tag: bool, m: Fanout)
    decreases h
  {
    match t
    case Null => h > 0 ==> tag
    case Entry(p) => h == 0 && p != 0 && !tag
    case Node(slots, tags, count) =>
      && h > 0 && |slots| == |tags| == m
      && tag == Any(tags)
      && count == Count(slots, tags, h - 1) && count > 0
      && forall k :: 0 <= k < m ==> Ok(slots[k], h - 1, tags[k], m)
  }

  /** The same for the inside of a node that may still be empty. */
  ghost predicate Full(slots: seq<Tree>, tags: seq<bool>, count: nat, h: nat, m: Fanout) {
    && |slots| == |tags| == m
    && count == Count(slots, tags, h)
    && forall k :: 0 <= k < m ==> Ok(slots[k], h, tags[k], m)
  }

  /** The tag of the slot where the walk down along p stops. In an IDR it says that the index is not allocated, in a map of
      entries that the entry is marked. */
  predicate TagAt(t: Tree, tag: bool, p: Path) {
    match p
    case End => tag
    case Step(k, r) => if t.Node? && k < |t.slots| && k < |t.tags| then TagAt(t.slots[k], t.tags[k], r) else tag
  }

  /** __radix_tree_lookup(): the pointer stored at path p. */
  function Get(t: Tree, p: Path): nat {
    match p
    case End => if t.Entry? then t.ptr else 0
    case Step(k, r) => if t.Node? && k < |t.slots| then Get(t.slots[k], r) else 0
  }

  /** A free index has no pointer. */
  lemma {:induction false} FreeIsNull(t: Tree, h: nat, tag: bool, m: Fanout, p: Path)
    requires Ok(t, h, tag, m) && Fits(p, h, m) && TagAt(t, tag, p)
    ensures Get(t, p) == 0
    decreases h
  {
    if t.Node? {
      FreeIsNull(t.slots[p.slot], h - 1, t.tags[p.slot], m, p.rest);
    }
  }

  function Zeros(h: nat): Path {
    if h == 0 then End else Step(0, Zeros(h - 1))
  }

  lemma {:induction false} ZerosFit(h: nat, m: Fanout)
    ensures Fits(Zeros(h), h, m)
  {
    if h > 0 {
      ZerosFit(h - 1, m);
    }
  }

  /** The tag law, one half: a set IDR_FREE bit has a free index below it. */
  lemma {:induction false} TagHasFree(t: Tree, h: nat, m: Fanout) returns (p: Path)
    requires Ok(t, h, true, m)
    ensures Fits(p, h, m) && TagAt(t, true, p)
    decreases h
  {
    if t.Node? {
      var k: nat :| k < m && t.tags[k];
      var r := TagHasFree(t.slots[k], h - 1, m);
      p := Step(k, r);
    } else {
      ZerosFit(h, m);
      p := Zeros(h);
    }
  }

  /** The other half: below a clear bit nothing is free. */
  lemma {:induction false} FreeHasTag(t: Tree, h: nat, tag: bool, m: Fanout, p: Path)
    requires Ok(t, h, tag, m) && Fits(p, h, m) && TagAt(t, tag, p)
    ensures tag
    decreases h
  {
    if t.Node? {
      FreeHasTag(t.slots[p.slot], h - 1, t.tags[p.slot], m, p.rest);
    }
  }

  ghost predicate HasTagged(t: Tree, h: nat, tag: bool, m: Fanout) {
    exists p :: Fits(p, h, m) && TagAt(t, tag, p)
  }

  /** The tag law: a slot's IDR_FREE bit is set if and only if some index below it is free. */
  lemma TagMeansFree(t: Tree, h: nat, tag: bool, m: Fanout)
    requires Ok(t, h, tag, m)
    ensures tag <==> HasTagged(t, h, tag, m)
  {
    if tag {
      var p := TagHasFree(t, h, m);
      assert Fits(p, h, m) && TagAt(t, tag, p);
    }
    if HasTagged(t, h, tag, m) {
      var p :| Fits(p, h, m) && TagAt(t, tag, p);
      FreeHasTag(t, h, tag, m, p);
    }
  }

  /** A node is there only for an allocated index. */
  lemma {:induction false} NodeHasId(t: Tree, h: nat, tag: bool, m: Fanout) returns (p: Path)
    requires Ok(t, h, tag, m) && Occupied(t, tag, h)
    ensures Fits(p, h, m) && !TagAt(t, tag, p)
    decreases h
  {
    if h == 0 {
      p := End;
    } else {
      var k := CountWitness(t.slots, t.tags, h - 1);
      var r := NodeHasId(t.slots[k], h - 1, t.tags[k], m);
      p := Step(k, r);
    }
  }

  // ---------------------------------------------------------------- storing

  /** A new node: nothing in it, every tag set. */
  function Fresh(m: Fanout): Tree {
    Node(seq(m, _ => Null), seq(m, _ => true), 0)
  }

  lemma {:induction false} CountFresh(n: nat, m: Fanout, h: nat)
    requires n <= m
    ensures Count(Fresh(m).slots[..n], Fresh(m).tags[..n], h) == 0
  {
    if n > 0 {
      assert Fresh(m).slots[..n][..n - 1] == Fresh(m).slots[..n - 1];
      assert Fresh(m).tags[..n][..n - 1] == Fresh(m).tags[..n - 1];
      CountFresh(n - 1, m, h);
    }
  }

  lemma FreshFull(h: nat, m: Fanout)
    ensures Full(Fresh(m).slots, Fresh(m).tags, 0, h, m)
  {
    CountFresh(m, m, h);
    assert Fresh(m).slots[..m] == Fresh(m).slots && Fresh(m).tags[..m] == Fresh(m).tags;
  }

  /** The node to store into: the one there, or a new one. */
  function Opened(t: Tree, m: Fanout): Tree {
    if t == Null then Fresh(m) else t
  }

  lemma OpenedFull(t: Tree, h: nat, tag: bool, m: Fanout)
    requires Ok(t, h, tag, m) && h > 0
    ensures var n := Opened(t, m); n.Node? && Full(n.slots, n.tags, n.count, h - 1, m)
  {
    FreshFull(h - 1, m);
  }

  predicate TagOf(t: Tree) {
    t.Node? && Any(t.tags)
  }

  /** Put a subtree just stored into back into its slot k: a slot that was empty is counted, and its tag is cleared unless
      something below is still free. */
  function Join(node: Tree, k: nat, child: Tree, bottom: bool): Tree
    requires node.Node? && k < |node.slots| && k < |node.tags|
  {
    Node(node.slots[k := child],
         if TagOf(child) then node.tags else node.tags[k := false],
         node.count + if bottom || node.slots[k] == Null then 1 else 0)
  }

  /** Store ptr at path p: nodes on the way are created where they are missing, the slot is filled, and its tag is cleared
      upwards as long as nothing else below is free. */
  function Insert(t: Tree, h: nat, tag: bool, m: Fanout, p: Path, ptr: nat): Tree
    requires Ok(t, h, tag, m) && Fits(p, h, m)
    decreases h
  {
    if h == 0 then
      if ptr == 0 then Null else Entry(ptr)
    else
      OpenedFull(t, h, tag, m);
      var node := Opened(t, m);
      Join(node, p.slot, Insert(node.slots[p.slot], h - 1, node.tags[p.slot], m, p.rest, ptr), h == 1)
  }

  lemma JoinOk(node: Tree, h: nat, m: Fanout, k: nat, x: Tree)
    requires node.Node? && Full(node.slots, node.tags, node.count, h, m) && k < m && node.tags[k]
    requires Ok(x, h, TagOf(x), m) && Occupied(x, TagOf(x), h)
    ensures var n := Join(node, k, x, h == 0);
            Ok(n, h + 1, TagOf(n), m) && Occupied(n, TagOf(n), h + 1) && n.tags == node.tags[k := TagOf(x)]
  {
    CountUpdate(node.slots, node.tags, h, k, x, TagOf(x));
    assert TagOf(x) ==> node.tags[k := TagOf(x)] == node.tags;
    var n := Join(node, k, x, h == 0);
    CountOne(n.slots, n.tags, h, k);
  }

  lemma OpenedFree(t: Tree, h: nat, tag: bool, m: Fanout, p: Path)
    requires Ok(t, h, tag, m) && h > 0 && Fits(p, h, m)
    ensures var n := Opened(t, m);
            Full(n.slots, n.tags, n.count, h - 1, m) && TagAt(n.slots[p.slot], n.tags[p.slot], p.rest) == TagAt(t, tag, p)
            && Get(n.slots[p.slot], p.rest) == Get(t, p)
  {
    OpenedFull(t, h, tag, m);
    if t == Null && h > 1 {
      assert Opened(t, m).slots[p.slot] == Null;
    }
  }

  lemma {:induction false} InsertOk(t: Tree, h: nat, tag: bool, m: Fanout, p: Path, ptr: nat)
    requires Ok(t, h, tag, m) && Fits(p, h, m) && TagAt(t, tag, p)
    ensures var n := Insert(t, h, tag, m, p, ptr);
            Ok(n, h, TagOf(n), m) && Occupied(n, TagOf(n), h)
    decreases h
  {
    if h > 0 {
      OpenedFree(t, h, tag, m, p);
      var node := Opened(t, m);
      var k := p.slot;
      FreeHasTag(node.slots[k], h - 1, node.tags[k], m, p.rest);
      InsertOk(node.slots[k], h - 1, node.tags[k], m, p.rest, ptr);
      JoinOk(node, h - 1, m, k, Insert(node.slots[k], h - 1, node.tags[k], m, p.rest, ptr));
    }
  }

  /** What Join changes: slot k now shows the child, every other slot what it showed. */
  lemma JoinAt(node: Tree, k: nat, x: Tree, bottom: bool, q: Path)
    requires node.Node? && |node.slots| == |node.tags| && k < |node.slots| && node.tags[k]
    requires q.Step? && q.slot < |node.slots|
    ensures var n := Join(node, k, x, bottom);
            && TagAt(n, TagOf(n), q) == (if q.slot == k then TagAt(x, TagOf(x), q.rest) else TagAt(node.slots[q.slot],
                node.tags[q.slot], q.rest))
            && Get(n, q) == (if q.slot == k then Get(x, q.rest) else Get(node.slots[q.slot], q.rest))
  {
    assert TagOf(x) ==> node.tags[k := TagOf(x)] == node.tags;
  }

  /** Storing at p takes p and changes no other index. */
  lemma {:induction false} InsertAt(t: Tree, h: nat, tag: bool, m: Fanout, p: Path, ptr: nat, q: Path)
    requires Ok(t, h, tag, m) && Fits(p, h, m) && TagAt(t, tag, p) && Fits(q, h, m)
    ensures var n := Insert(t, h, tag, m, p, ptr);
            && (TagAt(n, TagOf(n), q) <==> q != p && TagAt(t, tag, q))
            && Get(n, q) == if q == p then ptr else Get(t, q)
    decreases h
  {
    if h > 0 {
      OpenedFree(t, h, tag, m, p);
      OpenedFree(t, h, tag, m, q);
      var node := Opened(t, m);
      var k := p.slot;
      var kid, kidTag := node.slots[k], node.tags[k];
      FreeHasTag(kid, h - 1, kidTag, m, p.rest);
      JoinAt(node, k, Insert(kid, h - 1, kidTag, m, p.rest, ptr), h == 1, q);
      if q.slot == k {
        InsertAt(kid, h - 1, kidTag, m, p.rest, ptr, q.rest);
      }
    }
  }

  // ---------------------------------------------------------------- removing

  /** Put a subtree just removed from back into its slot k: the slot's tag is set, a slot that emptied is no longer counted,
      and a node that counts nothing goes away. */
  function Drop(node: Tree, k: nat, child: Tree, bottom: bool): Tree
    requires node.Node? && k < |node.slots| && k < |node.tags|
  {
    var count: int := node.count - if bottom || child == Null then 1 else 0;
    if count <= 0 then Null else Node(node.slots[k := child], node.tags[k := true], count)
  }

  /** Remove the index at path p. */
  function Remove(t: Tree, h: nat, tag: bool, m: Fanout, p: Path): Tree
    requires Ok(t, h, tag, m) && Fits(p, h, m) && !TagAt(t, tag, p)
    decreases h
  {
    if h == 0 then Null
    else Drop(t, p.slot, Remove(t.slots[p.slot], h - 1, t.tags[p.slot], m, p.rest), h == 1)
  }

  lemma DropOk(node: Tree, h: nat, m: Fanout, k: nat, x: Tree)
    requires node.Node? && Full(node.slots, node.tags, node.count, h, m) && k < m
    requires Ok(x, h, true, m) && Occupied(node.slots[k], node.tags[k], h)
    ensures Ok(Drop(node, k, x, h == 0), h + 1, true, m)
    ensures Drop(node, k, x, h == 0) == Null ==>
              !Occupied(x, true, h) && forall j :: 0 <= j < m && j != k ==> !Occupied(node.slots[j], node.tags[j], h)
  {
    CountUpdate(node.slots, node.tags, h, k, x, true);
    CountOne(node.slots, node.tags, h, k);
    assert node.tags[k := true][k];
    forall j | 0 <= j < m && j != k && Occupied(node.slots[j], node.tags[j], h)
      ensures node.count >= 2
    {
      if j < k {
        CountTwo(node.slots, node.tags, h, j, k);
      } else {
        CountTwo(node.slots, node.tags, h, k, j);
      }
    }
  }

  lemma {:induction false} RemoveOk(t: Tree, h: nat, tag: bool, m: Fanout, p: Path)
    requires Ok(t, h, tag, m) && Fits(p, h, m) && !TagAt(t, tag, p)
    ensures Ok(Remove(t, h, tag, m, p), h, true, m)
    ensures Occupied(t, tag, h)
    decreases h
  {
    if h > 0 {
      RemoveOk(t.slots[p.slot], h - 1, t.tags[p.slot], m, p.rest);
      DropOk(t, h - 1, m, p.slot, Remove(t.slots[p.slot], h - 1, t.tags[p.slot], m, p.rest));
    }
  }

  lemma Unoccupied(t: Tree, h: nat, tag: bool, m: Fanout, p: Path)
    requires Ok(t, h, tag, m) && Fits(p, h, m) && !Occupied(t, tag, h)
    ensures TagAt(t, tag, p) && Get(t, p) == 0
  {
    if h == 0 {
      assert p == End;
    }
  }

  /** What Drop changes: slot k now shows the child, every other slot what it showed. */
  lemma DropAt(node: Tree, h: nat, m: Fanout, k: nat, x: Tree, q: Path)
    requires node.Node? && Full(node.slots, node.tags, node.count, h, m) && k < m
    requires Ok(x, h, true, m) && Occupied(node.slots[k], node.tags[k], h)
    requires Fits(q, h + 1, m)
    ensures var n := Drop(node, k, x, h == 0);
            && TagAt(n, true, q) == (if q.slot == k then TagAt(x, true, q.rest) else TagAt(node.slots[q.slot],
                node.tags[q.slot], q.rest))
            && Get(n, q) == (if q.slot == k then Get(x, q.rest) else Get(node.slots[q.slot], q.rest))
  {
    DropOk(node, h, m, k, x);
    if Drop(node, k, x, h == 0) == Null {
      if q.slot == k {
        Unoccupied(x, h, true, m, q.rest);
      } else {
        Unoccupied(node.slots[q.slot], h, node.tags[q.slot], m, q.rest);
      }
    }
  }

  /** Removing p frees p and changes no other index. */
  lemma {:induction false} RemoveAt(t: Tree, h: nat, tag: bool, m: Fanout, p: Path, q: Path)
    requires Ok(t, h, tag, m) && Fits(p, h, m) && !TagAt(t, tag, p) && Fits(q, h, m)
    ensures var n := Remove(t, h, tag, m, p);
            && (TagAt(n, true, q) <==> q == p || TagAt(t, tag, q))
            && Get(n, q) == if q == p then 0 else Get(t, q)
    decreases h
  {
    if h > 0 {
      var kid, kidTag := t.slots[p.slot], t.tags[p.slot];
      RemoveOk(kid, h - 1, kidTag, m, p.rest);
      DropAt(t, h - 1, m, p.slot, Remove(kid, h - 1, kidTag, m, p.rest), q);
      if q.slot == p.slot {
        RemoveAt(kid, h - 1, kidTag, m, p.rest, q.rest);
      }
    }
  }

  // ---------------------------------------------------------------- height

  /** One turn of radix_tree_extend(): a new root whose slot 0 is the old one. Everything else in it is free. */
  function Grow(t: Tree, tag: bool, m: Fanout): Tree {
    Node(Fresh(m).slots[0 := t], Fresh(m).tags[0 := tag], 1)
  }

  lemma GrowOk(t: Tree, h: nat, tag: bool, m: Fanout)
    requires Ok(t, h, tag, m) && Occupied(t, tag, h)
    ensures Ok(Grow(t, tag, m), h + 1, true, m)
  {
    FreshFull(h, m);
    CountUpdate(Fresh(m).slots, Fresh(m).tags, h, 0, t, tag);
    assert Grow(t, tag, m).tags[1];
  }

  /** radix_tree_shrink() may take this root off. */
  predicate Shrinkable(t: Tree, h: nat) {
    t.Node? && h > 1 && t.count == 1 && |t.slots| > 0 && t.slots[0] != Null && |t.tags| > 0
  }

  /** A root that may go has everything in use below its slot 0; its own tag is set. */
  lemma ShrinkableIsLow(t: Tree, h: nat, tag: bool, m: Fanout, p: Path)
    requires Ok(t, h, tag, m) && Shrinkable(t, h) && Fits(p, h, m) && p.slot > 0
    ensures tag && TagAt(t, tag, p) && Get(t, p) == 0
  {
    if Occupied(t.slots[p.slot], t.tags[p.slot], h - 1) {
      CountTwo(t.slots, t.tags, h - 1, 0, p.slot);
    } else {
      Unoccupied(t.slots[p.slot], h - 1, t.tags[p.slot], m, p.rest);
    }
    assert t.tags[p.slot];
  }

  /** A root that may not go has something in use outside slot 0: no lower tree would do. */
  lemma LeastHeight(t: Tree, h: nat, tag: bool, m: Fanout) returns (p: Path)
    requires Ok(t, h, tag, m) && t.Node? && h > 1 && !Shrinkable(t, h)
    ensures Fits(p, h, m) && p.slot > 0 && !TagAt(t, tag, p)
  {
    var k := CountWitness(t.slots, t.tags, h - 1);
    if k == 0 {
      CountUpdate(t.slots, t.tags, h - 1, 0, Null, true);
      k := CountWitness(t.slots[0 := Null], t.tags[0 := true], h - 1);
    }
    var r := NodeHasId(t.slots[k], h - 1, t.tags[k], m);
    p := Step(k, r);
  }

  lemma JoinUnshrinkable(node: Tree, h: nat, m: Fanout, k: nat, x: Tree)
    requires node.Node? && Full(node.slots, node.tags, node.count, h, m) && k < m && h > 0 && x != Null
    requires k > 0 || (node.count > 0 && !Shrinkable(node, h + 1))
    ensures !Shrinkable(Join(node, k, x, false), h + 1)
  {
    if k > 0 && node.slots[0] != Null {
      CountOne(node.slots, node.tags, h, 0);
      if node.slots[k] != Null {
        CountTwo(node.slots, node.tags, h, 0, k);
      }
    } else if k == 0 && node.slots[0] != Null {
      assert node.count != 1;
    }
  }

  /** Storing never leaves a root that could be shorter, if the root could not before or the index needs this height. */
  lemma InsertUnshrinkable(t: Tree, h: nat, tag: bool, m: Fanout, p: Path, ptr: nat)
    requires Ok(t, h, tag, m) && Fits(p, h, m) && TagAt(t, tag, p) && h > 1
    requires p.slot > 0 || (t.Node? && !Shrinkable(t, h))
    ensures !Shrinkable(Insert(t, h, tag, m, p, ptr), h)
  {
    OpenedFree(t, h, tag, m, p);
    var node := Opened(t, m);
    var kid, kidTag := node.slots[p.slot], node.tags[p.slot];
    InsertOk(kid, h - 1, kidTag, m, p.rest, ptr);
    JoinUnshrinkable(node, h - 1, m, p.slot, Insert(kid, h - 1, kidTag, m, p.rest, ptr));
  }

  /** Removing leaves the root's shape alone unless the slot below it empties. */
  lemma RemoveUnshrinkable(t: Tree, h: nat, tag: bool, m: Fanout, p: Path)
    requires Ok(t, h, tag, m) && Fits(p, h, m) && !TagAt(t, tag, p) && h > 1 && !Shrinkable(t, h)
    ensures var n := Remove(t, h, tag, m, p);
            n != Null && n.slots[p.slot] != Null ==> !Shrinkable(n, h)
  {
    RemoveOk(t.slots[p.slot], h - 1, t.tags[p.slot], m, p.rest);
  }
}
