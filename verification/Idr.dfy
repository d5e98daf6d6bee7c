/** The IDR: small numbers handed out for pointers, the smallest free one first, over the radix tree. */
module Idr {
  import opened Stride
  import opened RadixTree
  import opened RadixDigits
  import opened IdrTree

  const U32: nat := 0x1_0000_0000
  const U64: nat := 0x1_0000_0000_0000_0000
  const INT_MAX: int := 0x7fff_ffff

  /** What a walk below one node ends with: a free index, none below this node, or none up to the limit. */
  datatype Found = At(index: nat) | Beyond | NoRoom

  /** radix_tree_find_next_bit(). */
  function NextSet(tags: seq<bool>, k: nat): (n: nat)
    requires k <= |tags|
    ensures k <= n <= |tags| && (n < |tags| ==> tags[n])
    ensures forall j :: k <= j < n ==> !tags[j]
    decreases |tags| - k
  {
    if k == |tags| || tags[k] then k else NextSet(tags, k + 1)
  }

  /** No index of the subtree from `lo` up to `hi` is free. */
  ghost predicate Full(t: Tree, h: nat, tag: bool, m: Fanout, lo: nat, hi: nat) {
    forall j: nat :: lo <= j < hi ==> !TagAt(t, tag, Digits(j, h, m))
  }

  lemma FreeBelow(t: Tree, h: nat, tag: bool, m: Fanout, k: nat, r: nat)
    requires t.Node? && Ok(t, h, tag, m) && k < m && r < Cap(h - 1, m)
    ensures var i := Base(k, Cap(h - 1, m)) + r;
            i < Cap(h, m) && TagAt(t, tag, Digits(i, h, m)) == TagAt(t.slots[k], t.tags[k], Digits(r, h - 1, m))
  {
    DigitsJoin(k, r, h - 1, m);
  }

  /** Below a clear tag, everything is in use. */
  lemma ClearIsTaken(t: Tree, h: nat, m: Fanout, r: nat)
    requires Ok(t, h, false, m) && r < Cap(h, m)
    ensures !TagAt(t, false, Digits(r, h, m))
  {
    var p := Digits(r, h, m);
    DigitsFit(r, h, m);
    if TagAt(t, false, p) {
      FreeHasTag(t, h, false, m, p);
    }
  }

  lemma ClearIsFull(t: Tree, h: nat, tag: bool, m: Fanout, k: nat)
    requires t.Node? && Ok(t, h, tag, m) && k < m && !t.tags[k]
    ensures Full(t, h, tag, m, Base(k, Cap(h - 1, m)), Base(k + 1, Cap(h - 1, m)))
  {
    var b := Base(k, Cap(h - 1, m));
    forall j: nat | b <= j < b + Cap(h - 1, m)
      ensures !TagAt(t, tag, Digits(j, h, m))
    {
      FreeBelow(t, h, tag, m, k, j - b);
      ClearIsTaken(t.slots[k], h - 1, m, j - b);
    }
  }

  lemma {:induction false} ClearRunIsFull(t: Tree, h: nat, tag: bool, m: Fanout, k: nat, n: nat)
    requires t.Node? && Ok(t, h, tag, m) && k <= n <= m && forall j :: k <= j < n ==> !t.tags[j]
    ensures Full(t, h, tag, m, Base(k, Cap(h - 1, m)), Base(n, Cap(h - 1, m)))
  {
    if k < n {
      ClearRunIsFull(t, h, tag, m, k, n - 1);
      ClearIsFull(t, h, tag, m, n - 1);
    }
  }

  /** What holds below slot k holds in the node, moved up to where the slot starts. */
  lemma FullBelow(t: Tree, h: nat, tag: bool, m: Fanout, k: nat, lo: nat, hi: nat)
    requires t.Node? && Ok(t, h, tag, m) && k < m && hi <= Cap(h - 1, m)
    requires Full(t.slots[k], h - 1, t.tags[k], m, lo, hi)
    ensures Full(t, h, tag, m, Base(k, Cap(h - 1, m)) + lo, Base(k, Cap(h - 1, m)) + hi)
  {
    var b := Base(k, Cap(h - 1, m));
    forall j: nat | b + lo <= j < b + hi
      ensures !TagAt(t, tag, Digits(j, h, m))
    {
      FreeBelow(t, h, tag, m, k, j - b);
    }
  }

  lemma FullOn(t: Tree, h: nat, tag: bool, m: Fanout, lo: nat, mid: nat, hi: nat)
    requires Full(t, h, tag, m, lo, mid) && Full(t, h, tag, m, mid, hi)
    ensures Full(t, h, tag, m, lo, hi)
  {
  }

  /** What a walk promises: the smallest free index from `start` on, unless that is outside this subtree or above `max`. */
  ghost predicate Answers(f: Found, t: Tree, h: nat, tag: bool, m: Fanout, start: nat, max: int) {
    match f
    case At(i) => start <= i < Cap(h, m) && i <= max && TagAt(t, tag, Digits(i, h, m)) && Full(t, h, tag, m, start, i)
    case Beyond => Cap(h, m) <= max && Full(t, h, tag, m, start, Cap(h, m))
    case NoRoom => exists s: nat :: start <= s <= Cap(h, m) && s > max && Full(t, h, tag, m, start, s)
  }

  /** What the walk below slot k says about its node: everything moves up to where the slot starts. */
  lemma FullUpTo(t: Tree, h: nat, tag: bool, m: Fanout, start: nat, k: nat, r: nat, s: nat)
    requires t.Node? && Ok(t, h, tag, m) && k < m && r <= s <= Cap(h - 1, m)
    requires Full(t, h, tag, m, start, Base(k, Cap(h - 1, m)) + r) && Full(t.slots[k], h - 1, t.tags[k], m, r, s)
    ensures Full(t, h, tag, m, start, Base(k, Cap(h - 1, m)) + s)
  {
    FullBelow(t, h, tag, m, k, r, s);
    FullOn(t, h, tag, m, start, Base(k, Cap(h - 1, m)) + r, Base(k, Cap(h - 1, m)) + s);
  }

  lemma AnswersBelow(f: Found, t: Tree, h: nat, tag: bool, m: Fanout, start: nat, max: int, k: nat, r: nat, b: nat)
    requires t.Node? && Ok(t, h, tag, m) && k < m && r < Cap(h - 1, m) && b == Base(k, Cap(h - 1, m))
    requires start <= b + r <= max && Full(t, h, tag, m, start, b + r)
    requires Answers(f, t.slots[k], h - 1, t.tags[k], m, r, max - b)
    ensures f.At? ==> Answers(At(b + f.index), t, h, tag, m, start, max)
    ensures f.NoRoom? ==> Answers(NoRoom, t, h, tag, m, start, max)
    ensures f.Beyond? ==> Base(k + 1, Cap(h - 1, m)) <= max && Full(t, h, tag, m, start, Base(k + 1, Cap(h - 1, m)))
  {
    match f {
      case At(i) =>
        FreeBelow(t, h, tag, m, k, i);
        FullUpTo(t, h, tag, m, start, k, r, i);
      case Beyond =>
        FullUpTo(t, h, tag, m, start, k, r, Cap(h - 1, m));
      case NoRoom =>
        var s: nat :| r <= s <= Cap(h - 1, m) && s > max - b && Full(t.slots[k], h - 1, t.tags[k], m, r, s);
        FullUpTo(t, h, tag, m, start, k, r, s);
        BaseOrder(k, m, Cap(h - 1, m));
        assert start <= b + s <= Cap(h, m) && b + s > max;
    }
  }

  /** idr_get_free() below one node. A slot whose tag is clear is left for the next tagged one; when the subtree below a
      tagged slot has nothing free from `start` on, the walk climbs back and takes the next slot, whatever its tag. `max`
      counts from the start of this subtree. */
  method Walk(t: Tree, h: nat, tag: bool, m: Fanout, start: nat, max: int) returns (f: Found)
    requires t.Node? && Ok(t, h, tag, m) && start < Cap(h, m) && start <= max
    ensures Answers(f, t, h, tag, m, start, max)
    decreases h
  {
    var c := Cap(h - 1, m);
    SplitIs(start, c);
    SlotBelow(start, m, c);
    var k, s := Slot(start, c), start;
    if !t.tags[k] {
      k := NextSet(t.tags, k + 1);
      s := Base(k, c);
      SkippedIsFull(t, h, tag, m, start, k);
      if s > max {
        return NoRoom;
      }
    }
    f := Siblings(t, h, tag, m, start, max, k, s);
  }

  /** Nothing is free from `start` to the next tagged slot. */
  lemma SkippedIsFull(t: Tree, h: nat, tag: bool, m: Fanout, start: nat, k: nat)
    requires t.Node? && Ok(t, h, tag, m) && start < Cap(h, m) && Slot(start, Cap(h - 1, m)) < k <= m
    requires forall j :: Slot(start, Cap(h - 1, m)) <= j < k ==> !t.tags[j]
    ensures start <= Base(k, Cap(h - 1, m)) <= Cap(h, m) && Full(t, h, tag, m, start, Base(k, Cap(h - 1, m)))
  {
    var c := Cap(h - 1, m);
    SplitIs(start, c);
    ClearRunIsFull(t, h, tag, m, Slot(start, c), k);
    BaseUpTo(k, m, c);
    BaseOrder(Slot(start, c), k, c);
  }

  lemma BaseUpTo(k: nat, m: nat, c: nat)
    requires k <= m
    ensures Base(k, c) <= Base(m, c)
  {
    if k < m {
      BaseOrder(k, m, c);
    }
  }

  /** The slots of one node from slot k on, index s first. */
  method Siblings(t: Tree, h: nat, tag: bool, m: Fanout, start: nat, max: int, k0: nat, s0: nat) returns (f: Found)
    requires t.Node? && Ok(t, h, tag, m) && start <= s0 <= max && Full(t, h, tag, m, start, s0)
    requires k0 <= m && Base(k0, Cap(h - 1, m)) <= s0 < Base(k0 + 1, Cap(h - 1, m)) && (k0 < m ==> t.tags[k0])
    requires k0 == m ==> s0 == Base(m, Cap(h - 1, m))
    ensures Answers(f, t, h, tag, m, start, max)
    decreases h, 0
  {
    var c := Cap(h - 1, m);
    var k, s := k0, s0;
    while k < m
      invariant k <= m && Base(k, c) <= s < Base(k + 1, c) && start <= s <= max
      invariant Full(t, h, tag, m, start, s)
      invariant k == m ==> s == Base(m, c)
      invariant h == 1 && k < m ==> t.tags[k]
    {
      var b := Base(k, c);
      var below: Found;
      if h == 1 || t.slots[k] == Null {
        assert TagAt(t.slots[k], t.tags[k], Digits(s - b, h - 1, m));
        below := At(s - b);
      } else {
        below := Walk(t.slots[k], h - 1, t.tags[k], m, s - b, max - b);
      }
      AnswersBelow(below, t, h, tag, m, start, max, k, s - b, b);
      if below.At? {
        return At(b + below.index);
      } else if below.NoRoom? {
        return NoRoom;
      }
      k := k + 1;
      s := Base(k, c);
    }
    f := Beyond;
  }

  datatype Outcome = Id(id: nat) | NoSpace | Invalid

  /** `max - base` in 64 bits. */
  function Minus(max: nat, base: nat): nat
    requires max < U64 && base < U32
  {
    if max >= base then max - base else max + U64 - base
  }

  ghost predicate Within(i: nat, base: nat, max: nat) {
    i + base <= max
  }

  /** The limit handed to the tree means the caller's limit if and only if the limit is not below the base. */
  lemma LimitMeansMax(max: nat, base: nat)
    requires max < U64 && base < U32
    ensures (forall i: nat :: Within(i, base, max) <==> i <= Minus(max, base)) <==> base <= max
  {
    if max < base {
      assert !Within(0, base, max);
    }
  }

  /** Is the id in use? */
  ghost predicate Has(r: Root, m: Fanout, base: nat, id: nat) {
    id >= base && Used(r, m, id - base)
  }

  ghost function Ptr(r: Root, m: Fanout, base: nat, id: nat): nat {
    if id >= base then Lookup(r, m, id - base) else 0
  }

  /** All the ids from lo to hi that the IDR may give out are in use. */
  ghost predicate RangeFull(r: Root, m: Fanout, base: nat, lo: nat, hi: int) {
    forall id: nat :: lo <= id <= hi && base <= id ==> Has(r, m, base, id)
  }

  /** From r to n, the id was bound to ptr and nothing else changed. */
  ghost predicate Bound(r: Root, n: Root, m: Fanout, base: nat, id: nat, ptr: nat) {
    forall j: nat ::
      (Has(n, m, base, j) <==> j == id || Has(r, m, base, j))
          && Ptr(n, m, base, j) == if j == id then ptr else Ptr(r, m, base, j)
  }

  /** From r to n, the smallest free id of the range was given out for ptr, and nothing else changed. */
  ghost predicate Gave(r: Root, n: Root, m: Fanout, base: nat, id: nat, ptr: nat, lo: nat, hi: int) {
    && lo <= id <= hi && base <= id && !Has(r, m, base, id)
    && RangeFull(r, m, base, lo, id - 1)
    && Bound(r, n, m, base, id, ptr)
  }

  /** Indices are ids less the base. */
  lemma IndicesAreIds(r: Root, m: Fanout, base: nat, lo: nat, hi: int, from: nat, to: int)
    requires from == (if lo < base then 0 else lo - base) && to == hi - base
    ensures RangeFull(r, m, base, lo, hi) <==> TakenFrom(r, m, from, to)
  {
    if RangeFull(r, m, base, lo, hi) {
      forall j: nat | from <= j <= to
        ensures Used(r, m, j)
      {
        assert Has(r, m, base, j + base);
      }
    }
  }

  ghost predicate TakenFrom(r: Root, m: Fanout, from: nat, to: int) {
    forall j: nat :: from <= j <= to ==> Used(r, m, j)
  }

  lemma StoreBinds(r: Root, m: Fanout, base: nat, i: nat, ptr: nat)
    requires IdrTree.Valid(r, m) && !Used(r, m, i)
    ensures IdrTree.Valid(Store(r, m, i, ptr), m) && Bound(r, Store(r, m, i, ptr), m, base, i + base, ptr)
  {
    StoreKeeps(r, m, i, ptr);
  }

  /** A clear root tag says that every index the tree covers is in use. */
  lemma AllTaken(r: Root, m: Fanout)
    requires IdrTree.Valid(r, m) && !r.tag
    ensures TakenFrom(r, m, 0, Cap(r.height, m) - 1)
  {
    forall j: nat | j < Cap(r.height, m)
      ensures Used(r, m, j)
    {
      ClearIsTaken(r.head, r.height, m, j);
    }
  }

  lemma AnswerMeans(f: Found, r: Root, m: Fanout, from: nat, start: nat, max: nat)
    requires from <= start < Cap(r.height, m) && TakenFrom(r, m, from, start - 1)
    requires Answers(f, r.head, r.height, r.tag, m, start, max)
    ensures f.At? ==> from <= f.index <= max && !Used(r, m, f.index) && TakenFrom(r, m, from, f.index - 1)
    ensures f.NoRoom? ==> TakenFrom(r, m, from, max)
    ensures f.Beyond? ==> TakenFrom(r, m, from, Cap(r.height, m) - 1)
  {
    var end := match f
      case At(i) => i
      case Beyond => Cap(r.height, m)
      case NoRoom => (var s: nat :| start <= s <= Cap(r.height, m) && s > max
          && Full(r.head, r.height, r.tag, m, start, s); s);
    forall j: nat | from <= j < end
      ensures Used(r, m, j)
    {
    }
  }

  lemma UnusedIsNull(r: Root, m: Fanout, i: nat)
    requires IdrTree.Valid(r, m) && !Used(r, m, i)
    ensures Lookup(r, m, i) == 0
  {
    if i < Cap(r.height, m) {
      DigitsFit(i, r.height, m);
      FreeIsNull(r.head, r.height, r.tag, m, Digits(i, r.height, m));
    }
  }

  /** From r to n, the id was freed and nothing else changed. */
  ghost predicate Unbound(r: Root, n: Root, m: Fanout, base: nat, id: nat) {
    forall j: nat ::
      (Has(n, m, base, j) <==> j != id && Has(r, m, base, j))
          && Ptr(n, m, base, j) == if j == id then 0 else Ptr(r, m, base, j)
  }

  lemma EraseUnbinds(r: Root, m: Fanout, base: nat, i: nat)
    requires IdrTree.Valid(r, m) && Used(r, m, i)
    ensures IdrTree.Valid(Erase(r, m, i), m) && Unbound(r, Erase(r, m, i), m, base, i + base)
  {
    EraseKeeps(r, m, i);
  }

  /** The last id that idr_alloc(…, end) may give out. */
  function Last(end: int): nat {
    if end > 0 then end - 1 else INT_MAX
  }

  predicate IsInt(x: int) {
    -0x8000_0000 <= x <= INT_MAX
  }

  /** An int stored in 32 bits without sign. */
  function Unsigned(x: int): nat
    requires IsInt(x)
  {
    if x < 0 then x + U32 else x
  }

  /** Where idr_alloc_cyclic() starts: the cursor, compared as an int. */
  function Cursor(next: nat, start: int): nat
    requires IsInt(start)
  {
    if (if next > INT_MAX then next - U32 else next) < start then Unsigned(start) else next
  }

  /** What an allocation from the range lo to hi promises: the smallest free id, or no space exactly if there is none. */
  ghost predicate Fulfils(o: Outcome, r: Root, n: Root, m: Fanout, base: nat, ptr: nat, lo: nat, hi: int) {
    && (o == NoSpace <==> RangeFull(r, m, base, lo, hi))
    && (o == NoSpace ==> n == r)
    && (o.Id? ==> Gave(r, n, m, base, o.id, ptr, lo, hi))
  }

  lemma FulfilsRange(o: Outcome, i: nat, r: Root, n: Root, m: Fanout, base: nat, ptr: nat, lo: nat, hi: nat)
    requires base <= hi < U32 && !o.Invalid?
    requires o == NoSpace ==> n == r && TakenFrom(r, m, if lo < base then 0 else lo - base, hi - base)
    requires o.Id? ==> (if lo < base then 0 else lo - base) <= i <= hi - base && o.id == i + base
    requires o.Id? ==> !Used(r, m, i) && TakenFrom(r, m, if lo < base then 0 else lo - base, i - 1)
    requires o.Id? ==> Bound(r, n, m, base, i + base, ptr)
    ensures Fulfils(o, r, n, m, base, ptr, lo, hi)
  {
    var from := if lo < base then 0 else lo - base;
    IndicesAreIds(r, m, base, lo, hi, from, hi - base);
    if o.Id? {
      IndicesAreIds(r, m, base, lo, (o.id as int) - 1, from, (i as int) - 1);
      assert Has(r, m, base, o.id) == Used(r, m, i);
    }
  }

  class Idr {
    const m: Fanout
    const base: nat
    var next: nat
    var root: Root

    ghost predicate Valid()
      reads this
    {
      IdrTree.Valid(root, m) && base < U32 && next < U32
    }

    constructor (m: Fanout, base: nat)
      requires base < U32
      ensures Valid() && this.m == m && this.base == base && next == 0
      ensures forall id: nat :: !Has(root, m, base, id)
    {
      this.m, this.base, next, root := m, base, 0, Root(Null, 0, true);
    }

    /** idr_get_free(): the smallest free index from `from` to `max`, if there is one. */
    method GetFree(from: nat, max: nat) returns (f: Found)
      requires Valid()
      ensures !f.Beyond?
      ensures f.At? ==> from <= f.index <= max && !Used(root, m, f.index) && TakenFrom(root, m, from, f.index - 1)
      ensures f.NoRoom? ==> TakenFrom(root, m, from, max)
    {
      var start := from;
      var cap := Cap(root.height, m);
      while true
        invariant from <= start && TakenFrom(root, m, from, start - 1)
        decreases start < cap
      {
        if !root.tag && start < cap {
          AllTaken(root, m);
          start := cap;
        }
        if start > max {
          return NoRoom;
        }
        if start >= cap || root.head == Null {
          return At(start);
        }
        f := Walk(root.head, root.height, root.tag, m, start, max);
        AnswerMeans(f, root, m, from, start, max);
        if !f.Beyond? {
          return;
        }
        start := cap;
      }
    }

    /** idr_alloc_u32(). The limit less the base is taken in 64 bits and the id is cut to 32; both mean what they say when
        base <= max < 2^32. The id reported is the one that was bound exactly if that one is below 2^32. */
    method AllocU32(ptr: nat, nextid: nat, max: nat) returns (r: Outcome, ghost i: nat)
      requires Valid() && nextid < U32 && max < U64
      modifies this`root
      ensures Valid() && !r.Invalid?
      ensures r == NoSpace ==> root == old(root)
      ensures r == NoSpace ==> TakenFrom(root, m, if nextid < base then 0 else nextid - base, Minus(max, base))
      ensures r.Id? ==> (if nextid < base then 0 else nextid - base) <= i <= Minus(max, base) && r.id == (i + base) % U32
      ensures r.Id? ==> (r.id == i + base <==> i + base < U32)
      ensures r.Id? ==> !Used(old(root), m, i) && TakenFrom(old(root), m, if nextid < base then 0 else nextid - base, i - 1)
                        && Bound(old(root), root, m, base, i + base, ptr)
      ensures base <= max < U32 ==> Fulfils(r, old(root), root, m, base, ptr, nextid, max)
    {
      var from := if nextid < base then 0 else nextid - base;
      var f := GetFree(from, Minus(max, base));
      if f.NoRoom? {
        r, i := NoSpace, 0;
      } else {
        i := f.index;
        StoreBinds(root, m, base, f.index, ptr);
        root := Store(root, m, f.index, ptr);
        r := Id((f.index + base) % U32);
      }
      if base <= max < U32 {
        FulfilsRange(r, i, old(root), root, m, base, ptr, nextid, max);
      }
    }

    /** idr_alloc(). */
    method Alloc(ptr: nat, start: int, end: int) returns (r: Outcome)
      requires Valid() && IsInt(start) && IsInt(end)
      modifies this`root
      ensures Valid()
      ensures r == Invalid <==> start < 0
      ensures 0 <= start && base <= Last(end) ==> Fulfils(r, old(root), root, m, base, ptr, start, Last(end))
      ensures !r.Id? ==> root == old(root)
    {
      if start < 0 {
        return Invalid;
      }
      ghost var i;
      r, i := AllocU32(ptr, start, Last(end));
    }

    /** idr_alloc_cyclic(): the smallest free id from the cursor on, or else from `start` on. */
    method AllocCyclic(ptr: nat, start: int, end: int) returns (r: Outcome)
      requires Valid() && IsInt(start) && IsInt(end)
      modifies this`root, this`next
      ensures Valid() && !r.Invalid?
      ensures r == NoSpace ==> root == old(root) && next == old(next)
      ensures r.Id? ==> next == (r.id + 1) % U32
      ensures 0 <= start && base <= Last(end) ==>
                var cursor := Cursor(old(next), start);
                && (r == NoSpace <==> RangeFull(old(root), m, base, start, Last(end)))
                && (r.Id? && !RangeFull(old(root), m, base, cursor, Last(end)) ==>
                      Gave(old(root), root, m, base, r.id, ptr, cursor, Last(end)))
                && (r.Id? && RangeFull(old(root), m, base, cursor, Last(end)) ==>
                      Gave(old(root), root, m, base, r.id, ptr, start, Last(end)))
    {
      var id := Cursor(next, start);
      ghost var i;
      r, i := AllocU32(ptr, id, Last(end));
      if r == NoSpace && id > Unsigned(start) {
        r, i := AllocU32(ptr, Unsigned(start), Last(end));
      }
      if r == NoSpace {
        return;
      }
      next := (r.id + 1) % U32;
    }

    /** May an id be looked up? One below the base wraps to an index near 2^64, which no tree of this size covers. */
    ghost predicate Reaches(id: nat)
      reads this
    {
      id >= base || Cap(root.height, m) <= U64 - U32
    }

    /** idr_find(). */
    method Find(id: nat) returns (ptr: nat)
      requires Valid() && id < U64
      ensures ptr == Lookup(root, m, Minus(id, base))
      ensures Reaches(id) ==> ptr == Ptr(root, m, base, id)
      ensures Reaches(id) && !Has(root, m, base, id) ==> ptr == 0
    {
      ptr := Lookup(root, m, Minus(id, base));
      if id >= base && !Has(root, m, base, id) {
        UnusedIsNull(root, m, id - base);
      }
    }

    /** idr_remove(): returns the pointer and frees the id; an id not in use changes nothing. */
    method Remove(id: nat) returns (ptr: nat)
      requires Valid() && id < U64
      modifies this`root
      ensures Valid() && ptr == Lookup(old(root), m, Minus(id, base))
      ensures Unbound(old(root), root, m, 0, Minus(id, base))
      ensures old(Reaches(id)) ==> ptr == Ptr(old(root), m, base, id) && Unbound(old(root), root, m, base, id)
      ensures !Used(old(root), m, Minus(id, base)) ==> root == old(root) && ptr == 0
    {
      ptr := Lookup(root, m, Minus(id, base));
      var i := Minus(id, base);
      if i >= Cap(root.height, m) || TagAt(root.head, root.tag, Digits(i, root.height, m)) {
        UnusedIsNull(root, m, i);
      } else {
        EraseUnbinds(root, m, base, i);
        EraseUnbinds(root, m, 0, i);
        root := Erase(root, m, i);
      }
    }
  }
}
