/** The page allocator's zone: free lists by order, their counters, the PageBuddy marks with the order kept in the page,
    and the operations that split and merge blocks. */
module BuddyZone {
  import opened Shifts
  import opened BuddyBlocks

  function Remove<T(==)>(s: seq<T>, x: T): seq<T> {
    if s == [] then [] else if s[0] == x then s[1..] else [s[0]] + Remove(s[1..], x)
  }

  predicate NoDup<T(==)>(s: seq<T>) {
    forall i, j :: 0 <= i < j < |s| ==> s[i] != s[j]
  }

  lemma {:induction false} RemoveFacts<T>(s: seq<T>, x: T)
    requires NoDup(s) && x in s
    ensures NoDup(Remove(s, x)) && |Remove(s, x)| == |s| - 1
    ensures forall y :: y in Remove(s, x) <==> y in s && y != x
  {
    if s[0] != x {
      RemoveFacts(s[1..], x);
      assert forall y :: y in s <==> y == s[0] || y in s[1..];
      var r := Remove(s[1..], x);
      assert forall y :: y in [s[0]] + r <==> y == s[0] || y in r;
      assert s[0] !in s[1..];
    } else {
      assert forall y :: y in s <==> y == s[0] || y in s[1..];
    }
  }

  /** What the zone keeps: the lists hold the heads of the free blocks, each once; nr_free counts them; a page of this zone
      is marked PageBuddy, with its order, exactly if it heads a free block. `flags` maps the marked pages to their order;
      pages of other zones may be marked too. */
  ghost predicate Books(maxOrder: nat, zone: nat -> bool, lists: seq<seq<nat>>, nrFree: seq<int>,
      flags: map<nat, nat>, free: set<Block>) {
    && |lists| == |nrFree| == maxOrder
    && (forall o :: 0 <= o < maxOrder ==> NoDup(lists[o]) && nrFree[o] == |lists[o]|)
    && (forall b :: b in free ==> b.order < maxOrder && Head(b) in lists[b.order])
    && (forall o, p :: 0 <= o < maxOrder && p in lists[o] ==>
          Block(Shift(p, o), o) in free && Head(Block(Shift(p, o), o)) == p && zone(p) && p in flags && flags[p] == o)
    && (forall p :: p in flags && zone(p) ==> flags[p] < maxOrder && p in lists[flags[p]])
  }

  lemma BooksMark(maxOrder: nat, zone: nat -> bool, lists: seq<seq<nat>>, nrFree: seq<int>, flags: map<nat, nat>,
      free: set<Block>, b: Block)
    requires Books(maxOrder, zone, lists, nrFree, flags, free) && zone(Head(b))
    ensures b in free <==> Head(b) in flags && flags[Head(b)] == b.order
  {
    HeadInside(b);
  }

  /** list_del(), nr_free--, rmv_page_order() for the head of a free block. */
  lemma BooksRemove(maxOrder: nat, zone: nat -> bool, lists: seq<seq<nat>>, nrFree: seq<int>, flags: map<nat, nat>,
      free: set<Block>, b: Block)
    requires Books(maxOrder, zone, lists, nrFree, flags, free) && b in free
    ensures var o, p := b.order, Head(b);
            Books(maxOrder, zone, lists[o := Remove(lists[o], p)], nrFree[o := nrFree[o] - 1], flags - {p}, free - {b})
  {
    var o, p := b.order, Head(b);
    RemoveFacts(lists[o], p);
    HeadInside(b);
    forall x | x in free - {b}
      ensures Head(x) in lists[o := Remove(lists[o], p)][x.order]
    {
      HeadInside(x);
    }
  }

  /** set_page_order(), list_add() or list_add_tail(), nr_free++ for a block whose head is not marked. */
  lemma BooksAdd(maxOrder: nat, zone: nat -> bool, lists: seq<seq<nat>>, nrFree: seq<int>, flags: map<nat, nat>,
      free: set<Block>, b: Block, tail: bool)
    requires Books(maxOrder, zone, lists, nrFree, flags, free) && b.order < maxOrder && zone(Head(b)) && Head(b) !in flags
    ensures var o, p := b.order, Head(b);
            Books(maxOrder, zone, lists[o := if tail then lists[o] + [p] else [p] + lists[o]],
                nrFree[o := nrFree[o] + 1], flags[p := o], free + {b})
  {
    var o, p := b.order, Head(b);
    HeadInside(b);
    assert p !in lists[o];
  }

  /** An unfree block's head carries no mark in this zone. */
  lemma UnfreeUnmarked(maxOrder: nat, zone: nat -> bool, lists: seq<seq<nat>>, nrFree: seq<int>,
      flags: map<nat, nat>, free: set<Block>, b: Block)
    requires Books(maxOrder, zone, lists, nrFree, flags, free) && Unfree(free, b) && zone(Head(b))
    ensures Head(b) !in flags
  {
    HeadInside(b);
    var p := Head(b);
    if p in flags {
      var x := Block(Shift(p, flags[p]), flags[p]);
      HeadInside(x);
      assert Covers(free, p);
    }
  }

  lemma MergedInZone(free: set<Block>, b: Block, zone: nat -> bool)
    requires Buddy(b) in free && (forall p :: Covers(free, p) ==> zone(p)) && (forall p :: Contains(b, p) ==> zone(p))
    ensures forall p :: Contains(Parent(b), p) ==> zone(p)
  {
    forall p | Contains(Parent(b), p)
      ensures zone(p)
    {
      ParentIsPair(b, p);
      assert Contains(Buddy(b), p) ==> Covers(free, p);
    }
  }

  lemma HalvesFacts(free: set<Block>, b: Block, zone: nat -> bool)
    requires b.order > 0 && Unfree(free, b) && (forall p :: Contains(b, p) ==> zone(p))
    ensures Unfree(free, Upper(b)) && Lower(b) !in free && Buddy(Upper(b)) == Lower(b)
    ensures forall p :: Contains(Upper(b), p) || Contains(Lower(b), p) ==> zone(p)
  {
    forall p
      ensures Contains(Upper(b), p) || Contains(Lower(b), p) ==> Contains(b, p)
    {
      Halves(b, p);
    }
    UnfreeNotIn(free, Lower(b));
  }

  datatype MaybePage = NoPage | Page(pfn: nat)

  class Zone {
    const maxOrder: nat
    const pageblockOrder: nat
    /** The page frames that exist, and those that belong to this zone. */
    const valid: nat -> bool
    const zone: nat -> bool

    var freeList: seq<seq<nat>>
    var nrFree: seq<int>
    var flags: map<nat, nat>
    ghost var free: set<Block>

    ghost predicate Valid()
      reads this
    {
      && maxOrder > 0
      && (forall p :: zone(p) ==> valid(p))
      && Books(maxOrder, zone, freeList, nrFree, flags, free)
      && Canonical(free, maxOrder)
      && (forall p :: Covers(free, p) ==> zone(p))
    }

    constructor (maxOrder: nat, pageblockOrder: nat, valid: nat -> bool, zone: nat -> bool)
      requires maxOrder > 0 && forall p :: zone(p) ==> valid(p)
      ensures Valid() && free == {} && this.zone == zone && this.maxOrder == maxOrder
    {
      this.maxOrder, this.pageblockOrder, this.valid, this.zone := maxOrder, pageblockOrder, valid, zone;
      freeList, nrFree := seq(maxOrder, _ => []), seq(maxOrder, _ => 0);
      flags, free := map[], {};
    }

    /** page_is_buddy: marked, of this order, and of the same zone as the page being freed. */
    predicate PageIsBuddy(buddy: nat, order: nat)
      reads this
    {
      buddy in flags && flags[buddy] == order && zone(buddy)
    }

    method RemoveFree(pfn: nat, ghost b: Block)
      requires Valid() && b in free && pfn == Head(b)
      modifies this
      ensures Valid() && free == old(free) - {b} && flags == old(flags) - {pfn}
    {
      var order := flags[pfn];
      BooksMark(maxOrder, zone, freeList, nrFree, flags, free, b);
      BooksRemove(maxOrder, zone, freeList, nrFree, flags, free, b);
      RemoveBlock(free, maxOrder, b);
      freeList := freeList[order := Remove(freeList[order], pfn)];
      nrFree := nrFree[order := nrFree[order] - 1];
      flags := flags - {pfn};
      free := free - {b};
    }

    method AddFree(pfn: nat, order: nat, tail: bool, ghost b: Block)
      requires Valid() && pfn == Head(b) && order == b.order < maxOrder
      requires Unfree(free, b) && (order + 1 < maxOrder ==> Buddy(b) !in free)
      requires forall p :: Contains(b, p) ==> zone(p)
      modifies this
      ensures Valid() && free == old(free) + {b}
    {
      HeadInside(b);
      UnfreeUnmarked(maxOrder, zone, freeList, nrFree, flags, free, b);
      BooksAdd(maxOrder, zone, freeList, nrFree, flags, free, b, tail);
      AddBlock(free, maxOrder, b);
      flags := flags[pfn := order];
      freeList := freeList[order := if tail then freeList[order] + [pfn] else [pfn] + freeList[order]];
      nrFree := nrFree[order := nrFree[order] + 1];
      free := free + {b};
    }

    /** The body of the merge loop: take the buddy off its list if it is free and of the same order. */
    method TryMerge(pfn: nat, order: nat, ghost b: Block) returns (buddyPfn: nat, merged: bool)
      requires Valid() && pfn == Head(b) && order == b.order && order + 1 < maxOrder && Unfree(free, b)
      modifies this
      ensures Valid() && buddyPfn == Head(Buddy(b)) && And(buddyPfn, pfn) == Head(Parent(b))
      ensures merged <==> Buddy(b) in old(free)
      ensures !merged ==> free == old(free)
      ensures merged ==> free == old(free) - {Buddy(b)} && zone(buddyPfn)
    {
      buddyPfn := FindBuddyPfn(pfn, order);
      BuddyBits(b);
      if zone(buddyPfn) { BooksMark(maxOrder, zone, freeList, nrFree, flags, free, Buddy(b)); }
      merged := valid(buddyPfn) && PageIsBuddy(buddyPfn, order);
      if merged {
        RemoveFree(buddyPfn, Buddy(b));
      }
    }

    /** __free_one_page: merge with free buddies as far as possible. The pages become free, and since the family stays
        coalesced it is the one family that covers these pages. */
    method FreeOnePage(pfn0: nat, order0: nat)
      requires Valid() && order0 < maxOrder
      requires forall p :: Shift(p, order0) == Shift(pfn0, order0) ==> zone(p)
      requires pfn0 == Up(Shift(pfn0, order0), order0)                  // BUG_ON(pfn & ((1 << order) - 1))
      requires Unfree(free, Block(Shift(pfn0, order0), order0))         // the caller owns the block
      modifies this
      ensures Valid()
      ensures forall p :: Covers(free, p) <==> CoversPlus(old(free), Block(Shift(pfn0, order0), order0), p)
    {
      var pfn, order, buddyPfn := pfn0, order0, 0;
      var limit := if pageblockOrder + 1 < maxOrder then pageblockOrder + 1 else maxOrder;
      var done := false;
      ghost var b0 := Block(Shift(pfn0, order0), order0);
      ghost var b := b0;
      while !done
        invariant Valid() && pfn == Head(b) && order == b.order < maxOrder && limit <= maxOrder
        invariant forall p :: Contains(b, p) ==> zone(p)
        invariant Unfree(free, b)
        invariant forall p :: CoversPlus(free, b, p) <==> CoversPlus(old(free), b0, p)
        invariant done ==> order + 1 < maxOrder ==> Buddy(b) !in free
        decreases maxOrder - limit, !done, maxOrder - order
      {
        if order + 1 < limit {
          var merged;
          label before:
          buddyPfn, merged := TryMerge(pfn, order, b);
          if merged {
            MergeStep(old@before(free), maxOrder, b);
            MergedInZone(old@before(free), b, zone);
            pfn, order, b := And(buddyPfn, pfn), order + 1, Parent(b);
          } else {
            done := true;
          }
        } else if limit < maxOrder {
          limit := limit + 1;
        } else {
          done := true;
        }
      }
      var tail := false;
      if order + 2 < maxOrder && valid(buddyPfn) {
        var higherBuddy := FindBuddyPfn(And(buddyPfn, pfn), order + 1);
        tail := valid(higherBuddy) && PageIsBuddy(higherBuddy, order + 1);
      }
      AddBlock(free, maxOrder, b);
      AddFree(pfn, order, tail, b);
    }
  
    /** expand: give back the upper halves until the block has the wanted order. */
    method Expand(pfn: nat, low: nat, high0: nat, ghost b0: Block)
      requires Valid() && pfn == Head(b0) && low <= high0 == b0.order < maxOrder && Unfree(free, b0)
      requires forall p :: Contains(b0, p) ==> zone(p)
      modifies this
      ensures Valid() && Unfree(free, Block(Shift(pfn, low), low)) && Head(Block(Shift(pfn, low), low)) == pfn
      ensures forall p :: CoversPlus(free, Block(Shift(pfn, low), low), p) <==> CoversPlus(old(free), b0, p)
    {
      var high, size := high0, Up(1, high0);
      ghost var b := b0;
      while high > low
        invariant Valid() && pfn == Head(b) && low <= high == b.order < maxOrder && size == Up(1, high) && Unfree(free, b)
        invariant forall p :: Contains(b, p) ==> zone(p)
        invariant forall p :: CoversPlus(free, b, p) <==> CoversPlus(old(free), b0, p)
      {
        high, size := high - 1, size / 2;
        SplitStep(free, maxOrder, b);
        HalfHeads(b);
        HalvesFacts(free, b, zone);
        AddFree(pfn + size, high, false, Upper(b));
        b := Lower(b);
      }
      HeadInside(b);
    }

    /** __rmqueue_smallest: fails exactly if no aligned block of this order has all its pages free; otherwise it takes such
        a block out of the free pages, cut from a free block of the smallest order that suffices. */
    method RmqueueSmallest(order: nat) returns (r: MaybePage)
      requires Valid()
      modifies this
      ensures Valid()
      ensures r.NoPage? ==> free == old(free)
      ensures order < maxOrder ==> (r.NoPage? <==> forall b: Block :: b.order == order ==> !CoversAll(old(free), b))
      ensures r.Page? ==> var b := Block(Shift(r.pfn, order), order);
                r.pfn == Head(b) && CoversAll(old(free), b) && Unfree(free, b) &&
                (forall p :: Covers(old(free), p) <==> CoversPlus(free, b, p)) &&
                exists f :: f in old(free) && Contains(f, r.pfn)
                            && forall x :: x in old(free) && x.order >= order ==> x.order >= f.order
    {
      var current := order;
      while current < maxOrder
        invariant order <= current && free == old(free) && Valid()
        invariant forall x :: x in free && x.order >= order ==> x.order >= current
      {
        if freeList[current] != [] {
          var pfn := freeList[current][0];
          ghost var f := Block(Shift(pfn, current), current);
          assert pfn in freeList[current];
          HeadInside(f);
          RemoveBlock(free, maxOrder, f);
          assert forall p :: Contains(f, p) ==> Covers(free, p);
          RemoveFree(pfn, f);
          Expand(pfn, order, current, f);
          ghost var b := Block(Shift(pfn, order), order);
          forall p | Contains(b, p) ensures Covers(old(free), p) {
            HeadInside(b);
            Nested(b, f, pfn, p);
          }
          return Page(pfn);
        }
        assert forall x :: x in free ==> x.order != current;
        current := current + 1;
      }
      if order < maxOrder {
        forall b: Block | b.order == order
          ensures !CoversAll(free, b)
        {
          if CoversAll(free, b) {
            var f := FreeBlockIsWhole(free, maxOrder, b);
            assert false;
          }
        }
      }
      return NoPage;
    }
  
    /** Taking a block and giving it back leaves the same free blocks at every order. */
    method TakeAndGiveBack(order: nat) returns (r: MaybePage)
      requires Valid() && order < maxOrder
      modifies this
      ensures Valid() && free == old(free)
    {
      r := RmqueueSmallest(order);
      if r.Page? {
        ghost var b := Block(Shift(r.pfn, order), order);
        forall p | Contains(b, p) ensures zone(p) { assert Covers(old(free), p); }
        FreeOnePage(r.pfn, order);
        CanonicalIsUnique(free, old(free), maxOrder);
      }
    }

    /** __free_one_page on a list of single pages. */
    method FreeAll(pages: seq<nat>)
      requires Valid() && NoDup(pages) && forall p :: p in pages ==> zone(p) && !Covers(free, p)
      modifies this
      ensures Valid() && forall p :: Covers(free, p) <==> Covers(old(free), p) || p in pages
    {
      for i := 0 to |pages|
        invariant Valid() && forall p :: Covers(free, p) <==> Covers(old(free), p) || p in pages[..i]
      {
        assert pages[i] !in pages[..i] && pages[i] in pages;
        FreeOnePage(pages[i], 0);
        assert pages[..i + 1] == pages[..i] + [pages[i]];
      }
      assert pages[..|pages|] == pages;
    }

    /** Marked heads of other zones belong to blocks that keep out of this zone. */
    ghost predicate ZonesApart()
      reads this
    {
      forall h, p :: h in flags && !zone(h) && zone(p) ==> Shift(p, flags[h]) != Shift(h, flags[h])
    }

    /** is_free_buddy_page: true exactly for the pages of free blocks, not only for their heads. */
    method IsFreeBuddyPage(pfn: nat) returns (r: bool)
      requires Valid() && ZonesApart() && zone(pfn)
      ensures r <==> Covers(free, pfn)
    {
      var order := 0;
      while order < maxOrder
        invariant order <= maxOrder
        invariant forall b :: b in free && Contains(b, pfn) ==> b.order >= order
      {
        var head := Up(Shift(pfn, order), order);
        ghost var c := Block(Shift(pfn, order), order);
        HeadInside(c);
        if head in flags && flags[head] >= order {
          ghost var f := Block(Shift(head, flags[head]), flags[head]);
          Nested(c, f, head, pfn);
          assert zone(head);
          assert f in free && Contains(f, pfn);
          return true;
        }
        forall b | b in free && Contains(b, pfn)
          ensures b.order >= order + 1
        {
          assert b.order == order ==> Head(b) == head;
        }
        order := order + 1;
      }
      return false;
    }
  }

  /** The per-cpu list of single pages in front of a zone. */
  class PerCpuPages {
    const zone: Zone
    var lists: seq<nat>
    var count: int
    var high: nat
    var batch: nat

    /** The pages held here are in no free block and are held once; count is their number. */
    ghost predicate Valid()
      reads this, zone
    {
      && zone.Valid() && count == |lists| && NoDup(lists)
      && (forall p :: p in lists ==> zone.zone(p) && !Covers(zone.free, p))
    }

    /** The values pageset_set_batch() can leave, also half-way through pageset_update(). */
    predicate Tuned()
      reads this
    {
      batch >= 1 && (batch <= high || batch == 1)
    }

    constructor (zone: Zone)
      requires zone.Valid()
      ensures Valid() && lists == [] && this.zone == zone && Tuned()
    {
      this.zone, lists, count, high, batch := zone, [], 0, 0, 1;
    }

    /** pageset_set_batch and pageset_update. */
    method SetBatch(b: nat)
      requires Valid()
      modifies this`high, this`batch
      ensures Valid() && Tuned() && high == 6 * b && batch == if b > 1 then b else 1
    {
      batch := 1;
      high := 6 * b;
      batch := if b > 1 then b else 1;
    }

    /** The first loop of free_pcppages_bulk. It must not be asked for more pages than the list holds, or it would wait at
        an empty list for ever. */
    method TakeForBulk(n: nat) returns (head: seq<nat>)
      requires count == |lists| && n <= |lists|
      modifies this`lists, this`count
      ensures TakenFrom(old(lists), lists, head) && |head| == n && count == |lists|
    {
      var left, batchFree := n, 0;
      head := [];
      ghost var all := lists;
      assert all[..|all|] == all;
      while left > 0
        invariant 0 <= left <= n && n - left == |head| && 0 <= batchFree
        invariant TakenFrom(all, lists, head) && count == |lists|
        decreases left
      {
        batchFree := batchFree + 1;
        assert lists != [];    // the wait for a non-empty list ends at once
        var more := true;
        ghost var left0 := left;
        while more
          invariant more ==> 0 < left <= left0 && 0 < batchFree
          invariant !more ==> left < left0
          invariant 0 <= left <= n && n - left == |head| && 0 <= batchFree
          invariant TakenFrom(all, lists, head) && count == |lists|
          decreases left, more
        {
          var page := lists[|lists| - 1];
          TakeLast(all, lists, head);
          lists, count := lists[..|lists| - 1], count - 1;
          head := head + [page];
          left := left - 1;
          more := left > 0;
          if more {
            batchFree := batchFree - 1;
            more := batchFree > 0 && lists != [];
          }
        }
      }
    }

    /** free_pcppages_bulk: the last `n` pages of the list become free, no others. */
    method FreePcppagesBulk(n: nat)
      requires Valid() && n <= |lists|
      modifies this`lists, this`count, zone
      ensures Valid() && |lists| == |old(lists)| - n && lists <= old(lists)
      ensures forall p :: Covers(zone.free, p) <==> Covers(old(zone.free), p) || (p in old(lists) && p !in lists)
    {
      var head := TakeForBulk(n);
      TakenFacts(old(lists), lists, head);
      zone.FreeAll(head);
    }

    /** free_unref_page_commit: with the values the code sets, the bulk free is never asked for too much; the page ends up
        on the list or free, and no page is lost or held twice. The list gives back a batch of its oldest pages exactly if it
        has reached its limit. */
    method FreeUnrefPageCommit(pfn: nat)
      requires Valid() && Tuned() && zone.zone(pfn) && !Covers(zone.free, pfn) && pfn !in lists
      modifies this`lists, this`count, zone
      ensures Valid()
      ensures forall p :: p in lists || Covers(zone.free, p) <==> p == pfn || p in old(lists) || Covers(old(zone.free), p)
      ensures lists <= [pfn] + old(lists)
      ensures |lists| == |old(lists)| + 1 - if |old(lists)| + 1 >= high then batch else 0
    {
      lists := [pfn] + lists;
      count := count + 1;
      if count >= high {
        FreePcppagesBulk(batch);
      }
    }
  
    /** rmqueue_bulk: move up to `n` single pages from the free blocks to the end of the list. */
    method RmqueueBulk(n: nat)
      requires Valid()
      modifies this`lists, this`count, zone
      ensures Valid() && old(lists) <= lists
      ensures forall p :: p in lists || Covers(zone.free, p) <==> p in old(lists) || Covers(old(zone.free), p)
      ensures n > 0 && lists == old(lists) ==> forall p :: !Covers(zone.free, p)
      ensures |lists| <= |old(lists)| + n && (|lists| < |old(lists)| + n ==> forall p :: !Covers(zone.free, p))
    {
      var i := 0;
      while i < n
        invariant i <= n && Valid() && old(lists) <= lists && |lists| == |old(lists)| + i
        invariant forall p :: p in lists || Covers(zone.free, p) <==> p in old(lists) || Covers(old(zone.free), p)
      {
        label before:
        var r := zone.RmqueueSmallest(0);
        if r.NoPage? {
          NoSinglePage(zone.free);
          return;
        }
        SinglePage(old@before(zone.free), zone.free, r.pfn);
        lists := lists + [r.pfn];
        count := count + 1;
        i := i + 1;
      }
    }

    /** __rmqueue_pcplist: the first page of the list, refilled from the zone if it is empty. It fails exactly if neither
        has a page; the page it returns leaves both for good. */
    method RmqueuePcplist() returns (r: MaybePage)
      requires Valid() && Tuned()
      modifies this`lists, this`count, zone
      ensures Valid()
      ensures r.NoPage? <==> old(lists) == [] && forall p :: !Covers(old(zone.free), p)
      ensures r.Page? ==> zone.zone(r.pfn) && r.pfn !in lists && !Covers(zone.free, r.pfn)
      ensures forall p :: (p in old(lists) || Covers(old(zone.free), p)) <==>
                          (p in lists || Covers(zone.free, p) || (r.Page? && r.pfn == p))
      ensures old(lists) != [] ==> r.Page? && [r.pfn] + lists == old(lists) && zone.free == old(zone.free)
      ensures old(lists) == [] && r.Page? ==> |lists| + 1 == batch || forall p :: !Covers(zone.free, p)
    {
      if lists == [] {
        RmqueueBulk(batch);
        if lists == [] { return NoPage; }
      }
      var page := lists[0];
      assert page in lists;
      ghost var all := lists;
      lists := lists[1..];
      count := count - 1;
      assert forall p :: p in all <==> p == page || p in lists;
      return Page(page);
    }
  }

  lemma NoSinglePage(free: set<Block>)
    requires forall b: Block :: b.order == 0 ==> !CoversAll(free, b)
    ensures forall p :: !Covers(free, p)
  {
    forall p
      ensures !Covers(free, p)
    {
      assert !CoversAll(free, Block(p, 0));
    }
  }

  lemma SinglePage(before: set<Block>, after: set<Block>, page: nat)
    requires Unfree(after, Block(Shift(page, 0), 0))
    requires forall p :: Covers(before, p) <==> CoversPlus(after, Block(Shift(page, 0), 0), p)
    ensures !Covers(after, page)
    ensures forall p :: Covers(before, p) <==> Covers(after, p) || p == page
  {
    assert Contains(Block(Shift(page, 0), 0), page);
  }

  /** `head` holds the last pages of `all`, last first, and `rest` the others. */
  predicate TakenFrom(all: seq<nat>, rest: seq<nat>, head: seq<nat>) {
    |rest| + |head| == |all| && rest == all[..|rest|] && forall i :: 0 <= i < |head| ==> head[i] == all[|all| - 1 - i]
  }

  lemma TakeLast(all: seq<nat>, rest: seq<nat>, head: seq<nat>)
    requires TakenFrom(all, rest, head) && rest != []
    ensures TakenFrom(all, rest[..|rest| - 1], head + [rest[|rest| - 1]])
  {
  }

  lemma TakenFacts(all: seq<nat>, rest: seq<nat>, head: seq<nat>)
    requires TakenFrom(all, rest, head) && NoDup(all)
    ensures NoDup(rest) && NoDup(head) && rest <= all
    ensures forall p :: p in head <==> p in all && p !in rest
  {
    forall p
      ensures p in head <==> p in all && p !in rest
    {
      if p in head {
        var i :| 0 <= i < |head| && head[i] == p;
        assert all[|all| - 1 - i] == p;
      }
      if p in all && p !in rest {
        var i :| 0 <= i < |all| && all[i] == p;
        assert p !in all[..|rest|];
        assert i >= |rest|;
        assert head[|all| - 1 - i] == p;
      }
    }
  }
}
