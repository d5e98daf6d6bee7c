/** What the memblock searches find, said of addresses: the areas that lie in one region each. */
module MemblockSeams {
  import opened Align
  import opened MemblockRegions
  import opened MemblockType
  import opened MemblockRanges
  import opened MemblockFind

  /** No region of memory begins inside. Regions that touch are kept apart when their flags differ. */
  predicate Seamless(a: seq<Region>, lo: nat, hi: nat) {
    forall i :: 0 <= i < |a| ==> !(lo < a[i].base < hi)
  }

  /** A gap ends where a reservation begins, or with the address space. */
  lemma GapEnds(b: seq<Region>, j: int)
    requires Good(b) && 0 <= j <= |b| && GapStart(b, j) < GapEnd(b, j)
    ensures GapEnd(b, j) >= TOP || View(b, GapEnd(b, j)) != Absent
  {
    if j < |b| && b != [DUMMY] {
      SortedOne(b, 0, j);
      ViewHits(b, j, b[j].base);
    }
  }

  /** Beyond a region there is memory only if another region begins there. */
  lemma RegionEnds(a: seq<Region>, i: nat)
    requires Good(a) && i < |a| && View(a, End(a[i])).Present?
    ensures exists k :: 0 <= k < |a| && a[k].base == End(a[i])
  {
    GoodInOrder(a);
    var k := Holder(a, End(a[i]));
    assert a[k].base == End(a[i]);
  }

  /** Where the range of a pair ends, memory that is not reserved ends too, unless another region begins there. */
  lemma BeyondPair(a: seq<Region>, b: seq<Region>, flags: Flags, i: nat, j: nat)
    requires Good(a) && Good(b) && Meets(a, b, flags, i, j) && From(a, b, i, j) < To(a, b, i, j)
    ensures !IsFree(a, b, flags, To(a, b, i, j)) || exists k :: 0 <= k < |a| && a[k].base == To(a, b, i, j)
  {
    if End(a[i]) < GapEnd(b, j) {
      if View(a, End(a[i])).Present? { RegionEnds(a, i); }
    } else {
      GapEnds(b, j);
    }
  }

  /** Over addresses: an area fits exactly if all of it is wanted memory that is not reserved, and no region begins inside. */
  lemma FitsExactly(a: seq<Region>, b: seq<Region>, w: Want, x: nat)
    requires Good(a) && Good(b) && w.align > 0 && w.size > 0
    ensures Fits(a, b, w, x) <==> Placed(w, x) && AllFree(a, b, w.flags, x, x + w.size) && Seamless(a, x, x + w.size)
  {
    GoodInOrder(a);
    if Fits(a, b, w, x) {
      AreaIsFree(a, b, w, x);
      var i, j :| FitsIn(a, b, w, x, i, j);
    } else if Placed(w, x) && AllFree(a, b, w.flags, x, x + w.size) && Seamless(a, x, x + w.size) {
      assert IsFree(a, b, w.flags, x);
      var i, j := FreeHasPair(a, b, w.flags, x);
      BeyondPair(a, b, w.flags, i, j);
      assert FitsIn(a, b, w, x, i, j);
    }
  }

  /** So the searches find nothing exactly if every area that is all free memory has a seam inside. */
  lemma NothingFitsExactly(a: seq<Region>, b: seq<Region>, w: Want)
    requires Good(a) && Good(b) && w.align > 0 && w.size > 0
    ensures NothingFits(a, b, w) <==>
              forall x: nat :: Placed(w, x) && AllFree(a, b, w.flags, x, x + w.size) ==> !Seamless(a, x, x + w.size)
  {
    forall x: nat
      ensures Fits(a, b, w, x) <==> Placed(w, x) && AllFree(a, b, w.flags, x, x + w.size) && Seamless(a, x, x + w.size)
    {
      FitsExactly(a, b, w, x);
    }
  }

  /** Two pages that touch, one of them marked: a request for both finds nothing, although both are free. */
  lemma SeamIsMissed()
    ensures var a, w := [Region(0x1000, 0x1000, {}), Region(0x2000, 0x1000, {1})], Want(0x1000, 0x3000, 0x2000, 0x1000, {});
            Good(a) && AllFree(a, [DUMMY], w.flags, 0x1000, 0x3000) && NothingFits(a, [DUMMY], w)
  {
    var r, t := Region(0x1000, 0x1000, {}), Region(0x2000, 0x1000, {1});
    var a, w := [r, t], Want(0x1000, 0x3000, 0x2000, 0x1000, {});
    assert a[1..] == [t] && [t][1..] == [];
    assert Sorted([t], 0x2000) && Sorted(a, 0);
    forall x: nat | 0x1000 <= x < 0x3000
      ensures IsFree(a, [DUMMY], {}, x)
    {
      DummyHoldsNothing(x);
      ViewHits(a, if x < 0x2000 then 0 else 1, x);
    }
    forall x: nat | Placed(w, x) && AllFree(a, [DUMMY], {}, x, x + 0x2000)
      ensures !Seamless(a, x, x + 0x2000)
    {
      assert x < a[1].base < x + 0x2000;
    }
    NothingFitsExactly(a, [DUMMY], w);
  }
}
