/** Unfreezing, new slabs, discarding, and the steps of __slab_free(). */
module SlubFree {
  import opened SlubList
  import opened Slub
  import opened SlubObjects
  import opened SlubInvariant
  import opened SlubSteps

  // ---------------------------------------------------------------- deactivate_slab(), stage two

  /** The books after the last object of the CPU's list, if any, went back to the page. */
  lemma UnfreezeObjects(st: State, k: nat, s: SlabId)
    requires ObjectsOk(st.slabs, st.owner, st.place, |st.cpus|, |st.freers|) && SlabsOk(st.slabs, st.owner, st.place)
    requires CpusOk(st.cpus, st.owner, st.place) && FreersOk(st.freers, st.place)
    requires HasPage(st, k) && st.cpus[k].page == Some(s) && st.cpus[k].pc.Committing?
    ensures var now := UnfreezeStep(st, k);
            && ObjectsOk(now.slabs, now.owner, now.place, |now.cpus|, |now.freers|)
                && SlabsOk(now.slabs, now.owner, now.place)
            && CpusOk(now.cpus, now.owner, now.place) && FreersOk(now.freers, now.place)
  {
    var c, b := st.cpus[k], st.slabs[s];
    assert CpuOk(c, k, st.owner, st.place) && SlabOk(b, s, st.owner, st.place);
    var e := Elems(c.list);
    var now := Assign(st.place, c.list, InPage);
    MovedAll(st.place, c.list, OnCpu(k), InPage);
    ObjectsMoved(st.slabs, st.owner, st.place, now, |st.cpus|, |st.freers|, e, OnCpu(k), InPage);
    var t := UnfreezeStep(st, k).slabs[s];
    UnfreezeSlab(c, k, b, s, st.owner, st.place, now);
    SlabsOne(st.slabs, s, t, st.owner, st.place, now, e, OnCpu(k), InPage);
    ObjectsSlab(st.slabs, st.owner, now, |st.cpus|, |st.freers|, s, t);
    CpuEmpty(c, k, st.owner, st.place, now);
    CpusOne(st.cpus, k, Cpu(None, Nil, Ready), st.owner, st.place, now, e, OnCpu(k), InPage);
    FreersOutside(st.freers, st.place, now, e, OnCpu(k), InPage);
  }

  lemma CpuEmpty(c: Cpu, k: nat, owner: map<Obj, SlabId>, place: map<Obj, Place>, now: map<Obj, Place>)
    requires CpuOk(c, k, owner, place) && Moved(place, now, Elems(c.list), OnCpu(k), InPage)
    ensures CpuOk(Cpu(None, Nil, Ready), k, owner, now)
  {
    forall o
      ensures o in Elems(Nil) <==> o in now && now[o] == OnCpu(k)
    {
      assert o in Elems(c.list) <==> o in place && place[o] == OnCpu(k);
    }
  }

  lemma UnfreezeSlab(c: Cpu, k: nat, b: Slab, s: SlabId, owner: map<Obj, SlabId>, place: map<Obj, Place>,
      now: map<Obj, Place>)
    requires CpuOk(c, k, owner, place) && SlabOk(b, s, owner, place) && c.page == Some(s) && c.pc.Committing?
    requires Moved(place, now, Elems(c.list), OnCpu(k), InPage)
    ensures var l := if c.list == Nil then b.freelist else Cons(c.list.head, b.freelist);
            SlabOk(b.(freelist := l, inuse := b.inuse - Len(c.list), frozen := None), s, owner, now)
    ensures Elems(c.list) <= b.objs
  {
    if c.list == Nil {
      SlabSame(b, s, owner, place, now);
    } else {
      var o := c.list.head;
      assert Len(c.list) == 1 + Len(c.list.tail);
      assert c.list.tail == Nil;
      assert Elems(c.list) == {o} + Elems(Nil);
      SlabPush(b, s, owner, place, now, o, OnCpu(k));
    }
  }

  lemma UnfreezePending(st: State, k: nat, s: SlabId)
    requires LockOk(st.lock, st.cpus, st.freers) && FrozenOk(st.slabs, st.cpus)
    requires HasPage(st, k) && st.cpus[k].page == Some(s) && st.cpus[k].pc.Committing?
    ensures var now := UnfreezeStep(st, k);
            && LockOk(now.lock, now.cpus, now.freers)
            && PendingOf(now.lock, now.cpus, now.freers) == (if st.cpus[k].pc.locked then Nothing else PendingOf(st.lock, st.cpus, st.freers))
            && (st.cpus[k].pc.locked ==> PendingOf(st.lock, st.cpus, st.freers) == CpuPending(st.cpus[k]))
    ensures !st.cpus[k].pc.locked ==> PendingOf(st.lock, st.cpus, st.freers) != Frozen(s)
  {
    var n := Cpu(None, Nil, Ready);
    var lock := UnfreezeStep(st, k).lock;
    LockCpu(st.lock, st.cpus, st.freers, k, n, lock);
    PendingCpu(st.lock, st.cpus, st.freers, k, n, lock);
  }

  lemma ListUnfreeze(partial: set<SlabId>, slabs: map<SlabId, Slab>, s: SlabId, b: Slab)
    requires ListOk(partial, slabs, Frozen(s)) && s in slabs && Wants(b)
    ensures ListOk(partial, slabs[s := b], Nothing)
  {
  }

  lemma ListFull(partial: set<SlabId>, slabs: map<SlabId, Slab>, p: Pending, s: SlabId, b: Slab)
    requires ListOk(partial, slabs, p) && s in slabs && slabs[s].frozen.Some? && !Wants(b)
    ensures ListOk(partial, slabs[s := b], p)
  {
  }

  /** The compare-and-exchange succeeds: the list already agrees with the state of the slab. */
  lemma UnfreezeList(st: State, k: nat, s: SlabId)
    requires LockOk(st.lock, st.cpus, st.freers) && FrozenOk(st.slabs, st.cpus)
    requires ListOk(st.partial, st.slabs, PendingOf(st.lock, st.cpus, st.freers))
    requires HasPage(st, k) && st.cpus[k].page == Some(s) && st.cpus[k].pc.Committing? && st.cpus[k].pc.m != MFree
             && PcOk(st.cpus[k])
    requires SnapOf(st.slabs[s]) == st.cpus[k].pc.snap
    ensures var now := UnfreezeStep(st, k); ListOk(now.partial, now.slabs, PendingOf(now.lock, now.cpus, now.freers))
  {
    UnfreezePending(st, k, s);
    var b := UnfreezeStep(st, k).slabs[s];
    if st.cpus[k].pc.m == MPartial {
      ListUnfreeze(st.partial, st.slabs, s, b);
    } else {
      ListFull(st.partial, st.slabs, PendingOf(st.lock, st.cpus, st.freers), s, b);
    }
  }

  lemma UnfreezeKeeps(st: State, k: nat, s: SlabId)
    requires Inv(st) && HasPage(st, k) && st.cpus[k].page == Some(s) && st.cpus[k].pc.Committing? && st.cpus[k].pc.m != MFree
    requires SnapOf(st.slabs[s]) == st.cpus[k].pc.snap
    ensures Inv(UnfreezeStep(st, k))
  {
    assert CpuOk(st.cpus[k], k, st.owner, st.place) && st.slabs[s].frozen == Some(k);
    UnfreezeObjects(st, k, s);
    UnfreezePending(st, k, s);
    UnfreezeList(st, k, s);
    var b := UnfreezeStep(st, k).slabs[s];
    LinkingSlab(st.freers, st.slabs, s, b);
    FrozenFor(st.slabs, st.cpus, k, Cpu(None, Nil, Ready), s, b);
  }

  // ---------------------------------------------------------------- discard_slab()

  /** The list is right for every slab but s. */
  ghost predicate ListOkBut(partial: set<SlabId>, slabs: map<SlabId, Slab>, p: Pending, s: SlabId) {
    && partial <= slabs.Keys
    && forall t :: t in slabs && t != s ==> (t in partial <==> (Wants(slabs[t]) && p != Adding(t)) || p == Frozen(t))
  }

  lemma DiscardObjects(st: State, s: SlabId)
    requires ObjectsOk(st.slabs, st.owner, st.place, |st.cpus|, |st.freers|) && SlabsOk(st.slabs, st.owner, st.place)
    requires s in st.slabs
    ensures var now := Discard(st, s);
            ObjectsOk(now.slabs, now.owner, now.place, |now.cpus|, |now.freers|) && SlabsOk(now.slabs, now.owner, now.place)
  {
    var gone := st.slabs[s].objs;
    assert SlabOk(st.slabs[s], s, st.owner, st.place);
    DiscardSlabs(st.slabs, st.owner, st.place, s, gone);
  }

  lemma DiscardSlabs(slabs: map<SlabId, Slab>, owner: map<Obj, SlabId>, place: map<Obj, Place>, s: SlabId, gone: set<Obj>)
    requires SlabsOk(slabs, owner, place) && s in slabs && gone == slabs[s].objs
    ensures SlabsOk(slabs - {s}, owner - gone, place - gone)
  {
    forall t | t in slabs && t != s
      ensures SlabOk(slabs[t], t, owner - gone, place - gone)
    {
      assert SlabOk(slabs[t], t, owner, place) && SlabOk(slabs[s], s, owner, place);
      DiscardOther(owner, place, gone, t, slabs[t]);
    }
  }

  lemma DiscardOther(owner: map<Obj, SlabId>, place: map<Obj, Place>, gone: set<Obj>, t: SlabId, b: Slab)
    requires SlabOk(b, t, owner, place) && forall o :: o in gone ==> o !in b.objs
    ensures SlabOk(b, t, owner - gone, place - gone)
  {
  }

  /** Discarding a slab whose objects are all in the page: no CPU and no caller has any of them. */
  lemma DiscardHolders(st: State, s: SlabId)
    requires CpusOk(st.cpus, st.owner, st.place) && FreersOk(st.freers, st.place)
    requires s in st.slabs && forall o :: o in st.slabs[s].objs ==> o in st.place && st.place[o] == InPage
    ensures var now := Discard(st, s); CpusOk(now.cpus, now.owner, now.place) && FreersOk(now.freers, now.place)
  {
    var now := Discard(st, s);
    forall k | 0 <= k < |st.cpus|
      ensures CpuOk(st.cpus[k], k, now.owner, now.place)
    {
      assert CpuOk(st.cpus[k], k, st.owner, st.place);
      forall o
        ensures (o in now.place && now.place[o] == OnCpu(k)) <==> (o in st.place && st.place[o] == OnCpu(k))
      {
      }
    }
    forall f | 0 <= f < |st.freers|
      ensures FreerOk(st.freers[f], f, now.place)
    {
      assert FreerOk(st.freers[f], f, st.place);
      forall o
        ensures (o in now.place && now.place[o] == Freeing(f)) <==> (o in st.place && st.place[o] == Freeing(f))
      {
      }
    }
  }

  lemma DiscardControl(st: State, s: SlabId)
    requires LinkingOk(st.freers, st.slabs) && FrozenOk(st.slabs, st.cpus) && s in st.slabs && st.slabs[s].frozen == None
    requires forall f :: 0 <= f < |st.freers| && st.freers[f].Linking? ==> st.freers[f].s != s
    requires ListOkBut(st.partial, st.slabs, PendingOf(st.lock, st.cpus, st.freers), s)
    ensures var now := Discard(st, s);
            && LinkingOk(now.freers, now.slabs) && FrozenOk(now.slabs, now.cpus)
            && ListOk(now.partial, now.slabs, PendingOf(now.lock, now.cpus, now.freers))
  {
  }

  /** A slab with nothing in use has all its objects in the page. */
  lemma LeavesNone(st: State, s: SlabId)
    requires ObjectsOk(st.slabs, st.owner, st.place, |st.cpus|, |st.freers|) && SlabsOk(st.slabs, st.owner, st.place)
    requires s in st.slabs && st.slabs[s].inuse == 0
    ensures forall o :: o in st.slabs[s].objs ==> o in st.place && st.place[o] == InPage
  {
    assert SlabOk(st.slabs[s], s, st.owner, st.place);
    UnusedIsAllInPage(st.slabs[s], s, st.owner, st.place);
  }

  /** deactivate_slab() frees a slab only when nothing of it is in use. */
  lemma FreeTarget(st: State, k: nat, s: SlabId)
    requires HasPage(st, k) && st.cpus[k].page == Some(s) && st.cpus[k].pc.Committing? && st.cpus[k].pc.m == MFree
             && PcOk(st.cpus[k])
    requires SnapOf(st.slabs[s]) == st.cpus[k].pc.snap
    ensures var now := UnfreezeStep(st, k); s in now.slabs && now.slabs[s].inuse == 0
  {
  }

  lemma UnfreezeDiscardControl(st: State, k: nat, s: SlabId)
    requires LinkingOk(st.freers, st.slabs) && LockOk(st.lock, st.cpus, st.freers) && FrozenOk(st.slabs, st.cpus)
    requires ListOk(st.partial, st.slabs, PendingOf(st.lock, st.cpus, st.freers))
    requires HasPage(st, k) && st.cpus[k].page == Some(s) && st.cpus[k].pc.Committing? && st.cpus[k].pc.m == MFree
    ensures var now := Discard(UnfreezeStep(st, k), s);
            && LinkingOk(now.freers, now.slabs) && LockOk(now.lock, now.cpus, now.freers) && FrozenOk(now.slabs, now.cpus)
            && ListOk(now.partial, now.slabs, PendingOf(now.lock, now.cpus, now.freers))
  {
    var now := UnfreezeStep(st, k);
    UnfreezePending(st, k, s);
    LinkingSlab(st.freers, st.slabs, s, now.slabs[s]);
    FrozenFor(st.slabs, st.cpus, k, Cpu(None, Nil, Ready), s, now.slabs[s]);
    ListBut(st, k, s);
    DiscardControl(now, s);
  }

  lemma UnfreezeDiscardKeeps(st: State, k: nat, s: SlabId)
    requires Inv(st) && HasPage(st, k) && st.cpus[k].page == Some(s) && st.cpus[k].pc.Committing? && st.cpus[k].pc.m == MFree
    requires SnapOf(st.slabs[s]) == st.cpus[k].pc.snap
    ensures Inv(Discard(UnfreezeStep(st, k), s))
  {
    assert CpuOk(st.cpus[k], k, st.owner, st.place);
    UnfreezeObjects(st, k, s);
    FreeTarget(st, k, s);
    LeavesNone(UnfreezeStep(st, k), s);
    DiscardObjects(UnfreezeStep(st, k), s);
    DiscardHolders(UnfreezeStep(st, k), s);
    UnfreezeDiscardControl(st, k, s);
  }

  lemma ListBut(st: State, k: nat, s: SlabId)
    requires LinkingOk(st.freers, st.slabs) && LockOk(st.lock, st.cpus, st.freers) && FrozenOk(st.slabs, st.cpus)
    requires ListOk(st.partial, st.slabs, PendingOf(st.lock, st.cpus, st.freers))
    requires HasPage(st, k) && st.cpus[k].page == Some(s) && st.cpus[k].pc.Committing? && st.cpus[k].pc.m == MFree
    ensures var now := UnfreezeStep(st, k); ListOkBut(now.partial, now.slabs, PendingOf(now.lock, now.cpus, now.freers), s)
    ensures forall f :: 0 <= f < |st.freers| && st.freers[f].Linking? ==> st.freers[f].s != s
  {
    UnfreezePending(st, k, s);
    assert st.slabs[s].frozen == Some(k);
  }

  // ---------------------------------------------------------------- a new slab

  lemma NewSlabObjects(st: State, k: nat, s: SlabId, objs: List)
    requires ObjectsOk(st.slabs, st.owner, st.place, |st.cpus|, |st.freers|) && k < |st.cpus| && Fresh(st, s, objs)
    ensures var now := NewSlabStep(st, k, s, objs);
            ObjectsOk(now.slabs, now.owner, now.place, |now.cpus|, |now.freers|)
  {
    AssignIs(st.owner, objs, s);
    AssignIs(st.place, objs, OnCpu(k));
  }

  lemma NewSlabSlabs(st: State, k: nat, s: SlabId, objs: List)
    requires ObjectsOk(st.slabs, st.owner, st.place, |st.cpus|, |st.freers|) && SlabsOk(st.slabs, st.owner, st.place)
    requires k < |st.cpus| && Fresh(st, s, objs)
    ensures var now := NewSlabStep(st, k, s, objs); SlabsOk(now.slabs, now.owner, now.place)
  {
    var now := NewSlabStep(st, k, s, objs);
    NewSlabOwn(st.owner, st.place, k, s, objs);
    forall t | t in st.slabs
      ensures SlabOk(now.slabs[t], t, now.owner, now.place)
    {
      NewSlabOther(st, k, s, objs, t, st.slabs[t]);
    }
  }

  lemma NewSlabOwn(owner: map<Obj, SlabId>, place: map<Obj, Place>, k: nat, s: SlabId, objs: List)
    requires (forall o :: o in owner ==> owner[o] != s) && objs != Nil && NoDup(objs)
    ensures SlabOk(Slab(Elems(objs), Nil, Len(objs), Some(k)), s, Assign(owner, objs, s), Assign(place, objs, OnCpu(k)))
  {
    ElemsCount(objs);
    AssignIs(owner, objs, s);
    AssignIs(place, objs, OnCpu(k));
    assert objs.head in Elems(objs);
  }

  lemma NewSlabOther(st: State, k: nat, s: SlabId, objs: List, t: SlabId, b: Slab)
    requires st.owner.Keys == st.place.Keys && SlabOk(b, t, st.owner, st.place)
    requires k < |st.cpus| && t != s && Fresh(st, s, objs)
    ensures var now := NewSlabStep(st, k, s, objs); SlabOk(b, t, now.owner, now.place)
  {
    AssignIs(st.owner, objs, s);
    AssignIs(st.place, objs, OnCpu(k));
  }

  lemma NewSlabHolders(st: State, k: nat, s: SlabId, objs: List)
    requires ObjectsOk(st.slabs, st.owner, st.place, |st.cpus|, |st.freers|)
    requires CpusOk(st.cpus, st.owner, st.place) && FreersOk(st.freers, st.place)
    requires k < |st.cpus| && st.cpus[k].list == Nil && Fresh(st, s, objs)
    ensures var now := NewSlabStep(st, k, s, objs); CpusOk(now.cpus, now.owner, now.place) && FreersOk(now.freers, now.place)
  {
    var now := NewSlabStep(st, k, s, objs);
    AssignIs(st.owner, objs, s);
    AssignIs(st.place, objs, OnCpu(k));
    forall j | 0 <= j < |st.cpus|
      ensures CpuOk(now.cpus[j], j, now.owner, now.place)
    {
      var c := st.cpus[j];
      assert CpuOk(c, j, st.owner, st.place);
      forall o
        ensures (o in now.place && now.place[o] == OnCpu(j)) <==> (o in st.place && st.place[o] == OnCpu(j)) || (j == k && o in Elems(objs))
      {
      }
      if j == k {
        assert Elems(c.list) == {};
      }
    }
    forall f | 0 <= f < |st.freers|
      ensures FreerOk(st.freers[f], f, now.place)
    {
      assert FreerOk(st.freers[f], f, st.place);
      forall o
        ensures (o in now.place && now.place[o] == Freeing(f)) <==> (o in st.place && st.place[o] == Freeing(f))
      {
      }
    }
  }

  lemma NewSlabControl(st: State, k: nat, s: SlabId, objs: List)
    requires LinkingOk(st.freers, st.slabs) && LockOk(st.lock, st.cpus, st.freers) && FrozenOk(st.slabs, st.cpus)
    requires ListOk(st.partial, st.slabs, PendingOf(st.lock, st.cpus, st.freers))
    requires IsCpu(st, k, NeedNew) && st.cpus[k].page == None && s !in st.slabs
    ensures var now := NewSlabStep(st, k, s, objs);
            && LinkingOk(now.freers, now.slabs) && LockOk(now.lock, now.cpus, now.freers) && FrozenOk(now.slabs, now.cpus)
            && ListOk(now.partial, now.slabs, PendingOf(now.lock, now.cpus, now.freers))
  {
    Unlocked0(st, k, Cpu(Some(s), objs, Loading));
    assert PendingOf(st.lock, st.cpus, st.freers) != Frozen(s);
  }

  lemma NewSlabKeeps(st: State, k: nat, s: SlabId, objs: List)
    requires Inv(st) && IsCpu(st, k, NeedNew) && Fresh(st, s, objs)
    ensures Inv(NewSlabStep(st, k, s, objs))
  {
    assert CpuOk(st.cpus[k], k, st.owner, st.place);
    NewSlabObjects(st, k, s, objs);
    NewSlabSlabs(st, k, s, objs);
    NewSlabHolders(st, k, s, objs);
    NewSlabControl(st, k, s, objs);
  }
}
