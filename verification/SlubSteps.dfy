/** The steps of the slab allocator that move objects keep its invariant. */
module SlubSteps {
  import opened SlubList
  import opened Slub
  import opened SlubObjects
  import opened SlubInvariant

  // ---------------------------------------------------------------- parts

  lemma LinkingSlab(freers: seq<Freer>, slabs: map<SlabId, Slab>, s: SlabId, b: Slab)
    requires LinkingOk(freers, slabs) && s in slabs
    requires slabs[s].frozen.Some? || (forall f :: 0 <= f < |freers| ==> !freers[f].Linking?)
    ensures LinkingOk(freers, slabs[s := b])
  {
  }

  /** The slab of a CPU changes, or a slab becomes a CPU's own. */
  lemma FrozenFor(slabs: map<SlabId, Slab>, cpus: seq<Cpu>, k: nat, c: Cpu, s: SlabId, b: Slab)
    requires FrozenOk(slabs, cpus) && k < |cpus| && s in slabs
    requires cpus[k].page == None || cpus[k].page == Some(s)
    requires slabs[s].frozen == None || slabs[s].frozen == Some(k)
    requires (c.page == Some(s) && b.frozen == Some(k)) || (c.page == None && b.frozen == None)
    ensures FrozenOk(slabs[s := b], cpus[k := c])
  {
  }

  lemma FrozenSlab(slabs: map<SlabId, Slab>, cpus: seq<Cpu>, s: SlabId, b: Slab)
    requires FrozenOk(slabs, cpus) && s in slabs && b.frozen == slabs[s].frozen
    ensures FrozenOk(slabs[s := b], cpus)
  {
  }

  lemma ListSlab(partial: set<SlabId>, slabs: map<SlabId, Slab>, p: Pending, s: SlabId, b: Slab)
    requires ListOk(partial, slabs, p) && s in slabs && Wants(b) == Wants(slabs[s])
    ensures ListOk(partial, slabs[s := b], p)
  {
  }

  /** A CPU without the lock: nothing pending changes. */
  lemma Unlocked0(st: State, k: nat, c: Cpu)
    requires k < |st.cpus| && LockOk(st.lock, st.cpus, st.freers) && !HasLock(st.cpus[k].pc) && !HasLock(c.pc)
    ensures LockOk(st.lock, st.cpus[k := c], st.freers)
    ensures PendingOf(st.lock, st.cpus[k := c], st.freers) == PendingOf(st.lock, st.cpus, st.freers)
  {
    LockCpu(st.lock, st.cpus, st.freers, k, c, st.lock);
    PendingCpu(st.lock, st.cpus, st.freers, k, c, st.lock);
  }

  // ---------------------------------------------------------------- CPUs

  lemma PopKeeps(st: State, k: nat)
    requires Inv(st) && k < |st.cpus| && st.cpus[k].list != Nil && (st.cpus[k].pc == Ready || st.cpus[k].pc == Loading)
    ensures Inv(PopStep(st, k))
  {
    var c := st.cpus[k];
    assert CpuOk(c, k, st.owner, st.place);
    var o, n := c.list.head, Cpu(c.page, c.list.tail, Ready);
    assert o in Elems(c.list);
    var now := st.place[o := Held];
    MovedOne(st.place, o, Held);
    ObjectsMoved(st.slabs, st.owner, st.place, now, |st.cpus|, |st.freers|, {o}, OnCpu(k), Held);
    SlabsOutside(st.slabs, st.owner, st.place, now, {o}, OnCpu(k), Held);
    CpuPop(c, k, st.owner, st.place, now, Held, Ready);
    CpusOne(st.cpus, k, n, st.owner, st.place, now, {o}, OnCpu(k), Held);
    FreersOutside(st.freers, st.place, now, {o}, OnCpu(k), Held);
    Unlocked0(st, k, n);
    FrozenSame(st.slabs, st.cpus, k, n);
  }

  lemma FreeFastKeeps(st: State, k: nat, o: Obj)
    requires Inv(st) && IsCpu(st, k, Ready) && o in st.place && st.place[o] == Held && o in st.owner
             && st.cpus[k].page == Some(st.owner[o])
    ensures Inv(FreeFastStep(st, k, o))
  {
    var c := st.cpus[k];
    assert CpuOk(c, k, st.owner, st.place);
    var n := c.(list := Cons(o, c.list));
    var now := st.place[o := OnCpu(k)];
    MovedOne(st.place, o, OnCpu(k));
    ObjectsMoved(st.slabs, st.owner, st.place, now, |st.cpus|, |st.freers|, {o}, Held, OnCpu(k));
    SlabsOutside(st.slabs, st.owner, st.place, now, {o}, Held, OnCpu(k));
    CpuPush(c, k, st.owner, st.place, now, o, Held);
    CpusOne(st.cpus, k, n, st.owner, st.place, now, {o}, Held, OnCpu(k));
    FreersOutside(st.freers, st.place, now, {o}, Held, OnCpu(k));
    Unlocked0(st, k, n);
    FrozenSame(st.slabs, st.cpus, k, n);
  }

  /** What a CPU that takes a whole freelist leaves of the objects' books. */
  lemma TakeObjects(st: State, k: nat, s: SlabId, pc: Pc)
    requires ObjectsOk(st.slabs, st.owner, st.place, |st.cpus|, |st.freers|) && SlabsOk(st.slabs, st.owner, st.place)
    requires CpusOk(st.cpus, st.owner, st.place) && FreersOk(st.freers, st.place)
    requires k < |st.cpus| && s in st.slabs && st.cpus[k].list == Nil && PcOk(Cpu(Some(s), st.slabs[s].freelist, pc))
    ensures var now := TakeStep(st, k, s, pc);
            && ObjectsOk(now.slabs, now.owner, now.place, |now.cpus|, |now.freers|)
                && SlabsOk(now.slabs, now.owner, now.place)
            && CpusOk(now.cpus, now.owner, now.place) && FreersOk(now.freers, now.place)
  {
    var c, b := st.cpus[k], st.slabs[s];
    var e := Elems(b.freelist);
    assert CpuOk(c, k, st.owner, st.place) && SlabOk(b, s, st.owner, st.place);
    var now := Assign(st.place, b.freelist, OnCpu(k));
    MovedAll(st.place, b.freelist, InPage, OnCpu(k));
    ObjectsMoved(st.slabs, st.owner, st.place, now, |st.cpus|, |st.freers|, e, InPage, OnCpu(k));
    SlabTaken(b, s, st.owner, st.place, now, k);
    SlabsOne(st.slabs, s, Taken(b, k), st.owner, st.place, now, e, InPage, OnCpu(k));
    CpuTakes(c, k, b, s, st.owner, st.place, now, pc);
    CpusOne(st.cpus, k, Cpu(Some(s), b.freelist, pc), st.owner, st.place, now, e, InPage, OnCpu(k));
    FreersOutside(st.freers, st.place, now, e, InPage, OnCpu(k));
  }

  /** get_freelist() with something to get. */
  lemma GetKeeps(st: State, k: nat, s: SlabId)
    requires Inv(st) && IsCpu(st, k, Ready) && st.cpus[k].page == Some(s) && s in st.slabs
             && st.cpus[k].list == Nil && st.slabs[s].freelist != Nil
    ensures Inv(TakeStep(st, k, s, Loading))
  {
    var b := st.slabs[s];
    var n := Cpu(Some(s), b.freelist, Loading);
    assert b.frozen == Some(k);
    TakeObjects(st, k, s, Loading);
    Unlocked0(st, k, n);
    LinkingSlab(st.freers, st.slabs, s, Taken(b, k));
    FrozenFor(st.slabs, st.cpus, k, n, s, Taken(b, k));
    ListSlab(st.partial, st.slabs, PendingOf(st.lock, st.cpus, st.freers), s, Taken(b, k));
  }

  lemma ListAcquire(partial: set<SlabId>, slabs: map<SlabId, Slab>, s: SlabId, k: nat)
    requires ListOk(partial, slabs, Nothing) && s in slabs && s in partial
    ensures ListOk(partial, slabs[s := Taken(slabs[s], k)], Frozen(s)) && Wants(slabs[s])
  {
  }

  lemma NoFreerLinks(st: State, k: nat)
    requires LockOk(st.lock, st.cpus, st.freers) && k < |st.cpus| && HasLock(st.cpus[k].pc)
    ensures forall f :: 0 <= f < |st.freers| ==> !st.freers[f].Linking?
  {
    forall f | 0 <= f < |st.freers|
      ensures !st.freers[f].Linking?
    {
      assert !FreerHasLock(st.freers[f]);
    }
  }

  /** acquire_slab(): the slab that is found has free objects, and its freelist is not NULL. */
  lemma AcquireKeeps(st: State, k: nat, s: SlabId)
    requires Inv(st) && IsCpu(st, k, Searching) && s in st.partial && s in st.slabs
    ensures Inv(TakeStep(st, k, s, Acquired)) && st.slabs[s].freelist != Nil && st.slabs[s].frozen == None
  {
    ListFor(st, k);
    ListAcquire(st.partial, st.slabs, s, k);
    var b := st.slabs[s];
    var n := Cpu(Some(s), b.freelist, Acquired);
    TakeObjects(st, k, s, Acquired);
    LockCpu(st.lock, st.cpus, st.freers, k, n, st.lock);
    PendingCpu(st.lock, st.cpus, st.freers, k, n, st.lock);
    NoFreerLinks(st, k);
    LinkingSlab(st.freers, st.slabs, s, Taken(b, k));
    FrozenFor(st.slabs, st.cpus, k, n, s, Taken(b, k));
  }

  lemma SlabsThaw(slabs: map<SlabId, Slab>, s: SlabId, owner: map<Obj, SlabId>, place: map<Obj, Place>)
    requires SlabsOk(slabs, owner, place) && s in slabs
    ensures SlabsOk(slabs[s := slabs[s].(frozen := None)], owner, place)
  {
    assert SlabOk(slabs[s], s, owner, place);
  }

  lemma CpusLeave(cpus: seq<Cpu>, k: nat, owner: map<Obj, SlabId>, place: map<Obj, Place>)
    requires CpusOk(cpus, owner, place) && k < |cpus| && cpus[k].list == Nil
    ensures CpusOk(cpus[k := Cpu(None, Nil, NeedSlab)], owner, place)
  {
    assert CpuOk(cpus[k], k, owner, place);
    assert CpuOk(Cpu(None, Nil, NeedSlab), k, owner, place);
  }

  lemma ObjectsSlab(slabs: map<SlabId, Slab>, owner: map<Obj, SlabId>, place: map<Obj, Place>, cpus: nat,
      freers: nat, s: SlabId, b: Slab)
    requires ObjectsOk(slabs, owner, place, cpus, freers)
    ensures ObjectsOk(slabs[s := b], owner, place, cpus, freers)
  {
  }

  /** get_freelist() with nothing to get: the slab is full and leaves the CPU. */
  lemma LeaveKeeps(st: State, k: nat, s: SlabId)
    requires Inv(st) && IsCpu(st, k, Ready) && st.cpus[k].page == Some(s) && s in st.slabs
             && st.cpus[k].list == Nil && st.slabs[s].freelist == Nil
    ensures Inv(LeaveStep(st, k))
  {
    var b := st.slabs[s].(frozen := None);
    var n := Cpu(None, Nil, NeedSlab);
    assert st.slabs[s].frozen == Some(k);
    ObjectsSlab(st.slabs, st.owner, st.place, |st.cpus|, |st.freers|, s, b);
    SlabsThaw(st.slabs, s, st.owner, st.place);
    CpusLeave(st.cpus, k, st.owner, st.place);
    Unlocked0(st, k, n);
    LinkingSlab(st.freers, st.slabs, s, b);
    FrozenFor(st.slabs, st.cpus, k, n, s, b);
    ListSlab(st.partial, st.slabs, PendingOf(st.lock, st.cpus, st.freers), s, b);
  }

  /** deactivate_slab() gives one object back while the slab is still frozen. */
  lemma DrainKeeps(st: State, k: nat, s: SlabId)
    requires Inv(st) && IsCpu(st, k, Draining) && st.cpus[k].page == Some(s) && s in st.slabs && st.cpus[k].list != Nil
    ensures Inv(DrainStep(st, k))
  {
    var c, b := st.cpus[k], st.slabs[s];
    assert CpuOk(c, k, st.owner, st.place) && SlabOk(b, s, st.owner, st.place) && b.frozen == Some(k);
    var o, n := c.list.head, c.(list := c.list.tail);
    assert o in Elems(c.list);
    var now := st.place[o := InPage];
    MovedOne(st.place, o, InPage);
    ObjectsMoved(st.slabs, st.owner, st.place, now, |st.cpus|, |st.freers|, {o}, OnCpu(k), InPage);
    ObjectsSlab(st.slabs, st.owner, now, |st.cpus|, |st.freers|, s, Push(b, o));
    SlabPush(b, s, st.owner, st.place, now, o, OnCpu(k));
    SlabsOne(st.slabs, s, Push(b, o), st.owner, st.place, now, {o}, OnCpu(k), InPage);
    CpuPop(c, k, st.owner, st.place, now, InPage, Draining);
    CpusOne(st.cpus, k, n, st.owner, st.place, now, {o}, OnCpu(k), InPage);
    FreersOutside(st.freers, st.place, now, {o}, OnCpu(k), InPage);
    Unlocked0(st, k, n);
    LinkingSlab(st.freers, st.slabs, s, Push(b, o));
    FrozenFor(st.slabs, st.cpus, k, n, s, Push(b, o));
    ListSlab(st.partial, st.slabs, PendingOf(st.lock, st.cpus, st.freers), s, Push(b, o));
  }
}
