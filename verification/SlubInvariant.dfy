/** Every step of the slab allocator keeps its invariant. */
module SlubInvariant {
  import opened SlubList
  import opened Slub

  // ---------------------------------------------------------------- the lock and the list

  /** One CPU moves along: it keeps the lock or stays without it, takes it when it is free, or gives it back. */
  lemma LockCpu(lock: Lock, cpus: seq<Cpu>, freers: seq<Freer>, k: nat, c: Cpu, now: Lock)
    requires LockOk(lock, cpus, freers) && k < |cpus|
    requires if HasLock(c.pc) == HasLock(cpus[k].pc) then now == lock
             else if HasLock(c.pc) then lock == Unlocked && now == ByCpu(k)
             else now == Unlocked
    ensures LockOk(now, cpus[k := c], freers)
  {
  }

  lemma LockFreer(lock: Lock, cpus: seq<Cpu>, freers: seq<Freer>, f: nat, fr: Freer, now: Lock)
    requires LockOk(lock, cpus, freers) && f < |freers|
    requires if FreerHasLock(fr) == FreerHasLock(freers[f]) then now == lock
             else if FreerHasLock(fr) then lock == Unlocked && now == ByFreer(f)
             else now == Unlocked
    ensures LockOk(now, cpus, freers[f := fr])
  {
  }

  /** The change pending after one CPU moved along: its own if it has the lock, and otherwise what it was. */
  lemma PendingCpu(lock: Lock, cpus: seq<Cpu>, freers: seq<Freer>, k: nat, c: Cpu, now: Lock)
    requires k < |cpus| && LockOk(lock, cpus, freers) && LockOk(now, cpus[k := c], freers)
    requires HasLock(c.pc) == HasLock(cpus[k].pc) ==> now == lock
    ensures HasLock(c.pc) ==> PendingOf(now, cpus[k := c], freers) == CpuPending(c)
    ensures HasLock(cpus[k].pc) ==> PendingOf(lock, cpus, freers) == CpuPending(cpus[k])
    ensures !HasLock(c.pc) && !HasLock(cpus[k].pc) ==> PendingOf(now, cpus[k := c], freers) == PendingOf(lock, cpus, freers)
    ensures !HasLock(c.pc) && HasLock(cpus[k].pc) && now == Unlocked ==> PendingOf(now, cpus[k := c], freers) == Nothing
    ensures HasLock(c.pc) && !HasLock(cpus[k].pc) && lock == Unlocked ==> PendingOf(lock, cpus, freers) == Nothing
  {
  }

  lemma PendingFreer(lock: Lock, cpus: seq<Cpu>, freers: seq<Freer>, f: nat, fr: Freer, now: Lock)
    requires f < |freers| && LockOk(lock, cpus, freers) && LockOk(now, cpus, freers[f := fr])
    requires FreerHasLock(fr) == FreerHasLock(freers[f]) ==> now == lock
    ensures FreerHasLock(fr) ==> PendingOf(now, cpus, freers[f := fr]) == FreerPending(fr)
    ensures FreerHasLock(freers[f]) ==> PendingOf(lock, cpus, freers) == FreerPending(freers[f])
    ensures !FreerHasLock(fr) && !FreerHasLock(freers[f]) ==>
            PendingOf(now, cpus, freers[f := fr]) == PendingOf(lock, cpus, freers)
    ensures !FreerHasLock(fr) && FreerHasLock(freers[f]) && now == Unlocked ==>
            PendingOf(now, cpus, freers[f := fr]) == Nothing
    ensures FreerHasLock(fr) && !FreerHasLock(freers[f]) && lock == Unlocked ==> PendingOf(lock, cpus, freers) == Nothing
  {
  }

  // ---------------------------------------------------------------- steps that move no object

  lemma CpusPc(cpus: seq<Cpu>, k: nat, pc: Pc, owner: map<Obj, SlabId>, place: map<Obj, Place>)
    requires CpusOk(cpus, owner, place) && k < |cpus| && PcOk(cpus[k].(pc := pc))
    ensures CpusOk(cpus[k := cpus[k].(pc := pc)], owner, place)
  {
    assert CpuOk(cpus[k], k, owner, place);
  }

  lemma FrozenSame(slabs: map<SlabId, Slab>, cpus: seq<Cpu>, k: nat, c: Cpu)
    requires FrozenOk(slabs, cpus) && k < |cpus| && c.page == cpus[k].page
    ensures FrozenOk(slabs, cpus[k := c])
  {
  }

  /** What is left to show when a CPU moves along and no object moves. */
  lemma PcKeeps(st: State, k: nat, pc: Pc, lock: Lock, partial: set<SlabId>)
    requires Inv(st) && k < |st.cpus| && PcOk(st.cpus[k].(pc := pc))
    requires LockOk(lock, SetPc(st, k, pc).cpus, st.freers)
    requires ListOk(partial, st.slabs, PendingOf(lock, SetPc(st, k, pc).cpus, st.freers))
    ensures Inv(SetPc(st, k, pc).(lock := lock, partial := partial))
  {
    CpusPc(st.cpus, k, pc, st.owner, st.place);
    FrozenSame(st.slabs, st.cpus, k, st.cpus[k].(pc := pc));
  }

  /** A CPU without the lock, before and after. */
  lemma PcAlone(st: State, k: nat, pc: Pc)
    requires Inv(st) && k < |st.cpus| && PcOk(st.cpus[k].(pc := pc)) && !HasLock(st.cpus[k].pc) && !HasLock(pc)
    ensures Inv(SetPc(st, k, pc))
  {
    var c := st.cpus[k].(pc := pc);
    LockCpu(st.lock, st.cpus, st.freers, k, c, st.lock);
    PendingCpu(st.lock, st.cpus, st.freers, k, c, st.lock);
    PcKeeps(st, k, pc, st.lock, st.partial);
  }

  /** A CPU takes the lock, keeps it or gives it back. */
  lemma PcLocks(st: State, k: nat, pc: Pc, lock: Lock, partial: set<SlabId>)
    requires Inv(st) && k < |st.cpus| && PcOk(st.cpus[k].(pc := pc)) && (HasLock(pc) || HasLock(st.cpus[k].pc))
    requires if HasLock(pc) == HasLock(st.cpus[k].pc) then lock == st.lock
             else if HasLock(pc) then st.lock == Unlocked && lock == ByCpu(k)
             else lock == Unlocked
    requires ListOk(partial, st.slabs, if HasLock(pc) then CpuPending(st.cpus[k].(pc := pc)) else Nothing)
    ensures Inv(SetPc(st, k, pc).(lock := lock, partial := partial))
  {
    var c := st.cpus[k].(pc := pc);
    LockCpu(st.lock, st.cpus, st.freers, k, c, lock);
    PendingCpu(st.lock, st.cpus, st.freers, k, c, lock);
    PcKeeps(st, k, pc, lock, partial);
  }

  /** What the list is like for a CPU that has the lock, or could take it. */
  lemma ListFor(st: State, k: nat)
    requires Inv(st) && k < |st.cpus|
    ensures CpuOk(st.cpus[k], k, st.owner, st.place)
    ensures HasLock(st.cpus[k].pc) ==> st.lock == ByCpu(k) && ListOk(st.partial, st.slabs, CpuPending(st.cpus[k]))
    ensures st.lock == Unlocked ==> ListOk(st.partial, st.slabs, Nothing)
    ensures st.cpus[k].page.Some? ==> st.cpus[k].page.value in st.slabs && st.slabs[st.cpus[k].page.value].frozen == Some(k)
  {
  }

  lemma ListTakeOff(partial: set<SlabId>, slabs: map<SlabId, Slab>, s: SlabId)
    requires ListOk(partial, slabs, Frozen(s)) && s in slabs && slabs[s].frozen.Some?
    ensures ListOk(partial - {s}, slabs, Nothing)
  {
  }

  lemma ListPutOn(partial: set<SlabId>, slabs: map<SlabId, Slab>, s: SlabId)
    requires ListOk(partial, slabs, Nothing) && s in slabs
    ensures ListOk(partial + {s}, slabs, Frozen(s))
  {
  }

  lemma UnlinkKeeps(st: State, k: nat)
    requires Inv(st) && IsCpu(st, k, Acquired) && HasPage(st, k)
    ensures Inv(UnlinkStep(st, k))
  {
    var s := st.cpus[k].page.value;
    ListFor(st, k);
    ListTakeOff(st.partial, st.slabs, s);
    PcLocks(st, k, Loading, Unlocked, st.partial - {s});
  }

  /** A CPU that holds the lock keeps it, and the list. */
  lemma PcStays(st: State, k: nat, pc: Pc)
    requires Inv(st) && k < |st.cpus| && PcOk(st.cpus[k].(pc := pc)) && HasLock(pc) == HasLock(st.cpus[k].pc)
    requires CpuPending(st.cpus[k].(pc := pc)) == CpuPending(st.cpus[k])
    ensures Inv(SetPc(st, k, pc))
  {
    if HasLock(pc) {
      ListFor(st, k);
      PcLocks(st, k, pc, st.lock, st.partial);
    } else {
      PcAlone(st, k, pc);
    }
  }

  lemma ChosenPc(nr: nat, c: Cpu, snap: Snap, minPartial: nat)
    requires c.page.Some? && c.pc.Redo? && PcOk(c)
    ensures var m := Choose(nr, snap, c.list, minPartial);
            PcOk(c.(pc := Peeked(c.pc.locked, c.pc.l, m, snap)))
  {
  }

  lemma PeekKeeps(st: State, k: nat, nr: nat, minPartial: nat)
    requires Inv(st) && HasPage(st, k) && st.cpus[k].pc.Redo?
    ensures Inv(PeekStep(st, k, nr, minPartial))
  {
    var c := st.cpus[k];
    var snap := SnapOf(st.slabs[c.page.value]);
    assert CpuOk(c, k, st.owner, st.place);
    ChosenPc(nr, c, snap, minPartial);
    PcStays(st, k, Peeked(c.pc.locked, c.pc.l, Choose(nr, snap, c.list, minPartial), snap));
  }

  lemma LockListKeeps(st: State, k: nat)
    requires Inv(st) && k < |st.cpus| && st.cpus[k].pc.Peeked? && !st.cpus[k].pc.locked && st.lock == Unlocked
    ensures Inv(LockListStep(st, k))
  {
    ListFor(st, k);
    var pc := st.cpus[k].pc;
    PcLocks(st, k, Peeked(true, pc.l, pc.m, pc.snap), ByCpu(k), st.partial);
  }

  /** The list is set up for the target state: the slab is still frozen. */
  lemma RelistKeeps(st: State, k: nat)
    requires Inv(st) && HasPage(st, k) && st.cpus[k].pc.Peeked? && (st.cpus[k].pc.m == MPartial ==> st.cpus[k].pc.locked)
    ensures Inv(RelistStep(st, k))
  {
    assert CpuOk(st.cpus[k], k, st.owner, st.place);
    if (st.cpus[k].pc.l == MPartial) == (st.cpus[k].pc.m == MPartial) {
      RelistSame(st, k);
    } else {
      RelistChange(st, k);
    }
  }

  lemma RelistSame(st: State, k: nat)
    requires Inv(st) && HasPage(st, k) && st.cpus[k].pc.Peeked?
             && (st.cpus[k].pc.l == MPartial) == (st.cpus[k].pc.m == MPartial)
    requires (st.cpus[k].pc.m == MPartial ==> st.cpus[k].pc.locked) && PcOk(st.cpus[k])
    ensures Inv(RelistStep(st, k))
  {
    var pc := st.cpus[k].pc;
    PcStays(st, k, Committing(pc.locked, pc.m, pc.snap));
    assert RelistStep(st, k) == SetPc(st, k, Committing(pc.locked, pc.m, pc.snap));
  }

  lemma RelistChange(st: State, k: nat)
    requires Inv(st) && HasPage(st, k) && st.cpus[k].pc.Peeked? && st.cpus[k].pc.locked
    requires (st.cpus[k].pc.l == MPartial) != (st.cpus[k].pc.m == MPartial)
    ensures Inv(RelistStep(st, k))
  {
    var s := st.cpus[k].page.value;
    if st.cpus[k].pc.l == MPartial {
      RelistOff(st, k, s);
    } else {
      RelistOn(st, k, s);
    }
  }

  lemma RelistOff(st: State, k: nat, s: SlabId)
    requires Inv(st) && HasPage(st, k) && st.cpus[k].page == Some(s) && st.cpus[k].pc.Peeked? && st.cpus[k].pc.locked
    requires st.cpus[k].pc.l == MPartial && st.cpus[k].pc.m != MPartial
    ensures Inv(RelistStep(st, k))
  {
    ListFor(st, k);
    ListTakeOff(st.partial, st.slabs, s);
    var pc := st.cpus[k].pc;
    PcLocks(st, k, Committing(pc.locked, pc.m, pc.snap), st.lock, st.partial - {s});
  }

  lemma RelistOn(st: State, k: nat, s: SlabId)
    requires Inv(st) && HasPage(st, k) && st.cpus[k].page == Some(s) && st.cpus[k].pc.Peeked? && st.cpus[k].pc.locked
    requires st.cpus[k].pc.l != MPartial && st.cpus[k].pc.m == MPartial
    ensures Inv(RelistStep(st, k))
  {
    ListFor(st, k);
    ListPutOn(st.partial, st.slabs, s);
    var pc := st.cpus[k].pc;
    PcLocks(st, k, Committing(pc.locked, pc.m, pc.snap), st.lock, st.partial + {s});
  }

  lemma LockPartialKeeps(st: State, k: nat)
    requires Inv(st) && IsCpu(st, k, NeedSlab) && st.lock == Unlocked
    ensures Inv(LockPartialStep(st, k))
  {
    ListFor(st, k);
    PcLocks(st, k, Searching, ByCpu(k), st.partial);
  }

  lemma GiveUpKeeps(st: State, k: nat)
    requires Inv(st) && IsCpu(st, k, Searching)
    ensures Inv(GiveUpStep(st, k))
  {
    ListFor(st, k);
    PcLocks(st, k, NeedNew, Unlocked, st.partial);
  }
}
