/** The steps of __slab_free(), and whole runs of the slab allocator. */
module SlubRun {
  import opened SlubList
  import opened Slub
  import opened SlubObjects
  import opened SlubInvariant
  import opened SlubSteps
  import opened SlubFree

  // ---------------------------------------------------------------- __slab_free()

  lemma FreerDone(fr: Freer, f: nat, next: Freer, place: map<Obj, Place>, now: map<Obj, Place>, o: Obj, q: Place)
    requires FreerOk(fr, f, place) && FreeingNow(fr) == Some(o) && Moved(place, now, {o}, Freeing(f), q) && !q.Freeing?
    requires FreeingNow(next) == None
    ensures FreerOk(next, f, now)
  {
    forall x
      ensures FreeingNow(next) == Some(x) <==> x in now && now[x] == Freeing(f)
    {
      assert FreeingNow(fr) == Some(x) <==> x in place && place[x] == Freeing(f);
    }
  }

  lemma FreerBegins(fr: Freer, f: nat, place: map<Obj, Place>, now: map<Obj, Place>, o: Obj, p: Place)
    requires FreerOk(fr, f, place) && FreeingNow(fr) == None && Moved(place, now, {o}, p, Freeing(f)) && !p.Freeing?
    ensures FreerOk(Begun(o), f, now)
  {
    forall x
      ensures FreeingNow(Begun(o)) == Some(x) <==> x in now && now[x] == Freeing(f)
    {
      assert !(x in place && place[x] == Freeing(f)) by {
        assert FreeingNow(fr) == Some(x) <==> x in place && place[x] == Freeing(f);
      }
    }
  }

  /** A call without the lock: nothing pending changes. */
  lemma FreerUnlocked(st: State, f: nat, fr: Freer)
    requires f < |st.freers| && LockOk(st.lock, st.cpus, st.freers) && !FreerHasLock(st.freers[f]) && !FreerHasLock(fr)
    ensures LockOk(st.lock, st.cpus, st.freers[f := fr])
    ensures PendingOf(st.lock, st.cpus, st.freers[f := fr]) == PendingOf(st.lock, st.cpus, st.freers)
  {
    LockFreer(st.lock, st.cpus, st.freers, f, fr, st.lock);
    PendingFreer(st.lock, st.cpus, st.freers, f, fr, st.lock);
  }

  lemma LinkingFreer(freers: seq<Freer>, slabs: map<SlabId, Slab>, f: nat, fr: Freer)
    requires LinkingOk(freers, slabs) && f < |freers| && !fr.Linking?
    ensures LinkingOk(freers[f := fr], slabs)
  {
  }

  lemma BeginFreeKeeps(st: State, f: nat, o: Obj)
    requires Inv(st) && f < |st.freers| && st.freers[f].Idle? && o in st.place && st.place[o] == Held
    ensures Inv(BeginFreeStep(st, f, o))
  {
    var now := st.place[o := Freeing(f)];
    MovedOne(st.place, o, Freeing(f));
    ObjectsMoved(st.slabs, st.owner, st.place, now, |st.cpus|, |st.freers|, {o}, Held, Freeing(f));
    SlabsOutside(st.slabs, st.owner, st.place, now, {o}, Held, Freeing(f));
    CpusOutside(st.cpus, st.owner, st.place, now, {o}, Held, Freeing(f));
    FreerBegins(st.freers[f], f, st.place, now, o, Held);
    FreersOne(st.freers, f, Begun(o), st.place, now, {o}, Held, Freeing(f));
    FreerUnlocked(st, f, Begun(o));
    LinkingFreer(st.freers, st.slabs, f, Begun(o));
  }

  /** The books after the object went back to its page. */
  lemma PushObjects(st: State, f: nat, next: Freer)
    requires ObjectsOk(st.slabs, st.owner, st.place, |st.cpus|, |st.freers|) && SlabsOk(st.slabs, st.owner, st.place)
    requires CpusOk(st.cpus, st.owner, st.place) && FreersOk(st.freers, st.place)
    requires HasObj(st, f) && FreeingNow(next) == None
    ensures var now := PushStep(st, f, next);
            && ObjectsOk(now.slabs, now.owner, now.place, |now.cpus|, |now.freers|)
                && SlabsOk(now.slabs, now.owner, now.place)
            && CpusOk(now.cpus, now.owner, now.place) && FreersOk(now.freers, now.place)
            && st.slabs[st.owner[st.freers[f].o]].inuse >= 1
  {
    var o := st.freers[f].o;
    var s := st.owner[o];
    var b := st.slabs[s];
    assert FreerOk(st.freers[f], f, st.place) && SlabOk(b, s, st.owner, st.place);
    assert FreeingNow(st.freers[f]) == Some(o);
    InuseCounts(b, s, st.owner, st.place, o);
    var now := st.place[o := InPage];
    MovedOne(st.place, o, InPage);
    ObjectsMoved(st.slabs, st.owner, st.place, now, |st.cpus|, |st.freers|, {o}, Freeing(f), InPage);
    ObjectsSlab(st.slabs, st.owner, now, |st.cpus|, |st.freers|, s, Push(b, o));
    SlabPush(b, s, st.owner, st.place, now, o, Freeing(f));
    SlabsOne(st.slabs, s, Push(b, o), st.owner, st.place, now, {o}, Freeing(f), InPage);
    CpusOutside(st.cpus, st.owner, st.place, now, {o}, Freeing(f), InPage);
    FreerDone(st.freers[f], f, next, st.place, now, o, InPage);
    FreersOne(st.freers, f, next, st.place, now, {o}, Freeing(f), InPage);
  }

  lemma LinkingPush(freers: seq<Freer>, slabs: map<SlabId, Slab>, f: nat, next: Freer, s: SlabId, o: Obj)
    requires LinkingOk(freers, slabs) && f < |freers| && s in slabs && slabs[s].inuse >= 1
    requires next.Linking? ==> next.s == s && slabs[s].frozen == None && next.inuse == slabs[s].inuse - 1
    ensures LinkingOk(freers[f := next], slabs[s := Push(slabs[s], o)])
  {
  }

  /** Without the lock: the slab is frozen, or stays on the partial list. */
  lemma FreeCasControl(st: State, f: nat, o: Obj, s: SlabId)
    requires LinkingOk(st.freers, st.slabs) && LockOk(st.lock, st.cpus, st.freers) && FrozenOk(st.slabs, st.cpus)
    requires ListOk(st.partial, st.slabs, PendingOf(st.lock, st.cpus, st.freers))
    requires f < |st.freers| && st.freers[f] == Begun(o) && s in st.slabs && st.slabs[s].inuse >= 1
             && !NeedsLock(SnapOf(st.slabs[s]))
    ensures var freers, slabs := st.freers[f := Idle], st.slabs[s := Push(st.slabs[s], o)];
            && LinkingOk(freers, slabs) && LockOk(st.lock, st.cpus, freers) && FrozenOk(slabs, st.cpus)
            && ListOk(st.partial, slabs, PendingOf(st.lock, st.cpus, freers))
  {
    FreerUnlocked(st, f, Idle);
    LinkingPush(st.freers, st.slabs, f, Idle, s, o);
    FrozenSlab(st.slabs, st.cpus, s, Push(st.slabs[s], o));
    ListSlab(st.partial, st.slabs, PendingOf(st.lock, st.cpus, st.freers), s, Push(st.slabs[s], o));
  }

  lemma FreeCasKeeps(st: State, f: nat)
    requires Inv(st) && HasObj(st, f) && st.freers[f].Begun? && !NeedsLock(SnapOf(st.slabs[st.owner[st.freers[f].o]]))
    ensures Inv(PushStep(st, f, Idle))
  {
    PushObjects(st, f, Idle);
    FreeCasControl(st, f, st.freers[f].o, st.owner[st.freers[f].o]);
  }

  /** A call moves along and its object stays where it is. */
  lemma FreerStays(st: State, f: nat, fr: Freer)
    requires FreersOk(st.freers, st.place) && f < |st.freers| && FreeingNow(fr) == FreeingNow(st.freers[f])
    requires (fr.Wanting? ==> NeedsLock(fr.snap)) && (fr.Locked? ==> NeedsLock(fr.snap))
    ensures FreersOk(st.freers[f := fr], st.place)
  {
    assert FreerOk(st.freers[f], f, st.place);
  }

  lemma FreePeekKeeps(st: State, f: nat)
    requires Inv(st) && HasObj(st, f) && st.freers[f].Begun? && NeedsLock(SnapOf(st.slabs[st.owner[st.freers[f].o]]))
    ensures Inv(FreePeekStep(st, f))
  {
    var o := st.freers[f].o;
    var fr := Wanting(o, SnapOf(st.slabs[st.owner[o]]));
    FreerStays(st, f, fr);
    FreerUnlocked(st, f, fr);
    LinkingFreer(st.freers, st.slabs, f, fr);
  }

  lemma FreeLockKeeps(st: State, f: nat)
    requires Inv(st) && f < |st.freers| && st.freers[f].Wanting? && st.lock == Unlocked
    ensures Inv(FreeLockStep(st, f))
  {
    var fr := Locked(st.freers[f].o, st.freers[f].snap);
    assert FreerOk(st.freers[f], f, st.place);
    FreerStays(st, f, fr);
    LinkingFreer(st.freers, st.slabs, f, fr);
    LockFreer(st.lock, st.cpus, st.freers, f, fr, ByFreer(f));
    PendingFreer(st.lock, st.cpus, st.freers, f, fr, ByFreer(f));
  }

  /** The compare-and-exchange failed: the lock is dropped without any processing. */
  lemma FreeRetryKeeps(st: State, f: nat)
    requires Inv(st) && f < |st.freers| && st.freers[f].Locked?
    ensures Inv(SetFreer(st, f, Begun(st.freers[f].o)).(lock := Unlocked))
  {
    var fr := Begun(st.freers[f].o);
    FreerStays(st, f, fr);
    LinkingFreer(st.freers, st.slabs, f, fr);
    LockFreer(st.lock, st.cpus, st.freers, f, fr, Unlocked);
    PendingFreer(st.lock, st.cpus, st.freers, f, fr, Unlocked);
  }

  lemma ListPush(partial: set<SlabId>, slabs: map<SlabId, Slab>, s: SlabId, o: Obj)
    requires ListOk(partial, slabs, Nothing) && s in slabs && slabs[s].frozen == None
    ensures ListOk(partial, slabs[s := Push(slabs[s], o)], if slabs[s].freelist == Nil then Adding(s) else Nothing)
  {
  }

  /** With the lock: a slab that was full is now to be added to the partial list. */
  lemma FreeLinkControl(st: State, f: nat, o: Obj, s: SlabId, fr: Freer)
    requires LinkingOk(st.freers, st.slabs) && LockOk(st.lock, st.cpus, st.freers) && FrozenOk(st.slabs, st.cpus)
    requires ListOk(st.partial, st.slabs, PendingOf(st.lock, st.cpus, st.freers))
    requires f < |st.freers| && st.freers[f].Locked? && s in st.slabs && st.slabs[s].inuse >= 1 && st.slabs[s].frozen == None
    requires fr == Linking(s, st.slabs[s].freelist == Nil, st.slabs[s].inuse - 1)
    ensures var freers, slabs := st.freers[f := fr], st.slabs[s := Push(st.slabs[s], o)];
            && LinkingOk(freers, slabs) && LockOk(st.lock, st.cpus, freers) && FrozenOk(slabs, st.cpus)
            && ListOk(st.partial, slabs, PendingOf(st.lock, st.cpus, freers))
  {
    LinkingPush(st.freers, st.slabs, f, fr, s, o);
    LockFreer(st.lock, st.cpus, st.freers, f, fr, st.lock);
    PendingFreer(st.lock, st.cpus, st.freers, f, fr, st.lock);
    FrozenSlab(st.slabs, st.cpus, s, Push(st.slabs[s], o));
    ListPush(st.partial, st.slabs, s, o);
  }

  lemma FreeLinkKeeps(st: State, f: nat, o: Obj, s: SlabId, fr: Freer)
    requires Inv(st) && HasObj(st, f) && st.freers[f].Locked? && o == st.freers[f].o && s == st.owner[o]
    requires SnapOf(st.slabs[s]) == st.freers[f].snap && fr == Linking(s, st.slabs[s].freelist == Nil, st.slabs[s].inuse - 1)
    ensures Inv(PushStep(st, f, fr))
  {
    assert FreerOk(st.freers[f], f, st.place);
    PushObjects(st, f, fr);
    FreeLinkControl(st, f, o, s, fr);
  }

  lemma FreeLockedCasKeeps(st: State, f: nat)
    requires Inv(st) && HasObj(st, f) && st.freers[f].Locked?
    ensures Inv(FreeLockedCasStep(st, f))
  {
    var o := st.freers[f].o;
    var s := st.owner[o];
    var b := st.slabs[s];
    if SnapOf(b) == st.freers[f].snap {
      FreeLinkKeeps(st, f, o, s, Linking(s, b.freelist == Nil, b.inuse - 1));
    } else {
      FreeRetryKeeps(st, f);
    }
  }

  lemma ListAdd(partial: set<SlabId>, slabs: map<SlabId, Slab>, s: SlabId)
    requires ListOk(partial, slabs, Adding(s)) && s in slabs && Wants(slabs[s])
    ensures ListOk(partial + {s}, slabs, Nothing)
  {
  }

  /** A call puts its slab on the list, or leaves it there, and drops the lock. */
  lemma LinkAddKeeps(st: State, f: nat)
    requires Inv(st) && f < |st.freers| && st.freers[f].Linking?
    ensures Inv(LinkAddStep(st, f))
  {
    var fr := st.freers[f];
    FreerStays(st, f, Idle);
    LinkingFreer(st.freers, st.slabs, f, Idle);
    LockFreer(st.lock, st.cpus, st.freers, f, Idle, Unlocked);
    PendingFreer(st.lock, st.cpus, st.freers, f, Idle, Unlocked);
    if fr.wasEmpty {
      ListAdd(st.partial, st.slabs, fr.s);
    }
  }

  lemma LinkDiscardControl(st: State, f: nat)
    requires LinkingOk(st.freers, st.slabs) && LockOk(st.lock, st.cpus, st.freers) && FrozenOk(st.slabs, st.cpus)
    requires ListOk(st.partial, st.slabs, PendingOf(st.lock, st.cpus, st.freers))
    requires f < |st.freers| && st.freers[f].Linking? && st.freers[f].s in st.slabs
    ensures var now := LinkDiscardStep(st, f);
            && LinkingOk(now.freers, now.slabs) && LockOk(now.lock, now.cpus, now.freers) && FrozenOk(now.slabs, now.cpus)
            && ListOk(now.partial, now.slabs, PendingOf(now.lock, now.cpus, now.freers))
  {
    var s := st.freers[f].s;
    LinkingFreer(st.freers, st.slabs, f, Idle);
    LockFreer(st.lock, st.cpus, st.freers, f, Idle, Unlocked);
    PendingFreer(st.lock, st.cpus, st.freers, f, Idle, Unlocked);
    forall g | 0 <= g < |st.freers| && g != f
      ensures !st.freers[g].Linking?
    {
      assert !FreerHasLock(st.freers[g]);
    }
    DiscardControl(SetFreer(st, f, Idle).(lock := Unlocked), s);
  }

  /** A slab that became empty is discarded: nobody has any of its objects. */
  lemma LinkDiscardKeeps(st: State, f: nat)
    requires Inv(st) && f < |st.freers| && st.freers[f].Linking? && st.freers[f].inuse == 0
    ensures st.freers[f].s in st.slabs && Inv(LinkDiscardStep(st, f))
  {
    var s := st.freers[f].s;
    var now := SetFreer(st, f, Idle).(lock := Unlocked);
    FreerStays(st, f, Idle);
    LeavesNone(st, s);
    DiscardObjects(now, s);
    DiscardHolders(now, s);
    LinkDiscardControl(st, f);
  }

  lemma LinkKeeps(st: State, f: nat, surplus: bool)
    requires Inv(st) && f < |st.freers| && st.freers[f].Linking? && (surplus ==> st.freers[f].inuse == 0)
    ensures Inv(LinkStep(st, f, surplus))
  {
    LinkSlab(st.freers, st.slabs, f);
    if surplus {
      LinkDiscardKeeps(st, f);
    } else {
      LinkAddKeeps(st, f);
    }
  }

  lemma LinkSlab(freers: seq<Freer>, slabs: map<SlabId, Slab>, f: nat)
    requires LinkingOk(freers, slabs) && f < |freers| && freers[f].Linking?
    ensures freers[f].s in slabs
  {
  }

  // ---------------------------------------------------------------- runs

  lemma GetFreelistKeeps(st: State, k: nat)
    requires Inv(st) && AllocEnabled(st, k, GetFreelist)
    ensures Inv(AllocStep(st, k, GetFreelist))
  {
    var s := st.cpus[k].page.value;
    if st.slabs[s].freelist != Nil {
      GetKeeps(st, k, s);
    } else {
      LeaveKeeps(st, k, s);
    }
  }

  lemma PlainKeeps(st: State, k: nat, pc: Pc)
    requires Inv(st) && k < |st.cpus| && !HasLock(st.cpus[k].pc) && !HasLock(pc)
    requires PcOk(st.cpus[k]) ==> PcOk(st.cpus[k].(pc := pc))
    ensures Inv(SetPc(st, k, pc))
  {
    assert CpuOk(st.cpus[k], k, st.owner, st.place);
    PcAlone(st, k, pc);
  }

  lemma AllocKeeps(st: State, k: nat, a: AllocAction)
    requires Inv(st) && AllocEnabled(st, k, a)
    ensures Inv(AllocStep(st, k, a))
  {
    match a {
      case AllocFast => PopKeeps(st, k);
      case FreeFast(o) => FreeFastKeeps(st, k, o);
      case GetFreelist => GetFreelistKeeps(st, k);
      case NoPage => PlainKeeps(st, k, NeedSlab);
      case LockPartial => LockPartialKeeps(st, k);
      case Acquire(s) => AcquireKeeps(st, k, s);
      case Unlink => UnlinkKeeps(st, k);
      case GiveUp => GiveUpKeeps(st, k);
      case SkipPartial => PlainKeeps(st, k, NeedNew);
      case NewSlab(s, objs) => NewSlabKeeps(st, k, s, objs);
      case NoMemory => PlainKeeps(st, k, Ready);
      case Load => PopKeeps(st, k);
    }
  }

  lemma CommitKeeps(st: State, k: nat)
    requires Inv(st) && HasPage(st, k) && st.cpus[k].pc.Committing?
    ensures Inv(CommitStep(st, k))
  {
    var c := st.cpus[k];
    var s := c.page.value;
    if SnapOf(st.slabs[s]) != c.pc.snap {
      CommitFails(st, k);
    } else if c.pc.m == MFree {
      UnfreezeDiscardKeeps(st, k, s);
    } else {
      UnfreezeKeeps(st, k, s);
    }
  }

  lemma CommitFails(st: State, k: nat)
    requires Inv(st) && HasPage(st, k) && st.cpus[k].pc.Committing?
    ensures Inv(SetPc(st, k, Redo(st.cpus[k].pc.locked, st.cpus[k].pc.m)))
  {
    assert CpuOk(st.cpus[k], k, st.owner, st.place);
    PcStays(st, k, Redo(st.cpus[k].pc.locked, st.cpus[k].pc.m));
  }

  lemma FlushKeeps(st: State, k: nat, a: FlushAction, minPartial: nat)
    requires Inv(st) && FlushEnabled(st, k, a)
    ensures Inv(FlushStep(st, k, a, minPartial))
  {
    match a {
      case BeginFlush => PlainKeeps(st, k, Draining);
      case Drain => DrainKeeps(st, k, st.cpus[k].page.value);
      case Drained => PlainKeeps(st, k, Redo(false, MNone));
      case Peek(nr) => PeekKeeps(st, k, nr, minPartial);
      case LockList => LockListKeeps(st, k);
      case Relist => RelistKeeps(st, k);
      case Commit => CommitKeeps(st, k);
    }
  }

  lemma FreeKeeps(st: State, f: nat, a: FreeAction, minPartial: nat)
    requires Inv(st) && FreeEnabled(st, f, a)
    ensures Inv(FreeStep(st, f, a, minPartial))
  {
    match a {
      case BeginFree(o) => BeginFreeKeeps(st, f, o);
      case FreeCas => FreeCasKeeps(st, f);
      case FreePeek => FreePeekKeeps(st, f);
      case FreeLock => FreeLockKeeps(st, f);
      case FreeLockedCas => FreeLockedCasKeeps(st, f);
      case Link => LinkKeeps(st, f, Surplus(st, f, minPartial));
    }
  }

  lemma StepKeeps(st: State, a: Action, minPartial: nat)
    requires Inv(st) && Enabled(st, a)
    ensures Inv(Apply(st, a, minPartial))
  {
    match a {
      case Alloc(k, x) => AllocKeeps(st, k, x);
      case Flush(k, x) => FlushKeeps(st, k, x, minPartial);
      case Free(f, x) => FreeKeeps(st, f, x, minPartial);
    }
  }

  lemma StartIsGood(cpus: nat, freers: nat)
    ensures Inv(Start(cpus, freers))
  {
  }

  /** Every run, however its steps interleave, keeps the invariant. */
  lemma {:induction false} RunKeeps(cpus: nat, freers: nat, minPartial: nat, actions: seq<Action>, st: State)
    requires Reaches(cpus, freers, minPartial, actions, st)
    ensures Inv(st)
    decreases |actions|
  {
    if actions == [] {
      StartIsGood(cpus, freers);
    } else {
      var n := |actions| - 1;
      var before :| Reaches(cpus, freers, minPartial, actions[..n], before) && Enabled(before, actions[n])
                    && st == Apply(before, actions[n], minPartial);
      RunKeeps(cpus, freers, minPartial, actions[..n], before);
      StepKeeps(before, actions[n], minPartial);
    }
  }

  // ---------------------------------------------------------------- what the invariant says

  /** Every object is in exactly one place: its own page's freelist, one CPU's list, one free in progress, or with a caller. */
  lemma EveryObjectOnce(st: State, o: Obj)
    requires Inv(st) && o in st.owner
    ensures o in st.place && st.owner[o] in st.slabs
    ensures forall s :: s in st.slabs ==> (o in Elems(st.slabs[s].freelist) <==> s == st.owner[o] && st.place[o] == InPage)
    ensures forall k :: 0 <= k < |st.cpus| ==> (o in Elems(st.cpus[k].list) <==> st.place[o] == OnCpu(k))
    ensures forall f :: 0 <= f < |st.freers| ==> (FreeingNow(st.freers[f]) == Some(o) <==> st.place[o] == Freeing(f))
  {
    forall s | s in st.slabs
      ensures o in Elems(st.slabs[s].freelist) <==> s == st.owner[o] && st.place[o] == InPage
    {
      assert SlabOk(st.slabs[s], s, st.owner, st.place);
    }
    forall k | 0 <= k < |st.cpus|
      ensures o in Elems(st.cpus[k].list) <==> st.place[o] == OnCpu(k)
    {
      assert CpuOk(st.cpus[k], k, st.owner, st.place);
    }
    forall f | 0 <= f < |st.freers|
      ensures FreeingNow(st.freers[f]) == Some(o) <==> st.place[o] == Freeing(f)
    {
      assert FreerOk(st.freers[f], f, st.place);
    }
  }

  /** Counters and lists: inuse and the freelist make up the slab, and whenever the lock is free a slab is on the partial list
      if and only if it is not frozen and has free objects. */
  lemma SlabStates(st: State, s: SlabId)
    requires Inv(st) && s in st.slabs
    ensures st.slabs[s].inuse + Len(st.slabs[s].freelist) == |st.slabs[s].objs|
    ensures st.lock == Unlocked ==> (s in st.partial <==> st.slabs[s].frozen == None && st.slabs[s].freelist != Nil)
  {
    assert SlabOk(st.slabs[s], s, st.owner, st.place);
  }

  /** A caller has the object, or is freeing it. */
  predicate Live(st: State, o: Obj) {
    o in st.place && (st.place[o] == Held || st.place[o].Freeing?)
  }

  lemma DiscardSpares(st: State, s: SlabId, o: Obj)
    requires s in st.slabs && Live(st, o) && forall x :: x in st.slabs[s].objs ==> x in st.place && st.place[x] == InPage
    ensures o in Discard(st, s).place
  {
  }

  lemma CommitDiscardSpares(st: State, k: nat, s: SlabId, o: Obj)
    requires Inv(st) && HasPage(st, k) && st.cpus[k].page == Some(s) && st.cpus[k].pc.Committing? && st.cpus[k].pc.m == MFree
    requires SnapOf(st.slabs[s]) == st.cpus[k].pc.snap && Live(st, o) && Live(UnfreezeStep(st, k), o)
    ensures o in Discard(UnfreezeStep(st, k), s).place
  {
    assert CpuOk(st.cpus[k], k, st.owner, st.place);
    UnfreezeObjects(st, k, s);
    FreeTarget(st, k, s);
    LeavesNone(UnfreezeStep(st, k), s);
    DiscardSpares(UnfreezeStep(st, k), s, o);
  }

  lemma UnfreezeSpares(c: Cpu, k: nat, owner: map<Obj, SlabId>, place: map<Obj, Place>, o: Obj)
    requires CpuOk(c, k, owner, place) && o in place && !place[o].OnCpu?
    ensures o in Assign(place, c.list, InPage) && Assign(place, c.list, InPage)[o] == place[o]
  {
    AssignIs(place, c.list, InPage);
  }

  lemma CommitSpares(st: State, k: nat, o: Obj)
    requires Inv(st) && HasPage(st, k) && st.cpus[k].pc.Committing? && Live(st, o)
    ensures o in CommitStep(st, k).place
  {
    var c := st.cpus[k];
    var s := c.page.value;
    UnfreezeSpares(c, k, st.owner, st.place, o) by {
      assert CpuOk(c, k, st.owner, st.place);
    }
    if SnapOf(st.slabs[s]) == c.pc.snap && c.pc.m == MFree {
      CommitDiscardSpares(st, k, s, o);
    }
  }

  lemma FlushSpares(st: State, k: nat, a: FlushAction, minPartial: nat, o: Obj)
    requires Inv(st) && FlushEnabled(st, k, a) && Live(st, o)
    ensures o in FlushStep(st, k, a, minPartial).place
  {
    if a == Commit {
      CommitSpares(st, k, o);
    }
  }

  lemma LinkSpares(st: State, f: nat, surplus: bool, o: Obj)
    requires Inv(st) && f < |st.freers| && st.freers[f].Linking? && Live(st, o) && (surplus ==> st.freers[f].inuse == 0)
    ensures o in LinkStep(st, f, surplus).place
  {
    LinkSlab(st.freers, st.slabs, f);
    if surplus {
      LeavesNone(st, st.freers[f].s);
      DiscardSpares(SetFreer(st, f, Idle).(lock := Unlocked), st.freers[f].s, o);
    }
  }

  lemma FreeSpares(st: State, f: nat, a: FreeAction, minPartial: nat, o: Obj)
    requires Inv(st) && FreeEnabled(st, f, a) && Live(st, o)
    ensures o in FreeStep(st, f, a, minPartial).place
  {
    if a == Link {
      LinkSpares(st, f, Surplus(st, f, minPartial), o);
    }
  }

  lemma AllocSpares(st: State, k: nat, a: AllocAction, o: Obj)
    requires AllocEnabled(st, k, a) && o in st.place
    ensures o in AllocStep(st, k, a).place
  {
    match a {
      case GetFreelist => AssignIs(st.place, st.slabs[st.cpus[k].page.value].freelist, OnCpu(k));
      case Acquire(s) => AssignIs(st.place, st.slabs[s].freelist, OnCpu(k));
      case NewSlab(_, objs) => AssignIs(st.place, objs, OnCpu(k));
      case _ =>
    }
  }

  /** A slab is never discarded while a caller has one of its objects: no step takes a live object away. */
  lemma LiveObjectsStay(st: State, a: Action, minPartial: nat, o: Obj)
    requires Inv(st) && Enabled(st, a) && Live(st, o)
    ensures o in Apply(st, a, minPartial).place
  {
    match a {
      case Alloc(k, x) => AllocSpares(st, k, x, o);
      case Flush(k, x) => FlushSpares(st, k, x, minPartial, o);
      case Free(f, x) => FreeSpares(st, f, x, minPartial, o);
    }
  }
}
