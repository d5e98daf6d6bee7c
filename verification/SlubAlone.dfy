/** What the slow paths of the slab allocator come to when nothing comes in between: an allocation gets its object, a free gives
    its object back, and a flush gives back all that its CPU has. */
module SlubAlone {
  import opened SlubList
  import opened Slub
  import opened SlubObjects
  import opened SlubInvariant
  import opened SlubSteps
  import opened SlubFree
  import opened SlubRun
  import opened SlubLedger

  /** These actions, one after the other, lead from one state to another; each is enabled when it happens. */
  ghost predicate Leads(st: State, run: seq<Action>, minPartial: nat, now: State)
    decreases |run|
  {
    if run == [] then now == st
    else
      var n := |run| - 1;
      exists mid :: Leads(st, run[..n], minPartial, mid) && Enabled(mid, run[n]) && now == Apply(mid, run[n], minPartial)
  }

  lemma Then(st: State, run: seq<Action>, mid: State, a: Action, minPartial: nat)
    requires Leads(st, run, minPartial, mid) && Enabled(mid, a)
    ensures Leads(st, run + [a], minPartial, Apply(mid, a, minPartial))
  {
    assert (run + [a])[..|run|] == run;
  }

  /** The CPU has this page and list and is outside the slow paths; the caller has `o`. */
  predicate Served(now: State, k: nat, page: SlabId, rest: List, o: Obj) {
    k < |now.cpus| && now.cpus[k] == Cpu(Some(page), rest, Ready) && o in now.place && now.place[o] == Held
  }

  lemma WithoutPage(st: State, k: nat, minPartial: nat) returns (run: seq<Action>)
    requires IsCpu(st, k, Ready) && st.cpus[k].page == None
    ensures Leads(st, run, minPartial, SetPc(st, k, NeedSlab))
  {
    assert Leads(st, [], minPartial, st);
    Then(st, [], st, Alloc(k, NoPage), minPartial);
    run := [] + [Alloc(k, NoPage)];
  }

  lemma Loads(st: State, run0: seq<Action>, mid: State, k: nat, minPartial: nat) returns (run: seq<Action>)
    requires Leads(st, run0, minPartial, mid) && IsCpu(mid, k, Loading) && mid.cpus[k].list != Nil && mid.cpus[k].page.Some?
    ensures Leads(st, run, minPartial, PopStep(mid, k))
    ensures Served(PopStep(mid, k), k, mid.cpus[k].page.value, mid.cpus[k].list.tail, mid.cpus[k].list.head)
  {
    Then(st, run0, mid, Alloc(k, Load), minPartial);
    run := run0 + [Alloc(k, Load)];
  }

  /** A CPU without a page gets a new slab: the first object goes to the caller, the others stay on the CPU's list. */
  lemma NewSlabServes(st: State, k: nat, s: SlabId, objs: List, minPartial: nat) returns (run: seq<Action>, now: State)
    requires IsCpu(st, k, Ready) && st.cpus[k].page == None && Fresh(st, s, objs)
    ensures Leads(st, run, minPartial, now) && Served(now, k, s, objs.tail, objs.head)
  {
    run := WithoutPage(st, k, minPartial);
    var s1 := SetPc(st, k, NeedSlab);
    Then(st, run, s1, Alloc(k, SkipPartial), minPartial);
    run := run + [Alloc(k, SkipPartial)];
    var s2 := SetPc(s1, k, NeedNew);
    Then(st, run, s2, Alloc(k, NewSlab(s, objs)), minPartial);
    run := run + [Alloc(k, NewSlab(s, objs))];
    var s3 := NewSlabStep(s2, k, s, objs);
    run := Loads(st, run, s3, k, minPartial);
    now := PopStep(s3, k);
  }

  /** A CPU whose own page has got objects back takes them all. */
  lemma OwnPageServes(st: State, k: nat, minPartial: nat) returns (run: seq<Action>, now: State)
    requires IsCpu(st, k, Ready) && HasPage(st, k) && st.cpus[k].list == Nil
             && st.slabs[st.cpus[k].page.value].freelist != Nil
    ensures Leads(st, run, minPartial, now)
    ensures var s := st.cpus[k].page.value; Served(now, k, s, st.slabs[s].freelist.tail, st.slabs[s].freelist.head)
  {
    assert Leads(st, [], minPartial, st);
    Then(st, [], st, Alloc(k, GetFreelist), minPartial);
    run := Loads(st, [] + [Alloc(k, GetFreelist)], TakeStep(st, k, st.cpus[k].page.value, Loading), k, minPartial);
    now := PopStep(TakeStep(st, k, st.cpus[k].page.value, Loading), k);
  }

  /** A CPU without a page takes a slab off the partial list, with all its free objects. */
  lemma PartialServes(st: State, k: nat, s: SlabId, minPartial: nat) returns (run: seq<Action>, now: State)
    requires Inv(st) && IsCpu(st, k, Ready) && st.cpus[k].page == None && st.lock == Unlocked && s in st.partial
    ensures s in st.slabs && st.slabs[s].freelist != Nil && Leads(st, run, minPartial, now)
    ensures Served(now, k, s, st.slabs[s].freelist.tail, st.slabs[s].freelist.head)
    ensures now.lock == Unlocked && now.partial == st.partial - {s}
  {
    SlabStates(st, s);
    run := WithoutPage(st, k, minPartial);
    var s1 := SetPc(st, k, NeedSlab);
    Then(st, run, s1, Alloc(k, LockPartial), minPartial);
    run := run + [Alloc(k, LockPartial)];
    run, now := AcquireServes(st, run, LockPartialStep(s1, k), k, s, minPartial);
  }

  lemma AcquireServes(st: State, run0: seq<Action>, mid: State, k: nat, s: SlabId, minPartial: nat)
    returns (run: seq<Action>, now: State)
    requires Leads(st, run0, minPartial, mid) && IsCpu(mid, k, Searching) && s in mid.partial && s in mid.slabs
    requires mid.slabs[s].freelist != Nil
    ensures Leads(st, run, minPartial, now) && Served(now, k, s, mid.slabs[s].freelist.tail, mid.slabs[s].freelist.head)
    ensures now.lock == Unlocked && now.partial == mid.partial - {s}
  {
    Then(st, run0, mid, Alloc(k, Acquire(s)), minPartial);
    run := run0 + [Alloc(k, Acquire(s))];
    var s1 := TakeStep(mid, k, s, Acquired);
    Then(st, run, s1, Alloc(k, Unlink), minPartial);
    run := run + [Alloc(k, Unlink)];
    var s2 := UnlinkStep(s1, k);
    run := Loads(st, run, s2, k, minPartial);
    now := PopStep(s2, k);
  }

  // ---------------------------------------------------------------- a free

  /** The call is over, and the object is on its page's freelist; or its page was empty and is gone. */
  predicate GivenBack(st: State, now: State, f: nat, o: Obj) {
    && f < |now.freers| && now.freers[f] == Idle && now.lock == Unlocked
    && if o in now.place then now.place[o] == InPage else o in st.owner && st.owner[o] !in now.slabs
  }

  /** A free that needs no lock puts its object on the page's freelist; any other takes the lock, and lists or discards the
      page. */
  lemma FreeGivesBack(st: State, f: nat, o: Obj, minPartial: nat) returns (run: seq<Action>, now: State)
    requires Inv(st) && f < |st.freers| && st.freers[f].Idle? && o in st.place && st.place[o] == Held && st.lock == Unlocked
    ensures Leads(st, run, minPartial, now) && GivenBack(st, now, f, o)
  {
    assert Leads(st, [], minPartial, st);
    Then(st, [], st, Free(f, BeginFree(o)), minPartial);
    run := [] + [Free(f, BeginFree(o))];
    var s1 := BeginFreeStep(st, f, o);
    assert o in st.owner && HasObj(s1, f);
    if NeedsLock(SnapOf(s1.slabs[s1.owner[o]])) {
      run, now := LockedGivesBack(st, run, s1, f, o, minPartial);
    } else {
      Then(st, run, s1, Free(f, FreeCas), minPartial);
      run := run + [Free(f, FreeCas)];
      now := PushStep(s1, f, Idle);
    }
  }

  lemma LockedGivesBack(st: State, run0: seq<Action>, s1: State, f: nat, o: Obj, minPartial: nat)
    returns (run: seq<Action>, now: State)
    requires Leads(st, run0, minPartial, s1) && HasObj(s1, f) && s1.freers[f] == Begun(o) && s1.lock == Unlocked
    requires NeedsLock(SnapOf(s1.slabs[s1.owner[o]])) && s1.owner == st.owner
    ensures Leads(st, run, minPartial, now) && GivenBack(st, now, f, o)
  {
    Then(st, run0, s1, Free(f, FreePeek), minPartial);
    run := run0 + [Free(f, FreePeek)];
    var s2 := FreePeekStep(s1, f);
    Then(st, run, s2, Free(f, FreeLock), minPartial);
    run := run + [Free(f, FreeLock)];
    var s3 := FreeLockStep(s2, f);
    Then(st, run, s3, Free(f, FreeLockedCas), minPartial);
    run := run + [Free(f, FreeLockedCas)];
    var s4 := FreeLockedCasStep(s3, f);
    run, now := LinkGivesBack(st, run, s4, f, o, minPartial);
  }

  lemma LinkGivesBack(st: State, run0: seq<Action>, s4: State, f: nat, o: Obj, minPartial: nat)
    returns (run: seq<Action>, now: State)
    requires Leads(st, run0, minPartial, s4) && f < |s4.freers| && s4.freers[f].Linking? && o in s4.place
             && s4.place[o] == InPage
    requires o in st.owner && s4.freers[f].s == st.owner[o]
    ensures Leads(st, run, minPartial, now) && GivenBack(st, now, f, o)
  {
    Then(st, run0, s4, Free(f, Link), minPartial);
    run := run0 + [Free(f, Link)];
    now := LinkStep(s4, f, Surplus(s4, f, minPartial));
  }

  // ---------------------------------------------------------------- a flush

  /** The CPU stands at the drain with this page, and those of its objects that it no longer has are on the page. */
  ghost predicate AtDrain(now: State, k: nat, s: SlabId, was: List) {
    && HasPage(now, k) && now.cpus[k].page == Some(s) && now.cpus[k].pc == Draining && now.lock == Unlocked
    && forall o :: o in Elems(was) ==> o in Elems(now.cpus[k].list) || (o in now.place && now.place[o] == InPage)
  }

  /** All objects but the last go back one by one. */
  lemma {:induction false} Drains(st: State, run0: seq<Action>, mid: State, k: nat, s: SlabId, was: List, minPartial: nat)
      returns (run: seq<Action>, now: State)
    requires Leads(st, run0, minPartial, mid) && AtDrain(mid, k, s, was)
    ensures Leads(st, run, minPartial, now) && AtDrain(now, k, s, was) && Len(now.cpus[k].list) <= 1
    decreases Len(mid.cpus[k].list)
  {
    if Len(mid.cpus[k].list) <= 1 {
      run, now := run0, mid;
    } else {
      Then(st, run0, mid, Flush(k, Drain), minPartial);
      var next := DrainStep(mid, k);
      run, now := Drains(st, run0 + [Flush(k, Drain)], next, k, s, was, minPartial);
    }
  }

  /** The CPU has no page any more, and whatever was on its list is on the page, unless the page is gone. */
  ghost predicate Flushed(now: State, k: nat, s: SlabId, was: List) {
    && k < |now.cpus| && now.cpus[k] == Cpu(None, Nil, Ready) && now.lock == Unlocked
    && forall o :: o in Elems(was) ==> if o in now.place then now.place[o] == InPage else s !in now.slabs
  }

  lemma Commits(st: State, run0: seq<Action>, mid: State, k: nat, s: SlabId, was: List, locked: bool, m: Mode,
      minPartial: nat)
      returns (run: seq<Action>, now: State)
    requires Leads(st, run0, minPartial, mid) && HasPage(mid, k) && mid.cpus[k].page == Some(s)
    requires mid.cpus[k].pc == Committing(locked, m, SnapOf(mid.slabs[s]))
             && mid.lock == if locked then ByCpu(k) else Unlocked
    requires forall o :: o in Elems(was) ==> o in Elems(mid.cpus[k].list) || (o in mid.place && mid.place[o] == InPage)
    ensures Leads(st, run, minPartial, now) && Flushed(now, k, s, was)
  {
    Then(st, run0, mid, Flush(k, Commit), minPartial);
    run := run0 + [Flush(k, Commit)];
    now := CommitStep(mid, k);
    AssignIs(mid.place, mid.cpus[k].list, InPage);
  }

  lemma Relists(st: State, run0: seq<Action>, mid: State, k: nat, s: SlabId, was: List, locked: bool, m: Mode,
      minPartial: nat)
      returns (run: seq<Action>, now: State)
    requires Leads(st, run0, minPartial, mid) && HasPage(mid, k) && mid.cpus[k].page == Some(s) && (m == MPartial ==> locked)
    requires mid.cpus[k].pc == Peeked(locked, MNone, m, SnapOf(mid.slabs[s]))
             && mid.lock == if locked then ByCpu(k) else Unlocked
    requires forall o :: o in Elems(was) ==> o in Elems(mid.cpus[k].list) || (o in mid.place && mid.place[o] == InPage)
    ensures Leads(st, run, minPartial, now) && Flushed(now, k, s, was)
  {
    Then(st, run0, mid, Flush(k, Relist), minPartial);
    run, now := Commits(st, run0 + [Flush(k, Relist)], RelistStep(mid, k), k, s, was, locked, m, minPartial);
  }

  lemma Unfreezes(st: State, run0: seq<Action>, mid: State, k: nat, s: SlabId, was: List, nr: nat, minPartial: nat)
      returns (run: seq<Action>, now: State)
    requires Leads(st, run0, minPartial, mid) && AtDrain(mid, k, s, was) && Len(mid.cpus[k].list) <= 1
    ensures Leads(st, run, minPartial, now) && Flushed(now, k, s, was)
  {
    Then(st, run0, mid, Flush(k, Drained), minPartial);
    run := run0 + [Flush(k, Drained)];
    var s1 := SetPc(mid, k, Redo(false, MNone));
    Then(st, run, s1, Flush(k, Peek(nr)), minPartial);
    run := run + [Flush(k, Peek(nr))];
    var s2 := PeekStep(s1, k, nr, minPartial);
    var m := s2.cpus[k].pc.m;
    if m == MPartial {
      Then(st, run, s2, Flush(k, LockList), minPartial);
      run, now := Relists(st, run + [Flush(k, LockList)], LockListStep(s2, k), k, s, was, true, m, minPartial);
    } else {
      run, now := Relists(st, run, s2, k, s, was, false, m, minPartial);
    }
  }

  lemma FlushGivesBack(st: State, k: nat, nr: nat, minPartial: nat) returns (run: seq<Action>, now: State)
    requires HasPage(st, k) && st.cpus[k].pc == Ready && st.lock == Unlocked
    ensures Leads(st, run, minPartial, now) && Flushed(now, k, st.cpus[k].page.value, st.cpus[k].list)
  {
    var s, was := st.cpus[k].page.value, st.cpus[k].list;
    assert Leads(st, [], minPartial, st);
    Then(st, [], st, Flush(k, BeginFlush), minPartial);
    var mid;
    run, mid := Drains(st, [] + [Flush(k, BeginFlush)], SetPc(st, k, Draining), k, s, was, minPartial);
    run, now := Unfreezes(st, run, mid, k, s, was, nr, minPartial);
  }
}
