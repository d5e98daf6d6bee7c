/** What every step of the slab allocator does to the objects, and what callers get over a whole run. */
module SlubLedger {
  import opened SlubList
  import opened Slub
  import opened SlubObjects
  import opened SlubInvariant
  import opened SlubSteps
  import opened SlubFree
  import opened SlubRun

  /** Where an object is; None if it does not exist. */
  function PlaceIn(place: map<Obj, Place>, o: Obj): Option<Place> {
    if o in place then Some(place[o]) else None
  }

  /** These objects go from one of these places to another; no other object moves. */
  datatype Change = Change(objs: set<Obj>, from: set<Option<Place>>, to: Option<Place>)

  const NONE := Change({}, {}, None)

  function Foremost(l: List): set<Obj> {
    if l == Nil then {} else {l.head}
  }

  /** The books of an allocation: the first object of the CPU's list goes to the caller, the freelist of a page goes to the CPU,
      new objects come into being there. */
  function AllocLedger(st: State, k: nat, a: AllocAction): Change
    requires AllocEnabled(st, k, a)
  {
    match a
    case AllocFast => Change({st.cpus[k].list.head}, {Some(OnCpu(k))}, Some(Held))
    case Load => Change({st.cpus[k].list.head}, {Some(OnCpu(k))}, Some(Held))
    case FreeFast(o) => Change({o}, {Some(Held)}, Some(OnCpu(k)))
    case GetFreelist => Change(Elems(st.slabs[st.cpus[k].page.value].freelist), {Some(InPage)}, Some(OnCpu(k)))
    case Acquire(s) => Change(Elems(st.slabs[s].freelist), {Some(InPage)}, Some(OnCpu(k)))
    case NewSlab(_, objs) => Change(Elems(objs), {None}, Some(OnCpu(k)))
    case _ => NONE
  }

  /** The page is still as it was looked at. */
  predicate Unchanged(st: State, k: nat)
    requires HasPage(st, k) && st.cpus[k].pc.Committing?
  {
    SnapOf(st.slabs[st.cpus[k].page.value]) == st.cpus[k].pc.snap
  }

  /** Of a flush: objects go back to the page one by one, the last of them with the page; an empty page goes with its objects. */
  function FlushLedger(st: State, k: nat, a: FlushAction): Change
    requires FlushEnabled(st, k, a)
  {
    match a
    case Drain => Change(Foremost(st.cpus[k].list), {Some(OnCpu(k))}, Some(InPage))
    case Commit => CommitLedger(st, k)
    case _ => NONE
  }

  function CommitLedger(st: State, k: nat): Change
    requires HasPage(st, k) && st.cpus[k].pc.Committing?
  {
    if !Unchanged(st, k) then NONE
    else if st.cpus[k].pc.m == MFree then Change(st.slabs[st.cpus[k].page.value].objs, {Some(InPage), Some(OnCpu(k))}, None)
    else Change(Elems(st.cpus[k].list), {Some(OnCpu(k))}, Some(InPage))
  }

  /** Of a free: the caller hands the object over, and it goes to its page; an empty page may go with its objects. */
  function FreeLedger(st: State, f: nat, a: FreeAction, minPartial: nat): Change
    requires FreeEnabled(st, f, a)
  {
    match a
    case BeginFree(o) => Change({o}, {Some(Held)}, Some(Freeing(f)))
    case FreeCas => Change({st.freers[f].o}, {Some(Freeing(f))}, Some(InPage))
    case FreeLockedCas =>
      if SnapOf(st.slabs[st.owner[st.freers[f].o]]) != st.freers[f].snap then NONE
      else Change({st.freers[f].o}, {Some(Freeing(f))}, Some(InPage))
    case Link => LinkLedger(st, f, minPartial)
    case _ => NONE
  }

  function LinkLedger(st: State, f: nat, minPartial: nat): Change
    requires f < |st.freers| && st.freers[f].Linking?
  {
    if Surplus(st, f, minPartial) && st.freers[f].s in st.slabs then Change(st.slabs[st.freers[f].s].objs,
        {Some(InPage)}, None)
    else NONE
  }

  function Ledger(st: State, a: Action, minPartial: nat): Change
    requires Enabled(st, a)
  {
    match a
    case Alloc(k, x) => AllocLedger(st, k, x)
    case Flush(k, x) => FlushLedger(st, k, x)
    case Free(f, x) => FreeLedger(st, f, x, minPartial)
  }

  /** Exactly these objects move, from where they should be. */
  ghost predicate Moves(place: map<Obj, Place>, now: map<Obj, Place>, c: Change) {
    && (forall o :: o in c.objs ==> PlaceIn(place, o) in c.from && PlaceIn(now, o) == c.to)
    && forall o :: o !in c.objs ==> PlaceIn(now, o) == PlaceIn(place, o)
  }

  lemma OneMoves(place: map<Obj, Place>, o: Obj, p: Place, q: Place)
    requires PlaceIn(place, o) == Some(p)
    ensures Moves(place, place[o := q], Change({o}, {Some(p)}, Some(q)))
  {
  }

  lemma AssignMoves(place: map<Obj, Place>, l: List, p: Option<Place>, q: Place)
    requires forall o :: o in Elems(l) ==> PlaceIn(place, o) == p
    ensures Moves(place, Assign(place, l, q), Change(Elems(l), {p}, Some(q)))
  {
    AssignIs(place, l, q);
  }

  lemma GoneMoves(place: map<Obj, Place>, gone: set<Obj>, from: set<Option<Place>>)
    requires forall o :: o in gone ==> PlaceIn(place, o) in from
    ensures Moves(place, place - gone, Change(gone, from, None))
  {
  }

  lemma FirstOnCpu(st: State, k: nat)
    requires Inv(st) && k < |st.cpus| && st.cpus[k].list != Nil
    ensures PlaceIn(st.place, st.cpus[k].list.head) == Some(OnCpu(k))
  {
    assert CpuOk(st.cpus[k], k, st.owner, st.place);
    assert st.cpus[k].list.head in Elems(st.cpus[k].list);
  }

  lemma FreelistMoves(st: State, k: nat, s: SlabId)
    requires Inv(st) && s in st.slabs
    ensures Moves(st.place, Assign(st.place, st.slabs[s].freelist, OnCpu(k)),
                  Change(Elems(st.slabs[s].freelist), {Some(InPage)}, Some(OnCpu(k))))
  {
    assert SlabOk(st.slabs[s], s, st.owner, st.place);
    AssignMoves(st.place, st.slabs[s].freelist, Some(InPage), OnCpu(k));
  }

  lemma NewMoves(st: State, k: nat, s: SlabId, objs: List)
    requires Inv(st) && Fresh(st, s, objs)
    ensures Moves(st.place, Assign(st.place, objs, OnCpu(k)), Change(Elems(objs), {None}, Some(OnCpu(k))))
  {
    AssignMoves(st.place, objs, None, OnCpu(k));
  }

  lemma AllocMoves(st: State, k: nat, a: AllocAction)
    requires Inv(st) && AllocEnabled(st, k, a)
    ensures Moves(st.place, AllocStep(st, k, a).place, AllocLedger(st, k, a))
  {
    match a {
      case AllocFast =>
        FirstOnCpu(st, k);
        OneMoves(st.place, st.cpus[k].list.head, OnCpu(k), Held);
      case Load =>
        FirstOnCpu(st, k);
        OneMoves(st.place, st.cpus[k].list.head, OnCpu(k), Held);
      case FreeFast(o) => OneMoves(st.place, o, Held, OnCpu(k));
      case GetFreelist => FreelistMoves(st, k, st.cpus[k].page.value);
      case Acquire(s) => FreelistMoves(st, k, s);
      case NewSlab(s, objs) => NewMoves(st, k, s, objs);
      case _ =>
    }
  }

  lemma UnfreezeMoves(st: State, k: nat)
    requires Inv(st) && HasPage(st, k) && st.cpus[k].pc.Committing?
    ensures Moves(st.place, UnfreezeStep(st, k).place, Change(Elems(st.cpus[k].list), {Some(OnCpu(k))}, Some(InPage)))
  {
    assert CpuOk(st.cpus[k], k, st.owner, st.place);
    AssignMoves(st.place, st.cpus[k].list, Some(OnCpu(k)), InPage);
  }

  /** The page is empty once its last object is back. */
  lemma EmptyAfterUnfreeze(st: State, k: nat, s: SlabId)
    requires Inv(st) && HasPage(st, k) && st.cpus[k].page == Some(s) && st.cpus[k].pc.Committing? && st.cpus[k].pc.m == MFree
    requires Unchanged(st, k)
    ensures var mid := UnfreezeStep(st, k);
            && s in mid.slabs && mid.slabs[s].objs == st.slabs[s].objs
            && forall o :: o in st.slabs[s].objs ==> PlaceIn(mid.place, o) == Some(InPage)
  {
    assert CpuOk(st.cpus[k], k, st.owner, st.place);
    UnfreezeObjects(st, k, s);
    FreeTarget(st, k, s);
    LeavesNone(UnfreezeStep(st, k), s);
  }

  lemma ListInSlab(st: State, k: nat, s: SlabId)
    requires Inv(st) && HasPage(st, k) && st.cpus[k].page == Some(s)
    ensures Elems(st.cpus[k].list) <= st.slabs[s].objs
  {
    assert CpuOk(st.cpus[k], k, st.owner, st.place) && SlabOk(st.slabs[s], s, st.owner, st.place);
  }

  lemma ThenGone(place: map<Obj, Place>, mid: map<Obj, Place>, l: set<Obj>, gone: set<Obj>, k: nat)
    requires Moves(place, mid, Change(l, {Some(OnCpu(k))}, Some(InPage))) && l <= gone
    requires forall o :: o in gone ==> PlaceIn(mid, o) == Some(InPage)
    ensures Moves(place, mid - gone, Change(gone, {Some(InPage), Some(OnCpu(k))}, None))
  {
    forall o | o in gone
      ensures PlaceIn(place, o) in {Some(InPage), Some(OnCpu(k))} && PlaceIn(mid - gone, o) == None
    {
      assert o !in l ==> PlaceIn(mid, o) == PlaceIn(place, o);
    }
    forall o | o !in gone
      ensures PlaceIn(mid - gone, o) == PlaceIn(place, o)
    {
      assert PlaceIn(mid, o) == PlaceIn(place, o);
    }
  }

  lemma DiscardMoves(st: State, k: nat)
    requires Inv(st) && HasPage(st, k) && st.cpus[k].pc.Committing? && st.cpus[k].pc.m == MFree && Unchanged(st, k)
    ensures Moves(st.place, CommitStep(st, k).place, CommitLedger(st, k))
  {
    var s := st.cpus[k].page.value;
    UnfreezeMoves(st, k);
    EmptyAfterUnfreeze(st, k, s);
    ListInSlab(st, k, s);
    ThenGone(st.place, UnfreezeStep(st, k).place, Elems(st.cpus[k].list), st.slabs[s].objs, k);
  }

  lemma CommitMoves(st: State, k: nat)
    requires Inv(st) && HasPage(st, k) && st.cpus[k].pc.Committing?
    ensures Moves(st.place, CommitStep(st, k).place, CommitLedger(st, k))
  {
    if Unchanged(st, k) {
      if st.cpus[k].pc.m == MFree { DiscardMoves(st, k); } else { UnfreezeMoves(st, k); }
    }
  }

  lemma FlushMoves(st: State, k: nat, a: FlushAction, minPartial: nat)
    requires Inv(st) && FlushEnabled(st, k, a)
    ensures Moves(st.place, FlushStep(st, k, a, minPartial).place, FlushLedger(st, k, a))
  {
    match a
    case Drain =>
      FirstOnCpu(st, k);
      OneMoves(st.place, st.cpus[k].list.head, OnCpu(k), InPage);
    case Commit => CommitMoves(st, k);
    case _ =>
  }

  lemma BeingFreed(st: State, f: nat)
    requires Inv(st) && HasObj(st, f)
    ensures PlaceIn(st.place, st.freers[f].o) == Some(Freeing(f))
  {
    assert FreerOk(st.freers[f], f, st.place);
  }

  lemma EmptyIsInPage(st: State, s: SlabId)
    requires Inv(st) && s in st.slabs && st.slabs[s].inuse == 0
    ensures forall o :: o in st.slabs[s].objs ==> PlaceIn(st.place, o) == Some(InPage)
  {
    LeavesNone(st, s);
  }

  lemma LinkMoves(st: State, f: nat, minPartial: nat)
    requires Inv(st) && f < |st.freers| && st.freers[f].Linking?
    ensures Moves(st.place, LinkStep(st, f, Surplus(st, f, minPartial)).place, LinkLedger(st, f, minPartial))
  {
    if Surplus(st, f, minPartial) {
      LinkSlab(st.freers, st.slabs, f);
      EmptyIsInPage(st, st.freers[f].s);
      GoneMoves(st.place, st.slabs[st.freers[f].s].objs, {Some(InPage)});
    }
  }

  lemma FreeMoves(st: State, f: nat, a: FreeAction, minPartial: nat)
    requires Inv(st) && FreeEnabled(st, f, a)
    ensures Moves(st.place, FreeStep(st, f, a, minPartial).place, FreeLedger(st, f, a, minPartial))
  {
    match a
    case BeginFree(o) => OneMoves(st.place, o, Held, Freeing(f));
    case FreeCas =>
      BeingFreed(st, f);
      OneMoves(st.place, st.freers[f].o, Freeing(f), InPage);
    case FreeLockedCas =>
      BeingFreed(st, f);
      OneMoves(st.place, st.freers[f].o, Freeing(f), InPage);
    case Link => LinkMoves(st, f, minPartial);
    case _ =>
  }

  /** Every step moves exactly the objects that it should. */
  lemma StepMoves(st: State, a: Action, minPartial: nat)
    requires Inv(st) && Enabled(st, a)
    ensures Moves(st.place, Apply(st, a, minPartial).place, Ledger(st, a, minPartial))
  {
    match a
    case Alloc(k, x) => AllocMoves(st, k, x);
    case Flush(k, x) => FlushMoves(st, k, x, minPartial);
    case Free(f, x) => FreeMoves(st, f, x, minPartial);
  }

  // ---------------------------------------------------------------- what callers get

  /** An object goes out to a caller, or comes in from one. */
  datatype Event = Out(o: Obj) | In(o: Obj)

  /** Both ways to allocate hand out the first object of the CPU's list. */
  function EventsOf(st: State, a: Action): seq<Event>
    requires Enabled(st, a)
  {
    match a
    case Alloc(k, AllocFast) => [Out(st.cpus[k].list.head)]
    case Alloc(k, Load) => [Out(st.cpus[k].list.head)]
    case Alloc(_, FreeFast(o)) => [In(o)]
    case Free(_, BeginFree(o)) => [In(o)]
    case _ => []
  }

  /** The objects that callers have after this history; Wrong if one was given out twice or came back without being out. */
  datatype Books = Wrong | With(callers: set<Obj>)

  function Effect(b: Books, e: Event): Books {
    if b.Wrong? then Wrong
    else
      match e
      case Out(o) => if o in b.callers then Wrong else With(b.callers + {o})
      case In(o) => if o in b.callers then With(b.callers - {o}) else Wrong
  }

  function Replay(log: seq<Event>): Books {
    if log == [] then With({}) else Effect(Replay(log[..|log| - 1]), log[|log| - 1])
  }

  function After(b: Books, es: seq<Event>): Books {
    if es == [] then b else Effect(b, es[0])
  }

  lemma ReplayMore(log: seq<Event>, es: seq<Event>)
    requires |es| <= 1
    ensures Replay(log + es) == After(Replay(log), es)
  {
    if es == [] {
      assert log + es == log;
    } else {
      assert (log + es)[..|log|] == log;
    }
  }

  /** Exactly these objects are with callers. */
  ghost predicate OutNow(place: map<Obj, Place>, b: Books) {
    b.With? && forall o :: o in b.callers <==> PlaceIn(place, o) == Some(Held)
  }

  /** A change that gives out one object, takes in one, or does neither. */
  ghost predicate Tells(c: Change, es: seq<Event>) {
    |es| <= 1 &&
    if es == [] then c.to != Some(Held) && Some(Held) !in c.from
    else if es[0].Out? then c.objs == {es[0].o} && c.to == Some(Held) && Some(Held) !in c.from
    else c.objs == {es[0].o} && c.to != Some(Held) && c.from == {Some(Held)}
  }

  lemma LedgerTells(st: State, a: Action, minPartial: nat)
    requires Enabled(st, a)
    ensures Tells(Ledger(st, a, minPartial), EventsOf(st, a))
  {
  }

  lemma ChangeTells(place: map<Obj, Place>, now: map<Obj, Place>, c: Change, es: seq<Event>, b: Books)
    requires Moves(place, now, c) && Tells(c, es) && OutNow(place, b)
    ensures OutNow(now, After(b, es))
  {
    var d := After(b, es);
    if es != [] {
      assert es[0].o in c.objs && PlaceIn(place, es[0].o) in c.from;
    }
    forall o
      ensures d.With? && (o in d.callers <==> PlaceIn(now, o) == Some(Held))
    {
      if o in c.objs {
        assert PlaceIn(now, o) == c.to && PlaceIn(place, o) in c.from;
      } else {
        assert PlaceIn(now, o) == PlaceIn(place, o);
      }
    }
  }

  /** What a step does to the callers: an allocation gives out one object that nobody had, a free takes in its own, and no other
      step changes what callers have. */
  lemma StepHeld(st: State, a: Action, minPartial: nat, b: Books)
    requires Inv(st) && Enabled(st, a) && OutNow(st.place, b)
    ensures |EventsOf(st, a)| <= 1 && OutNow(Apply(st, a, minPartial).place, After(b, EventsOf(st, a)))
  {
    StepMoves(st, a, minPartial);
    LedgerTells(st, a, minPartial);
    ChangeTells(st.place, Apply(st, a, minPartial).place, Ledger(st, a, minPartial), EventsOf(st, a), b);
  }

  /** The history of a run. */
  ghost predicate Runs(cpus: nat, freers: nat, minPartial: nat, actions: seq<Action>, log: seq<Event>, st: State)
    decreases |actions|
  {
    if actions == [] then st == Start(cpus, freers) && log == []
    else
      var n := |actions| - 1;
      exists before, past :: Runs(cpus, freers, minPartial, actions[..n], past, before) && Enabled(before, actions[n])
                             && st == Apply(before, actions[n], minPartial) && log == past + EventsOf(before, actions[n])
  }

  /** Over every run, no object is given out while a caller has it, only objects that are out come back, and the objects that are
      out are those with place Held. */
  lemma {:induction false} CallersAreRight(cpus: nat, freers: nat, minPartial: nat, actions: seq<Action>,
      log: seq<Event>, st: State)
    requires Runs(cpus, freers, minPartial, actions, log, st)
    ensures Inv(st) && OutNow(st.place, Replay(log))
    decreases |actions|
  {
    if actions == [] {
      StartIsGood(cpus, freers);
    } else {
      var n := |actions| - 1;
      var before, past :| Runs(cpus, freers, minPartial, actions[..n], past, before) && Enabled(before, actions[n])
                          && st == Apply(before, actions[n], minPartial) && log == past + EventsOf(before, actions[n]);
      CallersAreRight(cpus, freers, minPartial, actions[..n], past, before);
      StepKeeps(before, actions[n], minPartial);
      StepHeld(before, actions[n], minPartial, Replay(past));
      ReplayMore(past, EventsOf(before, actions[n]));
    }
  }

  /** An allocation leaves the rest of the CPU's list there, and a fast free puts its object in front. */
  lemma ListsFollow(st: State, k: nat, a: AllocAction)
    requires AllocEnabled(st, k, a) && (a.AllocFast? || a.Load? || a.FreeFast?)
    ensures var now := AllocStep(st, k, a);
            && k < |st.cpus| && |now.cpus| == |st.cpus|
            && (a.FreeFast? ==> now.cpus[k].list == Cons(a.o, st.cpus[k].list))
            && (!a.FreeFast? ==> Cons(st.cpus[k].list.head, now.cpus[k].list) == st.cpus[k].list && now.cpus[k].pc == Ready)
            && now.cpus[k].page == st.cpus[k].page && forall j :: 0 <= j < |st.cpus| && j != k ==> now.cpus[j] == st.cpus[j]
  {
  }
}
