/** The slab allocator as a state machine: any number of CPUs and of frees in progress, interleaved at every access to a
    shared slab or list. Fast paths, which one CPU does in a single compare-and-exchange, are single steps; SlubFastPath takes
    them apart. */
module Slub {
  import opened SlubList

  type SlabId = nat

  datatype Option<T> = None | Some(value: T)

  function First(l: List): Option<Obj> {
    if l == Nil then None else Some(l.head)
  }

  /** struct page: its objects, its freelist, the count of objects not on that list, and the CPU it is frozen for. */
  datatype Slab = Slab(objs: set<Obj>, freelist: List, inuse: int, frozen: Option<nat>)

  /** Where an object is: on its page's freelist, on a CPU's list, with a caller, or being freed. */
  datatype Place = InPage | OnCpu(cpu: nat) | Held | Freeing(f: nat)

  /** What a compare-and-exchange on a page compares: the freelist pointer and the counters. */
  datatype Snap = Snap(head: Option<Obj>, inuse: int, frozen: bool)

  function SnapOf(b: Slab): Snap {
    Snap(First(b.freelist), b.inuse, b.frozen.Some?)
  }

  /** slab_modes of deactivate_slab(). */
  datatype Mode = MNone | MPartial | MFull | MFree

  /** Where a CPU stands. Ready: outside the slow paths. ___slab_alloc(): it needs a slab, searches the partial list under the
      lock, has acquired a slab but not yet unlinked it, needs a new slab, or has a list to load. deactivate_slab(): it drains
      its list, is at redo, has computed the target state, or has set up the list and is before the compare-and-exchange. */
  datatype Pc =
    | Ready
    | NeedSlab
    | Searching
    | Acquired
    | NeedNew
    | Loading
    | Draining
    | Redo(locked: bool, l: Mode)
    | Peeked(locked: bool, l: Mode, m: Mode, snap: Snap)
    | Committing(locked: bool, m: Mode, snap: Snap)

  /** A CPU's slab and its list: c->freelist, or the local list of a slow path. */
  datatype Cpu = Cpu(page: Option<SlabId>, list: List, pc: Pc)

  /** Where a call of __slab_free() stands: at the top of its loop, wanting the list lock, holding it before the
      compare-and-exchange, or after it with the list still to be updated. */
  datatype Freer = Idle | Begun(o: Obj) | Wanting(o: Obj, snap: Snap) | Locked(o: Obj,
      snap: Snap) | Linking(s: SlabId, wasEmpty: bool, inuse: int)

  datatype Lock = Unlocked | ByCpu(cpu: nat) | ByFreer(f: nat)

  datatype State = State(
    slabs: map<SlabId, Slab>, owner: map<Obj, SlabId>, place: map<Obj, Place>,
    partial: set<SlabId>, lock: Lock, cpus: seq<Cpu>, freers: seq<Freer>)

  // ---------------------------------------------------------------- the invariant

  /** A slab's freelist holds exactly its objects that are in the page, each once, and inuse counts the others. */
  ghost predicate SlabOk(b: Slab, s: SlabId, owner: map<Obj, SlabId>, place: map<Obj, Place>) {
    && NoDup(b.freelist) && b.inuse + Len(b.freelist) == |b.objs| && b.objs != {}
    && (forall o :: o in b.objs <==> o in owner && owner[o] == s)
    && forall o :: o in Elems(b.freelist) <==> o in b.objs && o in place && place[o] == InPage
  }

  ghost predicate SlabsOk(slabs: map<SlabId, Slab>, owner: map<Obj, SlabId>, place: map<Obj, Place>) {
    forall s :: s in slabs ==> SlabOk(slabs[s], s, owner, place)
  }

  predicate HasLock(pc: Pc) {
    match pc
    case Searching => true
    case Acquired => true
    case Redo(locked, _) => locked
    case Peeked(locked, _, _, _) => locked
    case Committing(locked, _, _) => locked
    case _ => false
  }

  /** What deactivate_slab() computes from the page it sees and what is left of the CPU's list. */
  predicate Target(m: Mode, snap: Snap, left: List) {
    match m
    case MFree => snap.inuse == Len(left)
    case MPartial => left != Nil || snap.head != None
    case MFull => left == Nil && snap.head == None
    case MNone => false
  }

  predicate PcOk(c: Cpu) {
    match c.pc
    case Ready => true
    case NeedSlab => c.page == None
    case Searching => c.page == None
    case NeedNew => c.page == None
    case Acquired => c.page.Some? && c.list != Nil
    case Loading => c.page.Some? && c.list != Nil
    case Draining => c.page.Some?
    case Redo(locked, l) => c.page.Some? && Len(c.list) <= 1 && (l == MPartial ==> locked)
    case Peeked(locked, l, m, snap) => c.page.Some? && Len(c.list) <= 1 && Target(m, snap, c.list)
        && (l == MPartial ==> locked)
    case Committing(locked, m, snap) => c.page.Some? && Len(c.list) <= 1 && Target(m, snap, c.list) && (m == MPartial ==> locked)
  }

  /** A CPU's list holds exactly the objects that are on this CPU, each once, all from its slab. */
  ghost predicate CpuOk(c: Cpu, k: nat, owner: map<Obj, SlabId>, place: map<Obj, Place>) {
    && NoDup(c.list) && (c.list != Nil ==> c.page.Some?) && PcOk(c)
    && (forall o :: o in Elems(c.list) <==> o in place && place[o] == OnCpu(k))
    && forall o :: o in Elems(c.list) ==> o in owner && Some(owner[o]) == c.page
  }

  ghost predicate CpusOk(cpus: seq<Cpu>, owner: map<Obj, SlabId>, place: map<Obj, Place>) {
    forall k :: 0 <= k < |cpus| ==> CpuOk(cpus[k], k, owner, place)
  }

  /** The object that a call is freeing. */
  function FreeingNow(fr: Freer): Option<Obj> {
    match fr
    case Begun(o) => Some(o)
    case Wanting(o, _) => Some(o)
    case Locked(o, _) => Some(o)
    case Idle => None
    case Linking(_, _, _) => None
  }

  ghost predicate FreerOk(fr: Freer, f: nat, place: map<Obj, Place>) {
    && (forall o :: FreeingNow(fr) == Some(o) <==> o in place && place[o] == Freeing(f))
    && (fr.Wanting? ==> NeedsLock(fr.snap))
    && (fr.Locked? ==> NeedsLock(fr.snap))
  }

  ghost predicate FreersOk(freers: seq<Freer>, place: map<Obj, Place>) {
    forall f :: 0 <= f < |freers| ==> FreerOk(freers[f], f, place)
  }

  /** A call that has put its object back still finds the slab as it left it, or fuller. */
  ghost predicate LinkingOk(freers: seq<Freer>, slabs: map<SlabId, Slab>) {
    forall f :: 0 <= f < |freers| && freers[f].Linking? ==> (
      && freers[f].s in slabs && slabs[freers[f].s].frozen == None && slabs[freers[f].s].freelist != Nil
      && (freers[f].inuse == 0 ==> slabs[freers[f].s].inuse == 0))
  }

  predicate FreerHasLock(fr: Freer) {
    fr.Locked? || fr.Linking?
  }

  /** The list lock has the holder that its steps say. */
  ghost predicate LockOk(lock: Lock, cpus: seq<Cpu>, freers: seq<Freer>) {
    && (forall k :: 0 <= k < |cpus| ==> (HasLock(cpus[k].pc) <==> lock == ByCpu(k)))
    && (forall f :: 0 <= f < |freers| ==> (FreerHasLock(freers[f]) <==> lock == ByFreer(f)))
    && (lock.ByCpu? ==> lock.cpu < |cpus|)
    && (lock.ByFreer? ==> lock.f < |freers|)
  }

  /** A slab is frozen for the CPU whose slab it is, and for no other. */
  ghost predicate FrozenOk(slabs: map<SlabId, Slab>, cpus: seq<Cpu>) {
    && (forall k :: 0 <= k < |cpus| && cpus[k].page.Some? ==>
        cpus[k].page.value in slabs && slabs[cpus[k].page.value].frozen == Some(k))
    && forall s :: s in slabs && slabs[s].frozen.Some? ==>
         slabs[s].frozen.value < |cpus| && cpus[slabs[s].frozen.value].page == Some(s)
  }

  /** What the holder of the lock has still to do to the partial list: add a slab, or take off one that it has frozen there. */
  datatype Pending = Nothing | Adding(s: SlabId) | Frozen(s: SlabId)

  function CpuPending(c: Cpu): Pending {
    if c.page == None then Nothing
    else
      match c.pc
      case Acquired => Frozen(c.page.value)
      case Redo(_, l) => if l == MPartial then Frozen(c.page.value) else Nothing
      case Peeked(_, l, _, _) => if l == MPartial then Frozen(c.page.value) else Nothing
      case Committing(_, m, _) => if m == MPartial then Frozen(c.page.value) else Nothing
      case _ => Nothing
  }

  function FreerPending(fr: Freer): Pending {
    if fr.Linking? && fr.wasEmpty then Adding(fr.s) else Nothing
  }

  function PendingOf(lock: Lock, cpus: seq<Cpu>, freers: seq<Freer>): Pending {
    match lock
    case Unlocked => Nothing
    case ByCpu(k) => if k < |cpus| then CpuPending(cpus[k]) else Nothing
    case ByFreer(f) => if f < |freers| then FreerPending(freers[f]) else Nothing
  }

  /** Not frozen, and with free objects. */
  predicate Wants(b: Slab) {
    b.frozen == None && b.freelist != Nil
  }

  /** Up to the change pending, the partial list holds exactly the slabs that are not frozen and have free objects. */
  ghost predicate ListOk(partial: set<SlabId>, slabs: map<SlabId, Slab>, p: Pending) {
    && partial <= slabs.Keys
    && forall s :: s in slabs ==> (s in partial <==> (Wants(slabs[s]) && p != Adding(s)) || p == Frozen(s))
  }

  ghost predicate ObjectsOk(slabs: map<SlabId, Slab>, owner: map<Obj, SlabId>, place: map<Obj, Place>, cpus: nat,
      freers: nat) {
    && owner.Keys == place.Keys
    && (forall o :: o in owner ==> owner[o] in slabs)
    && (forall o :: o in place && place[o].OnCpu? ==> place[o].cpu < cpus)
    && (forall o :: o in place && place[o].Freeing? ==> place[o].f < freers)
  }

  ghost predicate Inv(st: State) {
    && ObjectsOk(st.slabs, st.owner, st.place, |st.cpus|, |st.freers|)
    && SlabsOk(st.slabs, st.owner, st.place)
    && CpusOk(st.cpus, st.owner, st.place)
    && FreersOk(st.freers, st.place)
    && LinkingOk(st.freers, st.slabs)
    && LockOk(st.lock, st.cpus, st.freers)
    && FrozenOk(st.slabs, st.cpus)
    && ListOk(st.partial, st.slabs, PendingOf(st.lock, st.cpus, st.freers))
  }

  // ---------------------------------------------------------------- the steps

  /** The steps of allocation on a CPU, and of the fast free. */
  datatype AllocAction =
    | AllocFast | FreeFast(o: Obj) | GetFreelist | NoPage | LockPartial | Acquire(s: SlabId) | Unlink | GiveUp | SkipPartial
    | NewSlab(id: SlabId, objs: List) | NoMemory | Load

  /** The steps of deactivate_slab(). */
  datatype FlushAction = BeginFlush | Drain | Drained | Peek(nr: nat) | LockList | Relist | Commit

  /** The steps of __slab_free(). */
  datatype FreeAction = BeginFree(o: Obj) | FreeCas | FreePeek | FreeLock | FreeLockedCas | Link

  datatype Action = Alloc(k: nat, alloc: AllocAction) | Flush(k: nat, flush: FlushAction) | Free(f: nat, free: FreeAction)

  /** The objects of a list all get the value v. */
  function Assign<V>(m: map<Obj, V>, l: List, v: V): map<Obj, V> {
    if l == Nil then m else Assign(m, l.tail, v)[l.head := v]
  }

  /** discard_slab(): the slab and its objects are gone. */
  function Discard(st: State, s: SlabId): State
    requires s in st.slabs
  {
    var gone := st.slabs[s].objs;
    st.(slabs := st.slabs - {s}, owner := st.owner - gone, place := st.place - gone, partial := st.partial - {s})
  }

  /** A page gets an object back. */
  function Push(b: Slab, o: Obj): Slab {
    b.(freelist := Cons(o, b.freelist), inuse := b.inuse - 1)
  }

  /** A CPU takes all that a page has, or makes a page its own. */
  function Taken(b: Slab, k: nat): Slab {
    b.(freelist := Nil, inuse := |b.objs|, frozen := Some(k))
  }

  /** `(!new.inuse || !prior) && !was_frozen` in __slab_free(). */
  predicate NeedsLock(snap: Snap) {
    (snap.inuse == 1 || snap.head == None) && !snap.frozen
  }

  /** The target of deactivate_slab(). `nr` is what it reads from n->nr_partial, without the lock and after the page: any
      number will do. */
  function Choose(nr: nat, snap: Snap, left: List, minPartial: nat): Mode {
    if snap.inuse == Len(left) && nr >= minPartial then MFree
    else if left != Nil || snap.head != None then MPartial
    else MFull
  }

  predicate IsCpu(st: State, k: nat, pc: Pc) {
    k < |st.cpus| && st.cpus[k].pc == pc
  }

  /** The CPU's slab is one of the slabs. */
  predicate HasPage(st: State, k: nat) {
    k < |st.cpus| && st.cpus[k].page.Some? && st.cpus[k].page.value in st.slabs
  }

  /** A slab and objects that are new. */
  predicate Fresh(st: State, s: SlabId, objs: List) {
    s !in st.slabs && objs != Nil && NoDup(objs) && forall o :: o in Elems(objs) ==> o !in st.owner
  }

  predicate AllocEnabled(st: State, k: nat, a: AllocAction) {
    match a
    case AllocFast => IsCpu(st, k, Ready) && st.cpus[k].list != Nil
    case FreeFast(o) => IsCpu(st, k, Ready) && o in st.place && st.place[o] == Held && o in st.owner
        && st.cpus[k].page == Some(st.owner[o])
    case GetFreelist => IsCpu(st, k, Ready) && HasPage(st, k) && st.cpus[k].list == Nil
    case NoPage => IsCpu(st, k, Ready) && st.cpus[k].page == None
    case LockPartial => IsCpu(st, k, NeedSlab) && st.lock == Unlocked
    case Acquire(s) => IsCpu(st, k, Searching) && s in st.partial && s in st.slabs
    case Unlink => IsCpu(st, k, Acquired) && HasPage(st, k)
    case GiveUp => IsCpu(st, k, Searching)
    case SkipPartial => IsCpu(st, k, NeedSlab)
    case NewSlab(s, objs) => IsCpu(st, k, NeedNew) && Fresh(st, s, objs)
    case NoMemory => IsCpu(st, k, NeedNew)
    case Load => IsCpu(st, k, Loading) && st.cpus[k].list != Nil
  }

  predicate FlushEnabled(st: State, k: nat, a: FlushAction) {
    HasPage(st, k) &&
    match a
    case BeginFlush => st.cpus[k].pc == Ready
    case Drain => st.cpus[k].pc == Draining && Len(st.cpus[k].list) >= 2
    case Drained => st.cpus[k].pc == Draining && Len(st.cpus[k].list) <= 1
    case Peek(_) => st.cpus[k].pc.Redo?
    case LockList => st.cpus[k].pc.Peeked? && st.cpus[k].pc.m == MPartial && !st.cpus[k].pc.locked && st.lock == Unlocked
    case Relist => st.cpus[k].pc.Peeked? && (st.cpus[k].pc.m == MPartial ==> st.cpus[k].pc.locked)
    case Commit => st.cpus[k].pc.Committing?
  }

  predicate FreeEnabled(st: State, f: nat, a: FreeAction) {
    f < |st.freers| &&
    match a
    case BeginFree(o) => st.freers[f].Idle? && o in st.place && st.place[o] == Held
    case FreeCas => HasObj(st, f) && st.freers[f].Begun? && !NeedsLock(SnapOf(st.slabs[st.owner[st.freers[f].o]]))
    case FreePeek => HasObj(st, f) && st.freers[f].Begun? && NeedsLock(SnapOf(st.slabs[st.owner[st.freers[f].o]]))
    case FreeLock => st.freers[f].Wanting? && st.lock == Unlocked
    case FreeLockedCas => HasObj(st, f) && st.freers[f].Locked?
    case Link => st.freers[f].Linking?
  }

  predicate Enabled(st: State, a: Action) {
    match a
    case Alloc(k, x) => AllocEnabled(st, k, x)
    case Flush(k, x) => FlushEnabled(st, k, x)
    case Free(f, x) => FreeEnabled(st, f, x)
  }

  function SetCpu(st: State, k: nat, c: Cpu): State
    requires k < |st.cpus|
  {
    st.(cpus := st.cpus[k := c])
  }

  function SetPc(st: State, k: nat, pc: Pc): State
    requires k < |st.cpus|
  {
    SetCpu(st, k, st.cpus[k].(pc := pc))
  }

  function SetFreer(st: State, f: nat, fr: Freer): State
    requires f < |st.freers|
  {
    st.(freers := st.freers[f := fr])
  }

  // The steps that only move a CPU along.

  function LockPartialStep(st: State, k: nat): State
    requires k < |st.cpus|
  {
    SetPc(st, k, Searching).(lock := ByCpu(k))
  }

  function UnlinkStep(st: State, k: nat): State
    requires HasPage(st, k)
  {
    SetPc(st, k, Loading).(partial := st.partial - {st.cpus[k].page.value}, lock := Unlocked)
  }

  function GiveUpStep(st: State, k: nat): State
    requires k < |st.cpus|
  {
    SetPc(st, k, NeedNew).(lock := Unlocked)
  }

  function PeekStep(st: State, k: nat, nr: nat, minPartial: nat): State
    requires HasPage(st, k) && st.cpus[k].pc.Redo?
  {
    var c := st.cpus[k];
    var snap := SnapOf(st.slabs[c.page.value]);
    SetPc(st, k, Peeked(c.pc.locked, c.pc.l, Choose(nr, snap, c.list, minPartial), snap))
  }

  function LockListStep(st: State, k: nat): State
    requires k < |st.cpus| && st.cpus[k].pc.Peeked?
  {
    var pc := st.cpus[k].pc;
    SetPc(st, k, Peeked(true, pc.l, pc.m, pc.snap)).(lock := ByCpu(k))
  }

  function RelistStep(st: State, k: nat): State
    requires HasPage(st, k) && st.cpus[k].pc.Peeked?
  {
    var pc := st.cpus[k].pc;
    var s := st.cpus[k].page.value;
    SetPc(st, k, Committing(pc.locked, pc.m, pc.snap)).(
      partial := if pc.l == pc.m then st.partial
                 else if pc.m == MPartial then st.partial + {s}
                 else if pc.l == MPartial then st.partial - {s}
                 else st.partial)
  }

  // The steps that move objects.

  /** The first object of a CPU's list goes to the caller. */
  function PopStep(st: State, k: nat): State
    requires k < |st.cpus| && st.cpus[k].list != Nil
  {
    var c := st.cpus[k];
    SetCpu(st, k, Cpu(c.page, c.list.tail, Ready)).(place := st.place[c.list.head := Held])
  }

  function FreeFastStep(st: State, k: nat, o: Obj): State
    requires k < |st.cpus|
  {
    var c := st.cpus[k];
    SetCpu(st, k, c.(list := Cons(o, c.list))).(place := st.place[o := OnCpu(k)])
  }

  /** A CPU takes the whole freelist of a slab. */
  function TakeStep(st: State, k: nat, s: SlabId, pc: Pc): State
    requires k < |st.cpus| && s in st.slabs
  {
    var b := st.slabs[s];
    SetCpu(st, k, Cpu(Some(s), b.freelist, pc)).(slabs := st.slabs[s := Taken(b, k)], place := Assign(st.place,
        b.freelist, OnCpu(k)))
  }

  /** get_freelist() finds nothing: the slab is full, and no longer frozen. */
  function LeaveStep(st: State, k: nat): State
    requires HasPage(st, k)
  {
    var s := st.cpus[k].page.value;
    SetCpu(st, k, Cpu(None, Nil, NeedSlab)).(slabs := st.slabs[s := st.slabs[s].(frozen := None)])
  }

  function NewSlabStep(st: State, k: nat, s: SlabId, objs: List): State
    requires k < |st.cpus|
  {
    SetCpu(st, k, Cpu(Some(s), objs, Loading)).(
      slabs := st.slabs[s := Slab(Elems(objs), Nil, Len(objs), Some(k))],
      owner := Assign(st.owner, objs, s),
      place := Assign(st.place, objs, OnCpu(k)))
  }

  function DrainStep(st: State, k: nat): State
    requires HasPage(st, k) && st.cpus[k].list != Nil
  {
    var c := st.cpus[k];
    var s := c.page.value;
    SetCpu(st, k, c.(list := c.list.tail)).(slabs := st.slabs[s := Push(st.slabs[s], c.list.head)],
        place := st.place[c.list.head := InPage])
  }

  /** deactivate_slab() succeeds in unfreezing: what is left of the CPU's list goes back to the page. */
  function UnfreezeStep(st: State, k: nat): State
    requires HasPage(st, k) && st.cpus[k].pc.Committing?
  {
    var c := st.cpus[k];
    var s := c.page.value;
    var b := st.slabs[s];
    var list := if c.list == Nil then b.freelist else Cons(c.list.head, b.freelist);
    st.(slabs := st.slabs[s := b.(freelist := list, inuse := b.inuse - Len(c.list), frozen := None)],
        place := Assign(st.place, c.list, InPage),
        cpus := st.cpus[k := Cpu(None, Nil, Ready)],
        lock := if c.pc.locked then Unlocked else st.lock)
  }

  function CommitStep(st: State, k: nat): State
    requires HasPage(st, k) && st.cpus[k].pc.Committing?
  {
    var c := st.cpus[k];
    if SnapOf(st.slabs[c.page.value]) != c.pc.snap then SetPc(st, k, Redo(c.pc.locked, c.pc.m))
    else if c.pc.m == MFree then Discard(UnfreezeStep(st, k), c.page.value)
    else UnfreezeStep(st, k)
  }

  // The steps of a call of __slab_free().

  predicate HasObj(st: State, f: nat) {
    && f < |st.freers| && (st.freers[f].Begun? || st.freers[f].Wanting? || st.freers[f].Locked?)
    && st.freers[f].o in st.owner && st.owner[st.freers[f].o] in st.slabs
  }

  function BeginFreeStep(st: State, f: nat, o: Obj): State
    requires f < |st.freers|
  {
    SetFreer(st, f, Begun(o)).(place := st.place[o := Freeing(f)])
  }

  /** The object goes to its page. */
  function PushStep(st: State, f: nat, next: Freer): State
    requires HasObj(st, f)
  {
    var o := st.freers[f].o;
    var s := st.owner[o];
    SetFreer(st, f, next).(slabs := st.slabs[s := Push(st.slabs[s], o)], place := st.place[o := InPage])
  }

  function FreePeekStep(st: State, f: nat): State
    requires HasObj(st, f)
  {
    var o := st.freers[f].o;
    SetFreer(st, f, Wanting(o, SnapOf(st.slabs[st.owner[o]])))
  }

  function FreeLockStep(st: State, f: nat): State
    requires f < |st.freers| && st.freers[f].Wanting?
  {
    SetFreer(st, f, Locked(st.freers[f].o, st.freers[f].snap)).(lock := ByFreer(f))
  }

  function FreeLockedCasStep(st: State, f: nat): State
    requires HasObj(st, f) && st.freers[f].Locked?
  {
    var o := st.freers[f].o;
    var s := st.owner[o];
    var b := st.slabs[s];
    if SnapOf(b) != st.freers[f].snap then SetFreer(st, f, Begun(o)).(lock := Unlocked)
    else PushStep(st, f, Linking(s, b.freelist == Nil, b.inuse - 1))
  }

  /** The slab is on the list, or is put there, and the lock is dropped. */
  function LinkAddStep(st: State, f: nat): State
    requires f < |st.freers| && st.freers[f].Linking?
  {
    SetFreer(st, f, Idle).(lock := Unlocked, partial := if st.freers[f].wasEmpty then st.partial + {st.freers[f].s} else st.partial)
  }

  /** slab_empty: the slab is taken off the list and discarded. */
  function LinkDiscardStep(st: State, f: nat): State
    requires f < |st.freers| && st.freers[f].Linking? && st.freers[f].s in st.slabs
  {
    Discard(SetFreer(st, f, Idle).(lock := Unlocked), st.freers[f].s)
  }

  /** `!new.inuse && n->nr_partial >= s->min_partial`. */
  predicate Surplus(st: State, f: nat, minPartial: nat)
    requires f < |st.freers| && st.freers[f].Linking?
  {
    st.freers[f].inuse == 0 && |st.partial| >= minPartial
  }

  function LinkStep(st: State, f: nat, surplus: bool): State
    requires f < |st.freers| && st.freers[f].Linking?
  {
    if surplus && st.freers[f].s in st.slabs then LinkDiscardStep(st, f) else LinkAddStep(st, f)
  }

  function AllocStep(st: State, k: nat, a: AllocAction): State
    requires AllocEnabled(st, k, a)
  {
    match a
    case AllocFast => PopStep(st, k)
    case FreeFast(o) => FreeFastStep(st, k, o)
    case GetFreelist =>
      var s := st.cpus[k].page.value;
      if st.slabs[s].freelist != Nil then TakeStep(st, k, s, Loading) else LeaveStep(st, k)
    case NoPage => SetPc(st, k, NeedSlab)
    case LockPartial => LockPartialStep(st, k)
    case Acquire(s) => TakeStep(st, k, s, Acquired)
    case Unlink => UnlinkStep(st, k)
    case GiveUp => GiveUpStep(st, k)
    case SkipPartial => SetPc(st, k, NeedNew)
    case NewSlab(s, objs) => NewSlabStep(st, k, s, objs)
    case NoMemory => SetPc(st, k, Ready)
    case Load => PopStep(st, k)
  }

  function FlushStep(st: State, k: nat, a: FlushAction, minPartial: nat): State
    requires FlushEnabled(st, k, a)
  {
    match a
    case BeginFlush => SetPc(st, k, Draining)
    case Drain => DrainStep(st, k)
    case Drained => SetPc(st, k, Redo(false, MNone))
    case Peek(nr) => PeekStep(st, k, nr, minPartial)
    case LockList => LockListStep(st, k)
    case Relist => RelistStep(st, k)
    case Commit => CommitStep(st, k)
  }

  function FreeStep(st: State, f: nat, a: FreeAction, minPartial: nat): State
    requires FreeEnabled(st, f, a)
  {
    match a
    case BeginFree(o) => BeginFreeStep(st, f, o)
    case FreeCas => PushStep(st, f, Idle)
    case FreePeek => FreePeekStep(st, f)
    case FreeLock => FreeLockStep(st, f)
    case FreeLockedCas => FreeLockedCasStep(st, f)
    case Link => LinkStep(st, f, Surplus(st, f, minPartial))
  }

  function Apply(st: State, a: Action, minPartial: nat): State
    requires Enabled(st, a)
  {
    match a
    case Alloc(k, x) => AllocStep(st, k, x)
    case Flush(k, x) => FlushStep(st, k, x, minPartial)
    case Free(f, x) => FreeStep(st, f, x, minPartial)
  }

  function Start(cpus: nat, freers: nat): State {
    State(map[], map[], map[], {}, Unlocked, seq(cpus, _ => Cpu(None, Nil, Ready)), seq(freers, _ => Idle))
  }

  /** st is reached from an empty cache by these actions, each one enabled when it happens. */
  ghost predicate Reaches(cpus: nat, freers: nat, minPartial: nat, actions: seq<Action>, st: State)
    decreases |actions|
  {
    if actions == [] then st == Start(cpus, freers)
    else
      var n := |actions| - 1;
      exists before :: Reaches(cpus, freers, minPartial, actions[..n], before) && Enabled(before, actions[n])
                       && st == Apply(before, actions[n], minPartial)
  }
}
