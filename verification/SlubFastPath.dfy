/** The slab allocator's fast paths, access by access: threads that may be preempted and moved to another CPU between any two
    accesses, and slow paths that run with interrupts off and change a CPU's list or page first and its transaction id later.
    Objects are numbers, 0 is NULL; page 0 is none. */
module SlubFastPath {
  import opened SlubList
  import opened Align

  /** struct kmem_cache_cpu, whether a slow path runs there, and whether that is a flush. `changed` and `moved`: the list or
      the page was changed since the id was. */
  datatype Area = Area(freelist: Obj, page: nat, tid: nat, busy: bool, flush: bool, changed: bool, moved: bool)

  /** Where a thread stands. An allocation frees object 0. It found no object and needs the slow path; or it is about to read
      the id; has it; has the pointer to the area of the CPU it was on; has found the id there too. Then,
      allocating, it has read the first object; has read its successor.
      Freeing, it has found its page there; has linked its object to the list; has read the head of the list again. */
  datatype Pc =
    | Resting
    | Slow
    | Again(o: Obj)
    | HasTid(o: Obj, tid: nat)
    | HasArea(o: Obj, tid: nat, c: nat)
    | Checked(o: Obj, tid: nat, c: nat)
    | HasObject(tid: nat, first: Obj)
    | HasNext(tid: nat, first: Obj, next: Obj)
    | SamePage(o: Obj, tid: nat, c: nat)
    | IsLinked(o: Obj, tid: nat, c: nat)
    | HasHead(o: Obj, tid: nat, head: Obj)

  datatype Thread = Thread(cpu: nat, pc: Pc)

  /** `lists` is what the lists hold; it changes where an operation takes effect. `held` are the objects that callers have, and
      `pages` those on the freelists of pages. */
  datatype System = System(areas: seq<Area>, threads: seq<Thread>, link: map<Obj, Obj>, lists: seq<List>,
      held: set<Obj>, pages: set<Obj>)

  /** What does not change: TID_STEP, the objects, and the page of each. */
  datatype Setting = Setting(stride: nat, objs: set<Obj>, pageOf: Obj -> nat)

  /** Begin: a caller allocates, or frees an object it has. Scribble: a caller writes into an object it has, or a page's list is
      relinked. ___slab_alloc() starts with Enter. It takes the first object of the CPU's list (Take), or of what it finds in
      the CPU's page (Refill); it gives up a page without free objects (GiveUp), gets another page and takes its first object
      (Load). A flush starts with Interrupt, and gives the list back to the page (Flush). Renew: the new id. */
  datatype Action =
    | Begin(t: nat, o: Obj)
    | Go(t: nat)
    | Migrate(t: nat, cpu: nat)
    | Scribble(o: Obj, v: Obj)
    | Enter(t: nat)
    | Interrupt(k: nat)
    | Take(k: nat)
    | Refill(k: nat, l: List, link: map<Obj, Obj>)
    | GiveUp(k: nat)
    | Load(k: nat, page: nat, l: List, link: map<Obj, Obj>)
    | Flush(k: nat, link: map<Obj, Obj>)
    | Renew(k: nat)
    | Leave(k: nat)

  function Ptr(l: List): Obj {
    if l == Nil then 0 else l.head
  }

  function Rest(l: List): List {
    if l == Nil then Nil else l.tail
  }

  function NextOf(link: map<Obj, Obj>, o: Obj): Obj {
    if o in link then link[o] else 0
  }

  predicate Linked(link: map<Obj, Obj>, l: List) {
    l == Nil || (l.head != 0 && NextOf(link, l.head) == Ptr(l.tail) && Linked(link, l.tail))
  }

  /** The object a thread is freeing, or 0. */
  function Freed(pc: Pc): Obj {
    match pc
    case Again(o) => o
    case HasTid(o, _) => o
    case HasArea(o, _, _) => o
    case Checked(o, _, _) => o
    case SamePage(o, _, _) => o
    case IsLinked(o, _, _) => o
    case HasHead(o, _, _) => o
    case _ => 0
  }

  /** On no list, and not being freed. */
  ghost predicate Loose(s: System, o: Obj) {
    && (forall k :: 0 <= k < |s.lists| ==> o !in Elems(s.lists[k]))
    && forall t :: 0 <= t < |s.threads| ==> Freed(s.threads[t].pc) != o
  }

  // ---------------------------------------------------------------- the steps

  function WithPc(s: System, t: nat, pc: Pc): System
    requires t < |s.threads|
  {
    s.(threads := s.threads[t := s.threads[t].(pc := pc)])
  }

  /** this_cpu_cmpxchg_double() on the CPU the thread is on. */
  predicate Matches(a: Area, head: Obj, tid: nat) {
    a.freelist == head && a.tid == tid
  }

  function Exchanged(s: System, g: Setting, k: nat, head: Obj, l: List): System
    requires k < |s.areas| && k < |s.lists|
  {
    s.(areas := s.areas[k := s.areas[k].(freelist := head, tid := s.areas[k].tid + g.stride, moved := false)],
        lists := s.lists[k := l])
  }

  function GoStep(s: System, g: Setting, t: nat): System
    requires t < |s.threads| && s.threads[t].cpu < |s.areas| == |s.lists|
  {
    var k := s.threads[t].cpu;
    match s.threads[t].pc
    case Resting => s
    case Slow => s
    case Again(o) => WithPc(s, t, HasTid(o, s.areas[k].tid))
    case HasTid(o, tid) => WithPc(s, t, HasArea(o, tid, k))
    case HasArea(o, tid, c) => if c < |s.areas|
        && s.areas[c].tid == tid then WithPc(s, t, Checked(o, tid, c)) else WithPc(s, t, Again(o))
    case Checked(o, tid, c) =>
      if c >= |s.areas| then s
      else if o == 0 then
        if s.areas[c].freelist == 0 then WithPc(s, t, Slow) else WithPc(s, t, HasObject(tid, s.areas[c].freelist))
      else if s.areas[c].page == g.pageOf(o) then WithPc(s, t, SamePage(o, tid, c))
      else WithPc(s, t, Resting)
    case HasObject(tid, first) => WithPc(s, t, HasNext(tid, first, NextOf(s.link, first)))
    case HasNext(tid, first, next) =>
      if Matches(s.areas[k], first, tid) then WithPc(Exchanged(s, g, k, next, Rest(s.lists[k])), t, Resting)
      else WithPc(s, t, Again(0))
    case SamePage(o, tid, c) =>
      if c >= |s.areas| then s
      else WithPc(s.(link := s.link[o := s.areas[c].freelist]), t, IsLinked(o, tid, c))
    case IsLinked(o, tid, c) => if c >= |s.areas| then s else WithPc(s, t, HasHead(o, tid, s.areas[c].freelist))
    case HasHead(o, tid, head) =>
      if Matches(s.areas[k], head, tid) then WithPc(Exchanged(s, g, k, o, Cons(o, s.lists[k])), t, Resting)
      else WithPc(s, t, Again(o))
  }

  /** The objects that callers have after a thread's step: one more if it allocated. */
  function HeldAfter(s: System, t: nat): set<Obj>
    requires t < |s.threads| && s.threads[t].cpu < |s.areas|
  {
    var th := s.threads[t];
    if th.pc.HasNext? && Matches(s.areas[th.cpu], th.pc.first, th.pc.tid) then s.held + {th.pc.first} else s.held
  }

  /** The objects on pages' freelists: one more if its page is not the CPU's, so that __slab_free() frees it. */
  function PagesAfter(s: System, g: Setting, t: nat): set<Obj>
    requires t < |s.threads|
  {
    var pc := s.threads[t].pc;
    if pc.Checked? && pc.o != 0 && pc.c < |s.areas| && s.areas[pc.c].page != g.pageOf(pc.o) then s.pages + {pc.o} else s.pages
  }

  /** A slow path puts another list on its CPU, of objects that were on the old one or on a page's freelist, and may relink all
      but what is in use elsewhere. */
  ghost predicate MayChange(s: System, k: nat, l: List, link: map<Obj, Obj>) {
    && k < |s.areas| == |s.lists| && s.areas[k].busy && NoDup(l) && Linked(link, l)
    && (forall o :: o in Elems(l) ==> o in Elems(s.lists[k]) || o in s.pages)
    && (forall j :: 0 <= j < |s.lists| && j != k ==> LinksKept(s.link, link, s.lists[j]))
    && (forall t :: 0 <= t < |s.threads| ==> NextOf(link, Freed(s.threads[t].pc)) == NextOf(s.link, Freed(s.threads[t].pc)))
  }

  predicate LinksKept(link: map<Obj, Obj>, link': map<Obj, Obj>, l: List) {
    forall o :: o in Elems(l) ==> NextOf(link', o) == NextOf(link, o)
  }

  function Changed(s: System, k: nat, page: nat, l: List, link: map<Obj, Obj>, changed: bool, held: set<Obj>,
      pages: set<Obj>): System
    requires k < |s.areas| == |s.lists|
  {
    var a := s.areas[k];
    s.(areas := s.areas[k := a.(freelist := Ptr(l), page := page, changed := a.changed || changed,
        moved := a.moved || page != a.page)],
       lists := s.lists[k := l], link := link, held := held, pages := pages)
  }

  /** A freelist of the page, the first object of which is taken at once. */
  ghost predicate Found(s: System, g: Setting, k: nat, page: nat, l: List, link: map<Obj, Obj>) {
    && l != Nil && MayChange(s, k, l, link) && page != 0
    && forall o :: o in Elems(l) ==> o in s.pages && g.pageOf(o) == page
  }

  predicate Allocating(s: System, k: nat) {
    k < |s.areas| && s.areas[k].busy && !s.areas[k].flush
  }

  ghost predicate Enabled(s: System, g: Setting, a: Action) {
    && |s.lists| == |s.areas|
    && match a
       case Begin(t, o) => t < |s.threads| && s.threads[t].pc.Resting? && (o != 0 ==> o in s.held)
       case Go(t) => t < |s.threads| && s.threads[t].cpu < |s.areas| && !s.areas[s.threads[t].cpu].busy
       case Migrate(t, cpu) => t < |s.threads| && cpu < |s.areas|
       case Scribble(o, _) => o in s.held || o in s.pages
       case Enter(t) => t < |s.threads| && s.threads[t].pc.Slow? && s.threads[t].cpu < |s.areas|
           && !s.areas[s.threads[t].cpu].busy
       case Interrupt(k) => k < |s.areas| && !s.areas[k].busy
       case Take(k) => Allocating(s, k) && s.areas[k].page != 0 && s.lists[k] != Nil
       case Refill(k, l, link) => Allocating(s, k) && s.lists[k] == Nil && Found(s, g, k, s.areas[k].page, l, link)
       case GiveUp(k) => Allocating(s, k) && s.areas[k].page != 0 && s.lists[k] == Nil
       case Load(k, page, l, link) => Allocating(s, k) && s.areas[k].page == 0 && Found(s, g, k, page, l, link)
       case Flush(k, link) => k < |s.areas| && s.areas[k].flush && s.areas[k].page != 0 && MayChange(s, k, Nil, link)
       case Renew(k) => k < |s.areas| && s.areas[k].busy
       case Leave(k) =>
         && k < |s.areas| && s.areas[k].busy && !s.areas[k].changed
         && (s.areas[k].moved ==> s.areas[k].page == 0 && s.lists[k] == Nil)
  }

  function Apply(s: System, g: Setting, a: Action): System
    requires Enabled(s, g, a)
  {
    match a
    case Begin(t, o) => WithPc(s.(held := s.held - {o}), t, Again(o))
    case Go(t) => GoStep(s, g, t).(held := HeldAfter(s, t), pages := PagesAfter(s, g, t))
    case Migrate(t, cpu) => s.(threads := s.threads[t := s.threads[t].(cpu := cpu)])
    case Scribble(o, v) => s.(link := s.link[o := v])
    case Enter(t) => Switched(WithPc(s, t, Resting), s.threads[t].cpu, true, false)
    case Interrupt(k) => Switched(s, k, true, true)
    case Take(k) => Changed(s, k, s.areas[k].page, s.lists[k].tail, s.link, true, s.held + {s.lists[k].head}, s.pages)
    case Refill(k, l, link) => Changed(s, k, s.areas[k].page, l.tail, link, true, s.held + {l.head}, s.pages - Elems(l))
    case GiveUp(k) => Changed(s, k, 0, Nil, s.link, false, s.held, s.pages)
    case Load(k, page, l, link) => Changed(s, k, page, l.tail, link, true, s.held + {l.head}, s.pages - Elems(l))
    case Flush(k, link) => Changed(s, k, 0, Nil, link, true, s.held, s.pages + Elems(s.lists[k]))
    case Renew(k) => Renewed(s, g, k)
    case Leave(k) => Switched(s, k, false, false)
  }

  function Switched(s: System, k: nat, busy: bool, flush: bool): System
    requires k < |s.areas|
  {
    s.(areas := s.areas[k := s.areas[k].(busy := busy, flush := flush)])
  }

  function Renewed(s: System, g: Setting, k: nat): System
    requires k < |s.areas|
  {
    s.(areas := s.areas[k := s.areas[k].(tid := s.areas[k].tid + g.stride, changed := false, moved := false)])
  }

  /** At first all objects are on their pages, and the ids are the numbers of the CPUs. */
  function Start(cpus: nat, threads: nat, g: Setting): System {
    System(seq(cpus, k requires 0 <= k => Area(0, 0, k, false, false, false, false)), seq(threads, _ => Thread(0,
        Resting)), map[],
           seq(cpus, _ => Nil), {}, g.objs)
  }

  /** A run, and where it leads. Every action is allowed when it happens. */
  ghost predicate Legal(cpus: nat, threads: nat, g: Setting, run: seq<Action>)
    decreases |run|, 0
  {
    run == [] || (Legal(cpus, threads, g, run[..|run| - 1])
        && Enabled(After(cpus, threads, g, run[..|run| - 1]), g, run[|run| - 1]))
  }

  function After(cpus: nat, threads: nat, g: Setting, run: seq<Action>): System
    requires Legal(cpus, threads, g, run)
    decreases |run|, 1
  {
    if run == [] then Start(cpus, threads, g) else Apply(After(cpus, threads, g, run[..|run| - 1]), g, run[|run| - 1])
  }

  // ---------------------------------------------------------------- the invariant

  /** An id is known to be of CPU c = tid % stride, which has this one or a later one. */
  predicate Known(s: System, g: Setting, tid: nat) {
    g.stride > 0 && tid % g.stride < |s.areas| && tid <= s.areas[tid % g.stride].tid
  }

  /** Nothing happened to the list since the id was read. */
  predicate Current(s: System, g: Setting, tid: nat) {
    Known(s, g, tid) && s.areas[tid % g.stride].tid == tid && !s.areas[tid % g.stride].changed
  }

  predicate ThreadOk(s: System, g: Setting, th: Thread) {
    && th.cpu < |s.areas| == |s.lists|
    && match th.pc
       case Resting => true
       case Slow => true
       case Again(_) => true
       case HasTid(_, tid) => Known(s, g, tid)
       case HasArea(_, tid, c) => Known(s, g, tid) && c < |s.areas|
       case Checked(_, tid, c) => Known(s, g, tid) && c == tid % g.stride
       case HasObject(tid, first) => Known(s, g, tid) && first != 0 && (Current(s, g, tid) ==>
           first == Ptr(s.lists[tid % g.stride]))
       case HasNext(tid, first, next) =>
         && Known(s, g, tid) && first != 0
         && (Current(s, g, tid) ==>
               var l := s.lists[tid % g.stride]; first == Ptr(l) && (l != Nil ==> next == Ptr(l.tail)))
       case SamePage(o, tid, c) => o != 0 && Known(s, g, tid) && c == tid % g.stride
       case IsLinked(o, tid, c) =>
         o != 0 && Known(s, g, tid) && c == tid % g.stride && (Current(s, g, tid) ==> NextOf(s.link, o) == Ptr(s.lists[c]))
       case HasHead(o, tid, head) =>
         o != 0 && Known(s, g, tid) && (Current(s, g, tid) ==> NextOf(s.link, o) == Ptr(s.lists[tid % g.stride]))
  }

  /** What a CPU's area says of its list, and what its id is. */
  predicate AreaOk(a: Area, k: nat, g: Setting, l: List, link: map<Obj, Obj>) {
    && g.stride > 0 && a.tid % g.stride == k && (!a.busy ==> !a.changed)
    && NoDup(l) && a.freelist == Ptr(l) && Linked(link, l)
  }

  ghost predicate AreasOk(s: System, g: Setting) {
    && |s.areas| == |s.lists| <= g.stride
    && forall k :: 0 <= k < |s.areas| ==> AreaOk(s.areas[k], k, g, s.lists[k], s.link)
  }

  ghost predicate ThreadsOk(s: System, g: Setting) {
    forall t :: 0 <= t < |s.threads| ==> ThreadOk(s, g, s.threads[t])
  }

  /** No object is in two places: on two lists, on a list and being freed, or being freed twice. */
  ghost predicate AllApart(s: System) {
    && (forall j, k :: 0 <= j < k < |s.lists| ==> Elems(s.lists[j]) !! Elems(s.lists[k]))
    && (forall t, k :: 0 <= t < |s.threads| && 0 <= k < |s.lists| ==> Freed(s.threads[t].pc) !in Elems(s.lists[k]))
    && (forall t, u :: 0 <= t < u < |s.threads| && Freed(s.threads[t].pc) != 0 ==>
        Freed(s.threads[t].pc) != Freed(s.threads[u].pc))
  }

  ghost predicate Inv(s: System, g: Setting) {
    AreasOk(s, g) && ThreadsOk(s, g) && AllApart(s)
  }

  lemma {:induction false} LinkedFrame(link: map<Obj, Obj>, link': map<Obj, Obj>, l: List)
    requires Linked(link, l) && forall o :: o in Elems(l) ==> NextOf(link', o) == NextOf(link, o)
    ensures Linked(link', l)
  {
    if l != Nil {
      LinkedFrame(link, link', l.tail);
    }
  }

  /** The invariant does not speak of who has the other objects. */
  lemma InvHomes(s: System, g: Setting, held: set<Obj>, pages: set<Obj>)
    requires Inv(s, g)
    ensures Inv(s.(held := held, pages := pages), g)
  {
    var s' := s.(held := held, pages := pages);
    forall t | 0 <= t < |s.threads|
      ensures ThreadOk(s', g, s.threads[t])
    {
      assert ThreadOk(s, g, s.threads[t]);
    }
  }

  lemma {:induction false} LinkedNoNull(link: map<Obj, Obj>, l: List)
    requires Linked(link, l)
    ensures 0 !in Elems(l)
  {
    if l != Nil {
      LinkedNoNull(link, l.tail);
    }
  }

  lemma NextTid(tid: nat, stride: nat)
    requires stride > 0
    ensures (tid + stride) % stride == tid % stride
  {
    var q := tid / stride;
    assert tid + stride == (q + 1) * stride + tid % stride;
    ModUnique(tid + stride, stride, q + 1, tid % stride);
  }

  // ---------------------------------------------------------------- what other steps do to a thread

  /** The id of CPU k is renewed: a thread that has the old one is no longer current. */
  lemma ThreadAfterRenewal(s: System, s': System, g: Setting, th: Thread, k: nat)
    requires AreasOk(s, g) && ThreadOk(s, g, th) && k < |s.areas| == |s'.areas| == |s'.lists| && s'.link == s.link
    requires s'.areas[k].tid > s.areas[k].tid
    requires forall j :: 0 <= j < |s.areas| && j != k ==> s'.areas[j] == s.areas[j] && s'.lists[j] == s.lists[j]
    ensures ThreadOk(s', g, th)
  {
  }

  /** A link changes that is not the thread's. */
  lemma ThreadAfterLink(s: System, g: Setting, th: Thread, o: Obj, v: Obj)
    requires ThreadOk(s, g, th) && o != 0 && Freed(th.pc) != o
    ensures ThreadOk(s.(link := s.link[o := v]), g, th)
  {
  }

  /** A list is changed by a slow path, or only its page. */
  lemma ThreadAfterChange(s: System, s': System, g: Setting, th: Thread, k: nat)
    requires AreasOk(s, g) && ThreadOk(s, g, th) && k < |s.areas| == |s'.areas| == |s'.lists|
    requires NextOf(s'.link, Freed(th.pc)) == NextOf(s.link, Freed(th.pc))
    requires s'.areas[k].tid == s.areas[k].tid && (s.areas[k].changed || s'.lists[k] != s.lists[k] ==> s'.areas[k].changed)
    requires forall j :: 0 <= j < |s.areas| && j != k ==> s'.areas[j] == s.areas[j] && s'.lists[j] == s.lists[j]
    ensures ThreadOk(s', g, th)
  {
  }

  // ---------------------------------------------------------------- each step keeps the invariant

  /** A thread moves on and shares nothing. */
  lemma PrivateStep(s: System, g: Setting, t: nat, pc: Pc)
    requires Inv(s, g) && t < |s.threads| && ThreadOk(s, g, s.threads[t].(pc := pc))
    requires Freed(pc) == Freed(s.threads[t].pc) || Freed(pc) == 0 || Loose(s, Freed(pc))
    ensures Inv(WithPc(s, t, pc), g)
  {
    var s' := WithPc(s, t, pc);
    forall u | 0 <= u < |s'.threads|
      ensures ThreadOk(s', g, s'.threads[u])
    {
      assert ThreadOk(s, g, s.threads[u]);
    }
    forall k | 0 <= k < |s.lists|
      ensures 0 !in Elems(s.lists[k])
    {
      LinkedNoNull(s.link, s.lists[k]);
    }
  }

  /** A link changes of an object on no list; the threads' own objects but one are others. */
  lemma LinkStep(s: System, g: Setting, o: Obj, v: Obj)
    requires AreasOk(s, g) && o != 0 && forall k :: 0 <= k < |s.lists| ==> o !in Elems(s.lists[k])
    ensures AreasOk(s.(link := s.link[o := v]), g)
  {
    forall k | 0 <= k < |s.areas|
      ensures Linked(s.link[o := v], s.lists[k])
    {
      LinkedFrame(s.link, s.link[o := v], s.lists[k]);
    }
  }

  lemma ScribbleStep(s: System, g: Setting, o: Obj, v: Obj)
    requires Inv(s, g) && o != 0 && Loose(s, o)
    ensures Inv(s.(link := s.link[o := v]), g)
  {
    LinkStep(s, g, o, v);
    forall t | 0 <= t < |s.threads|
      ensures ThreadOk(s.(link := s.link[o := v]), g, s.threads[t])
    {
      ThreadAfterLink(s, g, s.threads[t], o, v);
    }
  }

  /** A thread links the object it frees to the list. */
  lemma LinkOwn(s: System, g: Setting, t: nat)
    requires Inv(s, g) && t < |s.threads| && s.threads[t].pc.SamePage?
    ensures Inv(GoStep(s, g, t), g)
  {
    var th := s.threads[t];
    assert ThreadOk(s, g, th);
    var o, c, tid := th.pc.o, th.pc.c, th.pc.tid;
    var s1 := s.(link := s.link[o := s.areas[c].freelist]);
    var s' := GoStep(s, g, t);
    LinkStep(s, g, o, s.areas[c].freelist);
    assert AreaOk(s.areas[c], c, g, s.lists[c], s.link);
    forall u | 0 <= u < |s'.threads|
      ensures ThreadOk(s', g, s'.threads[u])
    {
      assert ThreadOk(s, g, s.threads[u]);
      if u != t { ThreadAfterLink(s, g, s.threads[u], o, s.areas[c].freelist); }
    }
  }

  lemma ExchangedAreas(s: System, g: Setting, k: nat, head: Obj, l: List)
    requires AreasOk(s, g) && ThreadsOk(s, g) && k < |s.areas| && head == Ptr(l) && NoDup(l) && Linked(s.link, l)
    ensures AreasOk(Exchanged(s, g, k, head, l), g) && ThreadsOk(Exchanged(s, g, k, head, l), g)
  {
    var s' := Exchanged(s, g, k, head, l);
    NextTid(s.areas[k].tid, g.stride);
    forall u | 0 <= u < |s.threads|
      ensures ThreadOk(s', g, s.threads[u])
    {
      ThreadAfterRenewal(s, s', g, s.threads[u], k);
    }
  }

  /** When the exchange succeeds the thread is on the CPU whose id it read, and nothing happened there since. */
  lemma SucceedsOnlyIfCurrent(s: System, g: Setting, k: nat, tid: nat)
    requires AreasOk(s, g) && k < |s.areas| && !s.areas[k].busy && s.areas[k].tid == tid
    ensures k == tid % g.stride && Current(s, g, tid)
  {
    assert AreaOk(s.areas[k], k, g, s.lists[k], s.link);
  }

  /** The allocation takes the first object, and the list goes on with its successor. */
  lemma PopTakesFirst(s: System, g: Setting, t: nat)
    requires Inv(s, g) && t < |s.threads| && s.threads[t].pc.HasNext? && !s.areas[s.threads[t].cpu].busy
    requires var th := s.threads[t]; Matches(s.areas[th.cpu], th.pc.first, th.pc.tid)
    ensures var th := s.threads[t]; var l := s.lists[th.cpu];
            l != Nil && th.pc.first == l.head && th.pc.next == Ptr(l.tail)
    ensures Inv(GoStep(s, g, t), g) && Loose(GoStep(s, g, t), s.threads[t].pc.first)
  {
    var th := s.threads[t];
    var k := th.cpu;
    assert ThreadOk(s, g, th);
    assert AreaOk(s.areas[k], k, g, s.lists[k], s.link);
    SucceedsOnlyIfCurrent(s, g, k, th.pc.tid);
    var l := s.lists[k];
    ExchangedAreas(s, g, k, th.pc.next, l.tail);
    var s1 := Exchanged(s, g, k, th.pc.next, l.tail);
    assert Elems(l.tail) <= Elems(l);
    assert AllApart(s1);
    PrivateStep(s1, g, t, Resting);
    FirstIsLoose(s, g, k);
  }

  lemma FirstIsLoose(s: System, g: Setting, k: nat)
    requires Inv(s, g) && k < |s.lists| && s.lists[k] != Nil
    ensures Loose(s.(lists := s.lists[k := s.lists[k].tail]), s.lists[k].head)
  {
    var o := s.lists[k].head;
    assert AreaOk(s.areas[k], k, g, s.lists[k], s.link);
    assert o in Elems(s.lists[k]);
    forall j | 0 <= j < |s.lists| && j != k
      ensures o !in Elems(s.lists[j])
    {
      assert Elems(s.lists[j]) !! Elems(s.lists[k]);
    }
  }

  /** The free puts its object in front of the list. */
  lemma PushAddsFirst(s: System, g: Setting, t: nat)
    requires Inv(s, g) && t < |s.threads| && s.threads[t].pc.HasHead? && !s.areas[s.threads[t].cpu].busy
    requires var th := s.threads[t]; Matches(s.areas[th.cpu], th.pc.head, th.pc.tid)
    ensures var th := s.threads[t];
            th.pc.o != 0 && Linked(s.link, Cons(th.pc.o, s.lists[th.cpu])) && th.pc.o !in Elems(s.lists[th.cpu])
  {
    var th := s.threads[t];
    assert ThreadOk(s, g, th);
    assert AreaOk(s.areas[th.cpu], th.cpu, g, s.lists[th.cpu], s.link);
    SucceedsOnlyIfCurrent(s, g, th.cpu, th.pc.tid);
    assert th.pc.o == Freed(th.pc);
  }

  lemma PushKeeps(s: System, g: Setting, t: nat)
    requires Inv(s, g) && t < |s.threads| && s.threads[t].pc.HasHead? && !s.areas[s.threads[t].cpu].busy
    requires var th := s.threads[t]; Matches(s.areas[th.cpu], th.pc.head, th.pc.tid)
    ensures Inv(GoStep(s, g, t), g)
  {
    var k, o := s.threads[t].cpu, s.threads[t].pc.o;
    PushAddsFirst(s, g, t);
    assert AreaOk(s.areas[k], k, g, s.lists[k], s.link);
    var s0, l := WithPc(s, t, Resting), Cons(o, s.lists[k]);
    PrivateStep(s, g, t, Resting);
    ExchangedAreas(s0, g, k, o, l);
    PushApart(s, g, t, k);
    assert GoStep(s, g, t) == Exchanged(s0, g, k, o, l);
  }

  lemma PushApart(s: System, g: Setting, t: nat, k: nat)
    requires Inv(s, g) && t < |s.threads| && k < |s.lists| && Freed(s.threads[t].pc) != 0
    ensures var s0 := WithPc(s, t, Resting); AllApart(s0.(lists := s.lists[k := Cons(Freed(s.threads[t].pc), s.lists[k])]))
  {
    var o := Freed(s.threads[t].pc);
    var s0 := WithPc(s, t, Resting);
    PrivateStep(s, g, t, Resting);
    var lists := s.lists[k := Cons(o, s.lists[k])];
    forall i, j | 0 <= i < j < |lists|
      ensures Elems(lists[i]) !! Elems(lists[j])
    {
      assert Elems(s.lists[i]) !! Elems(s.lists[j]);
      assert o !in Elems(s.lists[i]) && o !in Elems(s.lists[j]);
    }
    forall u, j | 0 <= u < |s0.threads| && 0 <= j < |lists|
      ensures Freed(s0.threads[u].pc) !in Elems(lists[j])
    {
      assert Freed(s0.threads[u].pc) !in Elems(s.lists[j]);
      assert Freed(s0.threads[u].pc) != o;
    }
  }

  lemma GoKeeps(s: System, g: Setting, t: nat)
    requires Inv(s, g) && t < |s.threads| && !s.areas[s.threads[t].cpu].busy
    ensures Inv(GoStep(s, g, t), g)
  {
    var th := s.threads[t];
    var k := th.cpu;
    assert ThreadOk(s, g, th) && AreaOk(s.areas[k], k, g, s.lists[k], s.link);
    match th.pc
    case Resting =>
    case Slow =>
    case SamePage(_, _, _) => LinkOwn(s, g, t);
    case HasNext(tid, first, _) =>
      if Matches(s.areas[k], first, tid) { PopTakesFirst(s, g, t); } else { PrivateStep(s, g, t, Again(0)); }
    case HasHead(o, tid, head) =>
      if Matches(s.areas[k], head, tid) { PushKeeps(s, g, t); } else { PrivateStep(s, g, t, Again(o)); }
    case Checked(o, tid, c) => CheckedKeeps(s, g, t);
    case HasObject(tid, first) => ReadNextKeeps(s, g, t);
    case Again(o) => PrivateStep(s, g, t, HasTid(o, s.areas[k].tid));
    case HasTid(o, tid) => PrivateStep(s, g, t, HasArea(o, tid, k));
    case HasArea(o, tid, c) =>
      assert AreaOk(s.areas[c], c, g, s.lists[c], s.link);
      PrivateStep(s, g, t, if s.areas[c].tid == tid then Checked(o, tid, c) else Again(o));
    case IsLinked(o, tid, c) => PrivateStep(s, g, t, HasHead(o, tid, s.areas[c].freelist));
  }

  lemma CheckedKeeps(s: System, g: Setting, t: nat)
    requires Inv(s, g) && t < |s.threads| && s.threads[t].pc.Checked?
    ensures Inv(GoStep(s, g, t), g)
  {
    var th := s.threads[t];
    assert ThreadOk(s, g, th);
    var o, tid, c := th.pc.o, th.pc.tid, th.pc.c;
    assert AreaOk(s.areas[c], c, g, s.lists[c], s.link);
    if o == 0 {
      PrivateStep(s, g, t, if s.areas[c].freelist == 0 then Slow else HasObject(tid, s.areas[c].freelist));
    } else {
      PrivateStep(s, g, t, if s.areas[c].page == g.pageOf(o) then SamePage(o, tid, c) else Resting);
    }
  }

  /** The successor may be read after the object was taken by someone else; then the id is no longer current. */
  lemma ReadNextKeeps(s: System, g: Setting, t: nat)
    requires Inv(s, g) && t < |s.threads| && s.threads[t].pc.HasObject?
    ensures Inv(GoStep(s, g, t), g)
  {
    var th := s.threads[t];
    assert ThreadOk(s, g, th);
    var c := th.pc.tid % g.stride;
    assert AreaOk(s.areas[c], c, g, s.lists[c], s.link);
    PrivateStep(s, g, t, HasNext(th.pc.tid, th.pc.first, NextOf(s.link, th.pc.first)));
  }

  /** Objects have numbers and pages. */
  ghost predicate Proper(g: Setting) {
    0 !in g.objs && forall o :: o in g.objs ==> g.pageOf(o) != 0
  }

  /** An object that a caller or a page has is nowhere else, and everything anywhere is an object. */
  ghost predicate HomesOk(s: System, g: Setting) {
    && Proper(g) && s.held !! s.pages && s.held <= g.objs && s.pages <= g.objs
    && (forall o :: o in s.held || o in s.pages ==> Loose(s, o))
    && (forall k :: 0 <= k < |s.lists| ==> Elems(s.lists[k]) <= g.objs)
    && forall t :: 0 <= t < |s.threads| && Freed(s.threads[t].pc) != 0 ==> Freed(s.threads[t].pc) in g.objs
  }

  lemma ChangeKeeps(s: System, g: Setting, k: nat, page: nat, l: List, link: map<Obj, Obj>, changed: bool,
      held: set<Obj>, pages: set<Obj>)
    requires Inv(s, g) && HomesOk(s, g) && MayChange(s, k, l, link) && (l == s.lists[k] || changed)
    ensures Inv(Changed(s, k, page, l, link, changed, held, pages), g)
  {
    var s' := Changed(s, k, page, l, link, changed, held, pages);
    forall j | 0 <= j < |s.areas|
      ensures AreaOk(s'.areas[j], j, g, s'.lists[j], link)
    {
      assert AreaOk(s.areas[j], j, g, s.lists[j], s.link);
      if j != k { LinkedFrame(s.link, link, s.lists[j]); }
    }
    forall u | 0 <= u < |s.threads|
      ensures ThreadOk(s', g, s.threads[u])
    {
      assert ThreadOk(s, g, s.threads[u]);
      ThreadAfterChange(s, s', g, s.threads[u], k);
    }
    ChangeApart(s, g, k, l, link);
  }

  lemma ChangeApart(s: System, g: Setting, k: nat, l: List, link: map<Obj, Obj>)
    requires Inv(s, g) && HomesOk(s, g) && MayChange(s, k, l, link)
    ensures AllApart(s.(lists := s.lists[k := l]))
  {
    var lists := s.lists[k := l];
    forall i, j | 0 <= i < j < |lists|
      ensures Elems(lists[i]) !! Elems(lists[j])
    {
      assert Elems(s.lists[i]) !! Elems(s.lists[j]);
    }
    forall u, j | 0 <= u < |s.threads| && 0 <= j < |lists|
      ensures Freed(s.threads[u].pc) !in Elems(lists[j])
    {
      assert Freed(s.threads[u].pc) !in Elems(s.lists[j]);
    }
  }

  lemma TailMayChange(s: System, k: nat, l: List, link: map<Obj, Obj>)
    requires MayChange(s, k, l, link) && l != Nil
    ensures MayChange(s, k, l.tail, link)
  {
  }

  lemma OwnMayChange(s: System, g: Setting, k: nat)
    requires Inv(s, g) && k < |s.areas| && s.areas[k].busy
    ensures MayChange(s, k, s.lists[k], s.link)
  {
    assert AreaOk(s.areas[k], k, g, s.lists[k], s.link);
  }

  lemma RenewKeeps(s: System, g: Setting, k: nat)
    requires Inv(s, g) && k < |s.areas|
    ensures Inv(Renewed(s, g, k), g)
  {
    var s' := Renewed(s, g, k);
    NextTid(s.areas[k].tid, g.stride);
    forall j | 0 <= j < |s.areas|
      ensures AreaOk(s'.areas[j], j, g, s'.lists[j], s'.link)
    {
      assert AreaOk(s.areas[j], j, g, s.lists[j], s.link);
    }
    forall u | 0 <= u < |s.threads|
      ensures ThreadOk(s', g, s.threads[u])
    {
      ThreadAfterRenewal(s, s', g, s.threads[u], k);
    }
  }

  lemma MigrateKeeps(s: System, g: Setting, t: nat, cpu: nat)
    requires Inv(s, g) && t < |s.threads| && cpu < |s.areas|
    ensures Inv(s.(threads := s.threads[t := s.threads[t].(cpu := cpu)]), g)
  {
    var s' := s.(threads := s.threads[t := s.threads[t].(cpu := cpu)]);
    forall u | 0 <= u < |s'.threads|
      ensures ThreadOk(s', g, s'.threads[u])
    {
      assert ThreadOk(s, g, s.threads[u]);
    }
  }

  /** Interrupts go off or on. */
  lemma SwitchKeeps(s: System, g: Setting, k: nat, busy: bool, flush: bool)
    requires Inv(s, g) && k < |s.areas| && (!busy ==> !s.areas[k].changed)
    ensures Inv(Switched(s, k, busy, flush), g)
  {
    var s' := Switched(s, k, busy, flush);
    forall j | 0 <= j < |s.areas|
      ensures AreaOk(s'.areas[j], j, g, s'.lists[j], s'.link)
    {
      assert AreaOk(s.areas[j], j, g, s.lists[j], s.link);
    }
    forall u | 0 <= u < |s'.threads|
      ensures ThreadOk(s', g, s'.threads[u])
    {
      assert ThreadOk(s, g, s.threads[u]);
    }
  }

  lemma SlowKeeps(s: System, g: Setting, a: Action)
    requires Inv(s, g) && HomesOk(s, g) && Enabled(s, g, a) && (a.Take? || a.Refill? || a.GiveUp? || a.Load? || a.Flush?)
    ensures Inv(Apply(s, g, a), g)
  {
    var k := a.k;
    var area, l := s.areas[k], s.lists[k];
    match a
    case Take(_) =>
      OwnMayChange(s, g, k);
      TailMayChange(s, k, l, s.link);
      ChangeKeeps(s, g, k, area.page, l.tail, s.link, true, s.held + {l.head}, s.pages);
    case Refill(_, found, link) =>
      TailMayChange(s, k, found, link);
      ChangeKeeps(s, g, k, area.page, found.tail, link, true, s.held + {found.head}, s.pages - Elems(found));
    case GiveUp(_) =>
      OwnMayChange(s, g, k);
      ChangeKeeps(s, g, k, 0, Nil, s.link, false, s.held, s.pages);
    case Load(_, page, found, link) =>
      TailMayChange(s, k, found, link);
      ChangeKeeps(s, g, k, page, found.tail, link, true, s.held + {found.head}, s.pages - Elems(found));
    case Flush(_, link) => ChangeKeeps(s, g, k, 0, Nil, link, true, s.held, s.pages + Elems(l));
  }

  lemma StepKeeps(s: System, g: Setting, a: Action)
    requires Inv(s, g) && HomesOk(s, g) && Enabled(s, g, a)
    ensures Inv(Apply(s, g, a), g)
  {
    match a
    case Begin(t, o) =>
      assert ThreadOk(s, g, s.threads[t]);
      InvHomes(s, g, s.held - {o}, s.pages);
      PrivateStep(s.(held := s.held - {o}), g, t, Again(o));
    case Go(t) =>
      GoKeeps(s, g, t);
      InvHomes(GoStep(s, g, t), g, HeldAfter(s, t), PagesAfter(s, g, t));
    case Migrate(t, cpu) => MigrateKeeps(s, g, t, cpu);
    case Scribble(o, v) => ScribbleStep(s, g, o, v);
    case Enter(t) =>
      assert ThreadOk(s, g, s.threads[t]);
      PrivateStep(s, g, t, Resting);
      SwitchKeeps(WithPc(s, t, Resting), g, s.threads[t].cpu, true, false);
    case Interrupt(k) => SwitchKeeps(s, g, k, true, true);
    case Renew(k) => RenewKeeps(s, g, k);
    case Leave(k) => SwitchKeeps(s, g, k, false, false);
    case _ => SlowKeeps(s, g, a);
  }
}
