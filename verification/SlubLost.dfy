/** A run of one CPU and two threads in which an object is lost. Thread 0 frees it, and thread 1 allocates three times. */
module SlubLost {
  import opened SlubList
  import opened SlubFastPath
  import opened SlubPages

  function Sys(a: Area, x: Pc, y: Pc, link: map<Obj, Obj>, l: List, held: set<Obj>, pages: set<Obj>): System {
    System([a], [Thread(0, x), Thread(0, y)], link, [l], held, pages)
  }

  ghost predicate Leads(g: Setting, run: seq<Action>, s: System) {
    Legal(1, 2, g, run) && After(1, 2, g, run) == s
  }

  lemma Took(g: Setting, run: seq<Action>, s: System, a: Action)
    requires Leads(g, run, s) && Enabled(s, g, a)
    ensures Leads(g, run + [a], Apply(s, g, a))
  {
    assert (run + [a])[..|run|] == run;
  }

  /** A step of thread 1 that shares nothing. */
  lemma Went(g: Setting, run: seq<Action>, a: Area, x: Pc, y: Pc, link: map<Obj, Obj>, held: set<Obj>,
      pages: set<Obj>, y': Pc)
    requires Leads(g, run, Sys(a, x, y, link, Nil, held, pages)) && !a.busy && !y.HasNext? && !y.Checked?
    requires GoStep(Sys(a, x, y, link, Nil, held, pages), g, 1) == Sys(a, x, y', link, Nil, held, pages)
    ensures Leads(g, run + [Go(1)], Sys(a, x, y', link, Nil, held, pages))
  {
    Took(g, run, Sys(a, x, y, link, Nil, held, pages), Go(1));
  }

  /** Thread 1 wants an object, reads an empty list, and needs the slow path. */
  lemma FindsNothing(g: Setting, run0: seq<Action>, a: Area, x: Pc, link: map<Obj, Obj>, held: set<Obj>, pages: set<Obj>)
      returns (run: seq<Action>)
    requires Leads(g, run0, Sys(a, x, Resting, link, Nil, held, pages)) && !a.busy && a.freelist == 0 && 0 !in held
    ensures Leads(g, run, Sys(a, x, Slow, link, Nil, held, pages))
  {
    WantsOne(g, run0, a, x, link, held, pages);
    run := run0 + [Begin(1, 0)];
    Went(g, run, a, x, Again(0), link, held, pages, HasTid(0, a.tid));
    run := run + [Go(1)];
    Went(g, run, a, x, HasTid(0, a.tid), link, held, pages, HasArea(0, a.tid, 0));
    run := run + [Go(1)];
    Went(g, run, a, x, HasArea(0, a.tid, 0), link, held, pages, Checked(0, a.tid, 0));
    run := run + [Go(1)];
    NeedsSlow(g, run, a, x, link, held, pages);
    run := run + [Go(1)];
  }

  lemma WantsOne(g: Setting, run: seq<Action>, a: Area, x: Pc, link: map<Obj, Obj>, held: set<Obj>, pages: set<Obj>)
    requires Leads(g, run, Sys(a, x, Resting, link, Nil, held, pages)) && 0 !in held
    ensures Leads(g, run + [Begin(1, 0)], Sys(a, x, Again(0), link, Nil, held, pages))
  {
    Took(g, run, Sys(a, x, Resting, link, Nil, held, pages), Begin(1, 0));
    assert held - {0} == held;
  }

  lemma NeedsSlow(g: Setting, run: seq<Action>, a: Area, x: Pc, link: map<Obj, Obj>, held: set<Obj>, pages: set<Obj>)
    requires Leads(g, run, Sys(a, x, Checked(0, a.tid, 0), link, Nil, held, pages)) && !a.busy && a.freelist == 0
    ensures Leads(g, run + [Go(1)], Sys(a, x, Slow, link, Nil, held, pages))
  {
    Took(g, run, Sys(a, x, Checked(0, a.tid, 0), link, Nil, held, pages), Go(1));
  }

  function Quiet(page: nat, tid: nat, moved: bool): Area {
    Area(0, page, tid, false, false, false, moved)
  }

  lemma Entered(g: Setting, run: seq<Action>, a: Area, x: Pc, link: map<Obj, Obj>, l: List, held: set<Obj>, pages: set<Obj>)
    requires Leads(g, run, Sys(a, x, Slow, link, l, held, pages)) && !a.busy
    ensures Leads(g, run + [Enter(1)], Sys(a.(busy := true, flush := false), x, Resting, link, l, held, pages))
  {
    var s := Sys(a, x, Slow, link, l, held, pages);
    Took(g, run, s, Enter(1));
    assert Apply(s, g, Enter(1)) == Sys(a.(busy := true, flush := false), x, Resting, link, l, held, pages);
  }

  lemma Loaded(g: Setting, run: seq<Action>, a: Area, x: Pc, link: map<Obj, Obj>, l: List, held: set<Obj>,
      pages: set<Obj>, o: Obj)
    requires Leads(g, run, Sys(a, x, Resting, link, l, held, pages)) && a.busy && !a.flush && a.page == 0
    requires o in pages && o != 0 && g.pageOf(o) != 0 && NextOf(link, o) == 0
    ensures Leads(g, run + [Load(0, g.pageOf(o), Cons(o, Nil), link)],
                  Sys(Area(0, g.pageOf(o), a.tid, true, false, true, true), x, Resting, link, Nil, held + {o}, pages - {o}))
  {
    var s, load := Sys(a, x, Resting, link, l, held, pages), Load(0, g.pageOf(o), Cons(o, Nil), link);
    assert Elems(Cons(o, Nil)) == {o};
    assert Found(s, g, 0, g.pageOf(o), Cons(o, Nil), link);
    Took(g, run, s, load);
  }

  /** The slow path sets up a page with one free object and takes it, whatever the CPU's list held. */
  lemma PageSetUp(g: Setting, run0: seq<Action>, a: Area, x: Pc, link: map<Obj, Obj>, l: List, held: set<Obj>,
      pages: set<Obj>, o: Obj)
      returns (run: seq<Action>)
    requires Leads(g, run0, Sys(a, x, Slow, link, l, held, pages)) && !a.busy && a.page == 0
    requires o in pages && o != 0 && g.pageOf(o) != 0 && NextOf(link, o) == 0
    ensures Leads(g, run, Sys(Quiet(g.pageOf(o), a.tid + g.stride, false), x, Resting, link, Nil, held + {o}, pages - {o}))
  {
    var b := a.(busy := true, flush := false);
    Entered(g, run0, a, x, link, l, held, pages);
    run := run0 + [Enter(1)];
    Loaded(g, run, b, x, link, l, held, pages, o);
    run := run + [Load(0, g.pageOf(o), Cons(o, Nil), link)];
    run := NewId(g, run, Area(0, g.pageOf(o), a.tid, true, false, true, true), x, link, held + {o}, pages - {o});
  }

  lemma NewId(g: Setting, run0: seq<Action>, a: Area, x: Pc, link: map<Obj, Obj>, held: set<Obj>, pages: set<Obj>)
    returns (run: seq<Action>)
    requires Leads(g, run0, Sys(a, x, Resting, link, Nil, held, pages)) && a.busy && a.freelist == 0
    ensures Leads(g, run, Sys(Quiet(a.page, a.tid + g.stride, false), x, Resting, link, Nil, held, pages))
  {
    var s := Sys(a, x, Resting, link, Nil, held, pages);
    Took(g, run0, s, Renew(0));
    run := run0 + [Renew(0)];
    var s' := Sys(a.(tid := a.tid + g.stride, changed := false, moved := false), x, Resting, link, Nil, held, pages);
    assert Apply(s, g, Renew(0)) == s';
    Took(g, run, s', Leave(0));
    run := run + [Leave(0)];
  }

  /** The slow path gives up the page and finds no other. */
  lemma PageGivenUp(g: Setting, run0: seq<Action>, page: nat, tid: nat, x: Pc, link: map<Obj, Obj>, held: set<Obj>,
      pages: set<Obj>)
      returns (run: seq<Action>)
    requires Leads(g, run0, Sys(Quiet(page, tid, false), x, Slow, link, Nil, held, pages)) && page != 0
    ensures Leads(g, run, Sys(Quiet(0, tid, true), x, Resting, link, Nil, held, pages))
  {
    Entered(g, run0, Quiet(page, tid, false), x, link, Nil, held, pages);
    run := run0 + [Enter(1)];
    var s1 := Sys(Area(0, page, tid, true, false, false, false), x, Resting, link, Nil, held, pages);
    Took(g, run, s1, GiveUp(0));
    run := run + [GiveUp(0)];
    var s2 := Sys(Area(0, 0, tid, true, false, false, true), x, Resting, link, Nil, held, pages);
    assert Apply(s1, g, GiveUp(0)) == s2;
    Took(g, run, s2, Leave(0));
    run := run + [Leave(0)];
  }

  /** A step of thread 0 that shares nothing. */
  lemma Came(g: Setting, run: seq<Action>, a: Area, x: Pc, y: Pc, link: map<Obj, Obj>, held: set<Obj>,
      pages: set<Obj>, x': Pc)
    requires Leads(g, run, Sys(a, x, y, link, Nil, held, pages)) && !a.busy && !x.HasNext?
    requires x.Checked? ==> x.o == 0 || x.c >= 1 || a.page == g.pageOf(x.o)
    requires GoStep(Sys(a, x, y, link, Nil, held, pages), g, 0) == Sys(a, x', y, link, Nil, held, pages)
    ensures Leads(g, run + [Go(0)], Sys(a, x', y, link, Nil, held, pages))
  {
    Took(g, run, Sys(a, x, y, link, Nil, held, pages), Go(0));
  }

  /** Thread 0 frees `o` and finds its page on the CPU. */
  lemma FindsPage(g: Setting, run0: seq<Action>, o: Obj, tid: nat, pages: set<Obj>) returns (run: seq<Action>)
    requires o != 0 && Leads(g, run0, Sys(Quiet(g.pageOf(o), tid, false), Resting, Resting, map[], Nil, {o}, pages))
    ensures Leads(g, run, Sys(Quiet(g.pageOf(o), tid, false), SamePage(o, tid, 0), Resting, map[], Nil, {}, pages))
  {
    var a := Quiet(g.pageOf(o), tid, false);
    var s := Sys(a, Resting, Resting, map[], Nil, {o}, pages);
    Took(g, run0, s, Begin(0, o));
    run := run0 + [Begin(0, o)];
    assert Apply(s, g, Begin(0, o)) == Sys(a, Again(o), Resting, map[], Nil, {}, pages);
    Came(g, run, a, Again(o), Resting, map[], {}, pages, HasTid(o, tid));
    run := run + [Go(0)];
    Came(g, run, a, HasTid(o, tid), Resting, map[], {}, pages, HasArea(o, tid, 0));
    run := run + [Go(0)];
    Came(g, run, a, HasArea(o, tid, 0), Resting, map[], {}, pages, Checked(o, tid, 0));
    run := run + [Go(0)];
    Came(g, run, a, Checked(o, tid, 0), Resting, map[], {}, pages, SamePage(o, tid, 0));
    run := run + [Go(0)];
  }

  /** Thread 0 goes on, and its exchange is late. */
  lemma IsLate(g: Setting, run0: seq<Action>, o: Obj, tid: nat, pages: set<Obj>) returns (run: seq<Action>)
    requires o != 0 && Leads(g, run0, Sys(Quiet(0, tid, true), SamePage(o, tid, 0), Slow, map[], Nil, {}, pages))
    ensures Leads(g, run, Sys(Area(o, 0, tid + g.stride, false, false, false, false), Resting, Slow, map[o := 0],
            Cons(o, Nil), {}, pages))
  {
    var a, link := Quiet(0, tid, true), map[o := 0];
    var s := Sys(a, SamePage(o, tid, 0), Slow, map[], Nil, {}, pages);
    Took(g, run0, s, Go(0));
    run := run0 + [Go(0)];
    assert map[][o := 0] == link;
    assert Apply(s, g, Go(0)) == Sys(a, IsLinked(o, tid, 0), Slow, link, Nil, {}, pages);
    Came(g, run, a, IsLinked(o, tid, 0), Slow, link, {}, pages, HasHead(o, tid, 0));
    run := run + [Go(0)];
    Took(g, run, Sys(a, HasHead(o, tid, 0), Slow, link, Nil, {}, pages), Go(0));
    run := run + [Go(0)];
  }

  lemma Starts(g: Setting)
    ensures Leads(g, [], Sys(Quiet(0, 0, false), Resting, Resting, map[], Nil, {}, g.objs))
  {
    assert Start(1, 2, g) == Sys(Quiet(0, 0, false), Resting, Resting, map[], Nil, {}, g.objs);
  }

  /** Thread 1 gets the last object of a page, and then thread 0 is to free it and finds its page on the CPU. Meanwhile an
      allocation by thread 1 gives up the page and fails, and another one reads that the list is empty. Now the exchange puts
      the object on the list, although the CPU has no page; and thread 1, in its slow path, sees no page and sets up another,
      over the list. The object is nowhere. */
  lemma ObjectIsLost(g: Setting, o: Obj, p: Obj) returns (run: seq<Action>)
    requires Proper(g) && o in g.objs && p in g.objs && o != p
    ensures Legal(1, 2, g, run) && !Somewhere(After(1, 2, g, run), o)
  {
    Starts(g);
    run := FindsNothing(g, [], Quiet(0, 0, false), Resting, map[], {}, g.objs);
    run := PageSetUp(g, run, Quiet(0, 0, false), Resting, map[], Nil, {}, g.objs, o);
    var tid, left := 0 + g.stride, g.objs - {o};
    assert {} + {o} == {o};
    run := FindsPage(g, run, o, tid, left);
    var x := SamePage(o, tid, 0);
    run := FindsNothing(g, run, Quiet(g.pageOf(o), tid, false), x, map[], {}, left);
    run := PageGivenUp(g, run, g.pageOf(o), tid, x, map[], {}, left);
    run := FindsNothing(g, run, Quiet(0, tid, true), x, map[], {}, left);
    run := IsLate(g, run, o, tid, left);
    run := PageSetUp(g, run, Area(o, 0, tid + g.stride, false, false, false, false), Resting, map[o := 0], Cons(o,
        Nil), {}, left, p);
  }
}
