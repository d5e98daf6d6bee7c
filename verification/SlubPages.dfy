/** Where the objects are while the fast paths run, step by step: exactly which steps put an object on the list of a CPU that
    does not have its page, and exactly which steps lose one. */
module SlubPages {
  import opened SlubList
  import opened SlubFastPath
  import opened Align

  ghost predicate OnList(s: System, o: Obj) {
    exists k :: 0 <= k < |s.lists| && o in Elems(s.lists[k])
  }

  ghost predicate BeingFreed(s: System, o: Obj) {
    exists t :: 0 <= t < |s.threads| && Freed(s.threads[t].pc) == o
  }

  /** The object is with a caller, on its page's freelist, on a CPU's list, or being freed. */
  ghost predicate Somewhere(s: System, o: Obj) {
    o in s.held || o in s.pages || OnList(s, o) || BeingFreed(s, o)
  }

  /** ___slab_alloc() finds no page on its CPU and sets up another, with its list, over a list that holds `o`. */
  ghost predicate Overwrites(s: System, a: Action, o: Obj) {
    a.Load? && a.k < |s.lists| && o in Elems(s.lists[a.k])
  }

  predicate SameFreed(s: System, s': System) {
    |s'.threads| == |s.threads| && forall t :: 0 <= t < |s.threads| ==> Freed(s'.threads[t].pc) == Freed(s.threads[t].pc)
  }

  /** Only thread t frees another object now. */
  predicate FreedBut(s: System, s': System, t: nat, o: Obj) {
    && t < |s.threads| == |s'.threads| && Freed(s'.threads[t].pc) == o
    && forall u :: 0 <= u < |s.threads| && u != t ==> Freed(s'.threads[u].pc) == Freed(s.threads[u].pc)
  }

  /** Nothing moves. */
  lemma NothingMoves(s: System, s': System, g: Setting)
    requires HomesOk(s, g) && SameFreed(s, s') && s'.lists == s.lists && s'.held == s.held && s'.pages == s.pages
    ensures HomesOk(s', g) && forall o :: o in g.objs ==> (Somewhere(s', o) <==> Somewhere(s, o))
  {
    forall o
      ensures Loose(s, o) ==> Loose(s', o)
    {
    }
    forall o | o in g.objs
      ensures BeingFreed(s', o) <==> BeingFreed(s, o)
    {
      if t :| 0 <= t < |s.threads| && Freed(s.threads[t].pc) == o { assert Freed(s'.threads[t].pc) == o; }
      if t :| 0 <= t < |s'.threads| && Freed(s'.threads[t].pc) == o { assert Freed(s.threads[t].pc) == o; }
    }
  }

  /** A caller gives its object to a thread to free. */
  lemma CallerFrees(s: System, s': System, g: Setting, t: nat, o: Obj)
    requires HomesOk(s, g) && o in s.held && FreedBut(s, s', t, o) && Freed(s.threads[t].pc) == 0
    requires s'.lists == s.lists && s'.held == s.held - {o} && s'.pages == s.pages
    ensures HomesOk(s', g) && forall x :: x in g.objs ==> (Somewhere(s', x) <==> Somewhere(s, x))
  {
    forall x | x in s'.held || x in s'.pages
      ensures Loose(s', x)
    {
      assert Loose(s, x);
    }
    forall x | x in g.objs
      ensures Somewhere(s', x) <==> Somewhere(s, x)
    {
      if x == o {
        assert Freed(s'.threads[t].pc) == o;
      } else {
        FreedElse(s, s', t, o, 0, x);
      }
    }
  }

  lemma FreedElse(s: System, s': System, t: nat, now: Obj, was: Obj, x: Obj)
    requires FreedBut(s, s', t, now) && Freed(s.threads[t].pc) == was && x != now && x != was
    ensures BeingFreed(s', x) <==> BeingFreed(s, x)
  {
    if u :| 0 <= u < |s.threads| && Freed(s.threads[u].pc) == x { assert Freed(s'.threads[u].pc) == x; }
    if u :| 0 <= u < |s'.threads| && Freed(s'.threads[u].pc) == x { assert Freed(s.threads[u].pc) == x; }
  }

  /** A thread is done with its object, which is on its page now. */
  lemma PageGetsBack(s: System, s': System, g: Setting, t: nat)
    requires Inv(s, g) && HomesOk(s, g) && FreedBut(s, s', t, 0) && Freed(s.threads[t].pc) != 0
    requires s'.lists == s.lists && s'.held == s.held && s'.pages == s.pages + {Freed(s.threads[t].pc)}
    ensures HomesOk(s', g) && forall x :: x in g.objs ==> (Somewhere(s', x) <==> Somewhere(s, x))
  {
    var o := Freed(s.threads[t].pc);
    forall x | x in s'.held || x in s'.pages
      ensures Loose(s', x)
    {
      if x != o { assert Loose(s, x); }
    }
    forall x | x in g.objs
      ensures Somewhere(s', x) <==> Somewhere(s, x)
    {
      if x == o {
        assert BeingFreed(s, o);
      } else {
        FreedElse(s, s', t, 0, o, x);
      }
    }
    assert o in s.held ==> Loose(s, o);
  }

  lemma OnListUpdated(s: System, s': System, k: nat, x: Obj)
    requires k < |s.lists| == |s'.lists| && s'.lists == s.lists[k := s'.lists[k]]
             && (x in Elems(s'.lists[k]) <==> x in Elems(s.lists[k]))
    ensures OnList(s', x) <==> OnList(s, x)
  {
    if j :| 0 <= j < |s.lists| && x in Elems(s.lists[j]) { assert x in Elems(s'.lists[j]); }
    if j :| 0 <= j < |s'.lists| && x in Elems(s'.lists[j]) { assert x in Elems(s.lists[j]); }
  }

  /** A thread is done with its object, which is first on CPU k's list now. */
  lemma ListGets(s: System, s': System, g: Setting, t: nat, k: nat)
    requires Inv(s, g) && HomesOk(s, g) && FreedBut(s, s', t, 0) && Freed(s.threads[t].pc) != 0 && k < |s.lists|
    requires s'.lists == s.lists[k := Cons(Freed(s.threads[t].pc), s.lists[k])] && s'.held == s.held && s'.pages == s.pages
    ensures HomesOk(s', g) && forall x :: x in g.objs ==> (Somewhere(s', x) <==> Somewhere(s, x))
  {
    var o := Freed(s.threads[t].pc);
    forall x | x in s'.held || x in s'.pages
      ensures Loose(s', x)
    {
      assert Loose(s, x);
    }
    forall x | x in g.objs
      ensures Somewhere(s', x) <==> Somewhere(s, x)
    {
      if x == o {
        assert BeingFreed(s, o) && o in Elems(s'.lists[k]);
      } else {
        FreedElse(s, s', t, 0, o, x);
        OnListUpdated(s, s', k, x);
      }
    }
  }

  /** The first object of CPU k's list goes to a caller. */
  lemma CallerGetsFirst(s: System, s': System, g: Setting, k: nat)
    requires Inv(s, g) && HomesOk(s, g) && SameFreed(s, s') && k < |s.lists| && s.lists[k] != Nil
    requires s'.lists == s.lists[k := s.lists[k].tail] && s'.held == s.held + {s.lists[k].head} && s'.pages == s.pages
    ensures HomesOk(s', g) && forall x :: x in g.objs ==> (Somewhere(s', x) <==> Somewhere(s, x))
  {
    var o := s.lists[k].head;
    FirstIsLoose(s, g, k);
    assert o in Elems(s.lists[k]);
    assert o in s.pages || o in s.held ==> Loose(s, o);
    forall x | x in s'.held || x in s'.pages
      ensures Loose(s', x)
    {
      if x != o { assert Loose(s, x); }
    }
    forall x | x in g.objs
      ensures Somewhere(s', x) <==> Somewhere(s, x)
    {
      FreedSame(s, s', x);
      if x == o {
        assert OnList(s, o);
      } else {
        OnListUpdated(s, s', k, x);
      }
    }
  }

  lemma FreedSame(s: System, s': System, x: Obj)
    requires SameFreed(s, s')
    ensures BeingFreed(s', x) <==> BeingFreed(s, x)
  {
    if u :| 0 <= u < |s.threads| && Freed(s.threads[u].pc) == x { assert Freed(s'.threads[u].pc) == x; }
    if u :| 0 <= u < |s'.threads| && Freed(s'.threads[u].pc) == x { assert Freed(s.threads[u].pc) == x; }
  }

  /** A freelist of a page becomes CPU k's list, its first object going to a caller. Whatever the list held is nowhere now. */
  lemma PageFillsList(s: System, s': System, g: Setting, k: nat, l: List)
    requires Inv(s, g) && HomesOk(s, g) && SameFreed(s, s') && k < |s.lists| && l != Nil && NoDup(l) && Elems(l) <= s.pages
    requires s'.lists == s.lists[k := l.tail] && s'.held == s.held + {l.head} && s'.pages == s.pages - Elems(l)
    ensures HomesOk(s', g)
    ensures forall x :: x in g.objs ==> (Somewhere(s', x) <==> Somewhere(s, x) && x !in Elems(s.lists[k]))
  {
    assert l.head in Elems(l) && Elems(l.tail) <= Elems(l);
    forall x | x in s'.held || x in s'.pages
      ensures Loose(s', x)
    {
      assert Loose(s, x);
    }
    forall x | x in g.objs
      ensures Somewhere(s', x) <==> Somewhere(s, x) && x !in Elems(s.lists[k])
    {
      FreedSame(s, s', x);
      if x in Elems(s.lists[k]) {
        Gone(s, s', g, k, l, x);
      } else if x in Elems(l) {
        assert Loose(s, x);
        assert x == l.head || x in Elems(s'.lists[k]);
      } else {
        OnListUpdated(s, s', k, x);
      }
    }
  }

  /** It was nowhere else. */
  lemma Gone(s: System, s': System, g: Setting, k: nat, l: List, x: Obj)
    requires Inv(s, g) && HomesOk(s, g) && SameFreed(s, s') && k < |s.lists| && l != Nil && NoDup(l) && Elems(l) <= s.pages
    requires s'.lists == s.lists[k := l.tail] && s'.held == s.held + {l.head} && s'.pages == s.pages - Elems(l)
    requires x in g.objs && x in Elems(s.lists[k])
    ensures !Somewhere(s', x)
  {
    assert l.head in Elems(l) && Elems(l.tail) <= Elems(l);
    assert x in s.pages || x in s.held ==> Loose(s, x);
    forall j | 0 <= j < |s'.lists|
      ensures x !in Elems(s'.lists[j])
    {
      assert j < k ==> Elems(s.lists[j]) !! Elems(s.lists[k]);
      assert k < j ==> Elems(s.lists[k]) !! Elems(s.lists[j]);
    }
  }

  /** CPU k's list goes back to its page. */
  lemma PageGetsList(s: System, s': System, g: Setting, k: nat)
    requires Inv(s, g) && HomesOk(s, g) && SameFreed(s, s') && k < |s.lists|
    requires s'.lists == s.lists[k := Nil] && s'.held == s.held && s'.pages == s.pages + Elems(s.lists[k])
    ensures HomesOk(s', g) && forall x :: x in g.objs ==> (Somewhere(s', x) <==> Somewhere(s, x))
  {
    forall x | x in s'.held || x in s'.pages
      ensures Loose(s', x) && !(x in s'.held && x in s'.pages)
    {
      assert x in s.held || x in s.pages ==> Loose(s, x);
      if x in Elems(s.lists[k]) { OnlyThere(s, s', g, k, x); }
    }
    forall x | x in g.objs
      ensures Somewhere(s', x) <==> Somewhere(s, x)
    {
      FreedSame(s, s', x);
      if x in Elems(s.lists[k]) {
        assert OnList(s, x);
      } else {
        OnListUpdated(s, s', k, x);
      }
    }
  }

  lemma OnlyThere(s: System, s': System, g: Setting, k: nat, x: Obj)
    requires Inv(s, g) && HomesOk(s, g) && SameFreed(s, s') && k < |s.lists| && s'.lists == s.lists[k := Nil]
             && x in Elems(s.lists[k])
    ensures Loose(s', x)
  {
    forall j | 0 <= j < |s'.lists|
      ensures x !in Elems(s'.lists[j])
    {
      assert j < k ==> Elems(s.lists[j]) !! Elems(s.lists[k]);
      assert k < j ==> Elems(s.lists[k]) !! Elems(s.lists[j]);
    }
  }

  predicate Pops(s: System, t: nat) {
    && t < |s.threads| && s.threads[t].cpu < |s.areas| && s.threads[t].pc.HasNext?
    && Matches(s.areas[s.threads[t].cpu], s.threads[t].pc.first, s.threads[t].pc.tid)
  }

  predicate Pushes(s: System, t: nat) {
    && t < |s.threads| && s.threads[t].cpu < |s.areas| && s.threads[t].pc.HasHead?
    && Matches(s.areas[s.threads[t].cpu], s.threads[t].pc.head, s.threads[t].pc.tid)
  }

  predicate GivesBack(s: System, g: Setting, t: nat) {
    && t < |s.threads| && s.threads[t].pc.Checked? && s.threads[t].pc.o != 0 && s.threads[t].pc.c < |s.areas|
    && s.areas[s.threads[t].pc.c].page != g.pageOf(s.threads[t].pc.o)
  }

  lemma PopPlaces(s: System, g: Setting, t: nat)
    requires Inv(s, g) && HomesOk(s, g) && Enabled(s, g, Go(t)) && Pops(s, t)
    ensures var s' := Apply(s, g, Go(t)); HomesOk(s', g) && forall x :: x in g.objs ==>
            (Somewhere(s', x) <==> Somewhere(s, x))
  {
    PopTakesFirst(s, g, t);
    CallerGetsFirst(s, Apply(s, g, Go(t)), g, s.threads[t].cpu);
  }

  lemma PushPlaces(s: System, g: Setting, t: nat)
    requires Inv(s, g) && HomesOk(s, g) && Enabled(s, g, Go(t)) && Pushes(s, t)
    ensures var s' := Apply(s, g, Go(t)); HomesOk(s', g) && forall x :: x in g.objs ==>
            (Somewhere(s', x) <==> Somewhere(s, x))
  {
    assert ThreadOk(s, g, s.threads[t]);
    ListGets(s, Apply(s, g, Go(t)), g, t, s.threads[t].cpu);
  }

  /** Any other step of a thread leaves lists and callers alone. */
  lemma QuietGo(s: System, g: Setting, t: nat)
    requires Inv(s, g) && Enabled(s, g, Go(t)) && !Pops(s, t) && !Pushes(s, t)
    ensures var s' := Apply(s, g, Go(t));
            && s'.lists == s.lists && s'.areas == s.areas && s'.held == s.held
            && s'.pages == (if GivesBack(s, g, t) then s.pages + {s.threads[t].pc.o} else s.pages)
            && FreedBut(s, s', t, if GivesBack(s, g, t) then 0 else Freed(s.threads[t].pc))
  {
    assert ThreadOk(s, g, s.threads[t]);
  }

  lemma GoPlaces(s: System, g: Setting, t: nat)
    requires Inv(s, g) && HomesOk(s, g) && Enabled(s, g, Go(t))
    ensures var s' := Apply(s, g, Go(t)); HomesOk(s', g) && forall x :: x in g.objs ==>
            (Somewhere(s', x) <==> Somewhere(s, x))
  {
    if Pops(s, t) {
      PopPlaces(s, g, t);
    } else if Pushes(s, t) {
      PushPlaces(s, g, t);
    } else {
      QuietGo(s, g, t);
      if GivesBack(s, g, t) {
        PageGetsBack(s, Apply(s, g, Go(t)), g, t);
      } else {
        NothingMoves(s, Apply(s, g, Go(t)), g);
      }
    }
  }

  /** Objects stay somewhere, except that a list that is overwritten is lost; and what is lost stays lost. */
  lemma StepPlaces(s: System, g: Setting, a: Action)
    requires Inv(s, g) && HomesOk(s, g) && Enabled(s, g, a)
    ensures HomesOk(Apply(s, g, a), g)
    ensures forall x :: x in g.objs ==> (Somewhere(Apply(s, g, a), x) <==> Somewhere(s, x) && !Overwrites(s, a, x))
  {
    var s' := Apply(s, g, a);
    match a
    case Begin(t, o) => if o == 0 { NothingMoves(s, s', g); } else { CallerFrees(s, s', g, t, o); }
    case Go(t) => GoPlaces(s, g, t);
    case Take(k) => CallerGetsFirst(s, s', g, k);
    case Refill(k, l, _) => PageFillsList(s, s', g, k, l);
    case Load(k, _, l, _) => PageFillsList(s, s', g, k, l);
    case Flush(k, _) => PageGetsList(s, s', g, k);
    case GiveUp(k) =>
      assert s.lists[k := Nil] == s.lists;
      NothingMoves(s, s', g);
    case _ => NothingMoves(s, s', g);
  }

  // ---------------------------------------------------------------- which page an object goes to

  /** Objects on a CPU's list are of the CPU's page. */
  ghost predicate OwnPage(a: Area, l: List, g: Setting) {
    forall o :: o in Elems(l) ==> g.pageOf(o) == a.page
  }

  ghost predicate OwnPages(s: System, g: Setting) {
    |s.areas| == |s.lists| && forall k :: 0 <= k < |s.areas| ==> OwnPage(s.areas[k], s.lists[k], g)
  }

  /** The exchange of a free succeeds on a CPU that gave up its page since the id was read: the id is the same, and the list is
      as empty as it was. */
  predicate Late(s: System, a: Action) {
    a.Go? && Pushes(s, a.t) && s.areas[s.threads[a.t].cpu].moved
  }

  /** The page that a thread found is still there, unless the page was given up or the id is no longer current. */
  predicate PageOk(s: System, g: Setting, pc: Pc) {
    pc.SamePage? || pc.IsLinked? || pc.HasHead? ==>
      g.stride > 0 && var c := pc.tid % g.stride;
      c < |s.areas| && (s.areas[c].tid == pc.tid && !s.areas[c].moved ==> s.areas[c].page == g.pageOf(pc.o))
  }

  predicate GivenUp(a: Area, l: List) {
    !a.busy && a.moved ==> a.page == 0 && l == Nil
  }

  /** While interrupts are on, a page that changed without a new id was given up. */
  ghost predicate PagesOk(s: System, g: Setting) {
    && |s.areas| == |s.lists| && (forall k :: 0 <= k < |s.areas| ==> GivenUp(s.areas[k], s.lists[k]))
    && forall t :: 0 <= t < |s.threads| ==> PageOk(s, g, s.threads[t].pc)
  }

  /** A thread's step that leaves the areas alone. */
  lemma QuietPages(s: System, g: Setting, t: nat)
    requires Inv(s, g) && PagesOk(s, g) && Enabled(s, g, Go(t)) && !Pops(s, t) && !Pushes(s, t)
    ensures PagesOk(Apply(s, g, Go(t)), g)
  {
    QuietGo(s, g, t);
    var s', th := Apply(s, g, Go(t)), s.threads[t];
    assert ThreadOk(s, g, th) && PageOk(s, g, th.pc);
    forall u | 0 <= u < |s'.threads|
      ensures PageOk(s', g, s'.threads[u].pc)
    {
      assert PageOk(s, g, s.threads[u].pc);
    }
  }

  predicate SameOrNew(pc: Pc, pc': Pc) {
    pc' == pc || pc'.Resting? || pc'.Again?
  }

  /** CPU k has a new id. */
  lemma NewIdPages(s: System, s': System, g: Setting, k: nat)
    requires Inv(s, g) && PagesOk(s, g) && k < |s.areas| == |s'.areas| == |s'.lists| && |s'.threads| == |s.threads|
    requires forall t :: 0 <= t < |s.threads| ==> SameOrNew(s.threads[t].pc, s'.threads[t].pc)
    requires s'.areas[k].tid > s.areas[k].tid && !s'.areas[k].moved
    requires forall j :: 0 <= j < |s.areas| && j != k ==> s'.areas[j] == s.areas[j] && s'.lists[j] == s.lists[j]
    ensures PagesOk(s', g)
  {
    forall u | 0 <= u < |s'.threads|
      ensures PageOk(s', g, s'.threads[u].pc)
    {
      assert PageOk(s, g, s.threads[u].pc) && ThreadOk(s, g, s.threads[u]);
    }
    forall j | 0 <= j < |s'.areas|
      ensures GivenUp(s'.areas[j], s'.lists[j])
    {
      assert GivenUp(s.areas[j], s.lists[j]);
    }
  }

  /** CPU k has the same id; its page is the same or the change is noted. */
  lemma SameIdPages(s: System, s': System, g: Setting, k: nat)
    requires Inv(s, g) && PagesOk(s, g) && k < |s.areas| == |s'.areas| == |s'.lists| && |s'.threads| == |s.threads|
    requires forall t :: 0 <= t < |s.threads| ==> SameOrNew(s.threads[t].pc, s'.threads[t].pc)
    requires s'.areas[k].tid == s.areas[k].tid && GivenUp(s'.areas[k], s'.lists[k])
    requires s.areas[k].moved || s'.areas[k].page != s.areas[k].page ==> s'.areas[k].moved
    requires forall j :: 0 <= j < |s.areas| && j != k ==> s'.areas[j] == s.areas[j] && s'.lists[j] == s.lists[j]
    ensures PagesOk(s', g)
  {
    forall u | 0 <= u < |s'.threads|
      ensures PageOk(s', g, s'.threads[u].pc)
    {
      assert PageOk(s, g, s.threads[u].pc) && ThreadOk(s, g, s.threads[u]);
    }
    forall j | 0 <= j < |s'.areas|
      ensures GivenUp(s'.areas[j], s'.lists[j])
    {
      assert GivenUp(s.areas[j], s.lists[j]);
    }
  }

  lemma GoPages(s: System, g: Setting, t: nat)
    requires Inv(s, g) && PagesOk(s, g) && Enabled(s, g, Go(t))
    ensures PagesOk(Apply(s, g, Go(t)), g)
  {
    if Pops(s, t) || Pushes(s, t) {
      var k := s.threads[t].cpu;
      assert AreaOk(s.areas[k], k, g, s.lists[k], s.link);
      NewIdPages(s, Apply(s, g, Go(t)), g, k);
    } else {
      QuietPages(s, g, t);
    }
  }

  lemma ThreadPages(s: System, g: Setting, a: Action)
    requires Inv(s, g) && PagesOk(s, g) && Enabled(s, g, a) && (a.Begin? || a.Migrate? || a.Enter?)
    ensures PagesOk(Apply(s, g, a), g)
  {
    var k := s.threads[a.t].cpu;
    assert ThreadOk(s, g, s.threads[a.t]);
    assert GivenUp(s.areas[k], s.lists[k]);
    SameIdPages(s, Apply(s, g, a), g, k);
  }

  lemma SlowPages(s: System, g: Setting, a: Action)
    requires Inv(s, g) && PagesOk(s, g) && Enabled(s, g, a) && (a.Take? || a.Refill? || a.GiveUp? || a.Load? || a.Flush?)
    ensures PagesOk(Apply(s, g, a), g)
  {
    SameIdPages(s, Apply(s, g, a), g, a.k);
  }

  lemma StepPages(s: System, g: Setting, a: Action)
    requires Inv(s, g) && PagesOk(s, g) && Enabled(s, g, a)
    ensures PagesOk(Apply(s, g, a), g)
  {
    match a
    case Begin(_, _) => ThreadPages(s, g, a);
    case Go(t) => GoPages(s, g, t);
    case Migrate(_, _) => ThreadPages(s, g, a);
    case Scribble(_, _) => SamePages(s, Apply(s, g, a), g);
    case Enter(_) => ThreadPages(s, g, a);
    case Interrupt(k) => SameIdPages(s, Apply(s, g, a), g, k);
    case Renew(k) =>
      assert AreaOk(s.areas[k], k, g, s.lists[k], s.link);
      NewIdPages(s, Apply(s, g, a), g, k);
    case Leave(k) => SameIdPages(s, Apply(s, g, a), g, k);
    case _ => SlowPages(s, g, a);
  }

  lemma SamePages(s: System, s': System, g: Setting)
    requires PagesOk(s, g) && s'.areas == s.areas && s'.lists == s.lists && s'.threads == s.threads
    ensures PagesOk(s', g)
  {
    forall u | 0 <= u < |s'.threads|
      ensures PageOk(s', g, s'.threads[u].pc)
    {
      assert PageOk(s, g, s.threads[u].pc);
    }
  }

  /** Lists that change keep to their CPU's page. */
  lemma OwnUpdated(s: System, s': System, g: Setting, k: nat)
    requires OwnPages(s, g) && k < |s.areas| == |s'.areas| == |s'.lists|
    requires forall j :: 0 <= j < |s.areas| && j != k ==> s'.areas[j].page == s.areas[j].page && s'.lists[j] == s.lists[j]
    ensures OwnPages(s', g) <==> OwnPage(s'.areas[k], s'.lists[k], g)
  {
    forall j | 0 <= j < |s'.areas| && j != k
      ensures OwnPage(s'.areas[j], s'.lists[j], g)
    {
      assert OwnPage(s.areas[j], s.lists[j], g);
    }
  }

  /** Where a push goes. The page is still there unless it was given up. */
  lemma PushOwn(s: System, g: Setting, t: nat)
    requires Inv(s, g) && HomesOk(s, g) && PagesOk(s, g) && OwnPages(s, g) && Enabled(s, g, Go(t)) && Pushes(s, t)
    ensures OwnPages(Apply(s, g, Go(t)), g) <==> !s.areas[s.threads[t].cpu].moved
  {
    var th, s' := s.threads[t], Apply(s, g, Go(t));
    var k := th.cpu;
    assert ThreadOk(s, g, th) && PageOk(s, g, th.pc) && OwnPage(s.areas[k], s.lists[k], g) && GivenUp(s.areas[k], s.lists[k]);
    SucceedsOnlyIfCurrent(s, g, k, th.pc.tid);
    OwnUpdated(s, s', g, k);
    assert th.pc.o in Elems(s'.lists[k]) && th.pc.o == Freed(th.pc);
  }

  lemma GoOwn(s: System, g: Setting, t: nat)
    requires Inv(s, g) && OwnPages(s, g) && Enabled(s, g, Go(t)) && !Pushes(s, t)
    ensures OwnPages(Apply(s, g, Go(t)), g)
  {
    if Pops(s, t) {
      var k := s.threads[t].cpu;
      assert OwnPage(s.areas[k], s.lists[k], g);
      OwnUpdated(s, Apply(s, g, Go(t)), g, k);
    } else {
      QuietGo(s, g, t);
    }
  }

  lemma SwitchOwn(s: System, g: Setting, a: Action, k: nat)
    requires OwnPages(s, g) && Enabled(s, g, a) && (a.Interrupt? || a.Renew? || a.Leave?) && k == a.k
    ensures OwnPages(Apply(s, g, a), g)
  {
    assert OwnPage(s.areas[k], s.lists[k], g);
    OwnUpdated(s, Apply(s, g, a), g, k);
  }

  lemma SlowOwn(s: System, g: Setting, a: Action)
    requires OwnPages(s, g) && Enabled(s, g, a) && (a.Take? || a.Refill? || a.GiveUp? || a.Load? || a.Flush?)
    ensures OwnPages(Apply(s, g, a), g)
  {
    assert OwnPage(s.areas[a.k], s.lists[a.k], g);
    OwnUpdated(s, Apply(s, g, a), g, a.k);
  }

  /** Exactly the late exchanges put an object on the list of a CPU without its page. */
  lemma StepOwn(s: System, g: Setting, a: Action)
    requires Inv(s, g) && HomesOk(s, g) && PagesOk(s, g) && OwnPages(s, g) && Enabled(s, g, a)
    ensures OwnPages(Apply(s, g, a), g) <==> !Late(s, a)
  {
    match a
    case Go(t) => if Pushes(s, t) { PushOwn(s, g, t); } else { GoOwn(s, g, t); }
    case Begin(_, _) =>
    case Migrate(_, _) =>
    case Scribble(_, _) =>
    case Enter(t) =>
      assert OwnPage(s.areas[s.threads[t].cpu], s.lists[s.threads[t].cpu], g);
      OwnUpdated(s, Apply(s, g, a), g, s.threads[t].cpu);
    case Interrupt(k) => SwitchOwn(s, g, a, k);
    case Renew(k) => SwitchOwn(s, g, a, k);
    case Leave(k) => SwitchOwn(s, g, a, k);
    case _ => SlowOwn(s, g, a);
  }

  // ---------------------------------------------------------------- whole runs

  ghost predicate Sound(s: System, g: Setting) {
    Inv(s, g) && HomesOk(s, g) && PagesOk(s, g)
  }

  lemma StartSound(cpus: nat, threads: nat, g: Setting)
    requires 0 < cpus <= g.stride && Proper(g)
    ensures Sound(Start(cpus, threads, g), g) && OwnPages(Start(cpus, threads, g), g)
    ensures forall o :: o in g.objs ==> Somewhere(Start(cpus, threads, g), o)
  {
    forall k | 0 <= k < cpus
      ensures k % g.stride == k
    {
      SmallMod(k, g.stride);
    }
  }

  lemma StepSound(s: System, g: Setting, a: Action)
    requires Sound(s, g) && Enabled(s, g, a)
    ensures Sound(Apply(s, g, a), g)
  {
    StepKeeps(s, g, a);
    StepPlaces(s, g, a);
    StepPages(s, g, a);
  }

  /** In every run, with threads preempted and moved between any two accesses, each CPU's list is linked as it should be, every
      exchange that succeeds takes or adds its first object, and no object is in two places. */
  lemma {:induction false} FastRunKeeps(cpus: nat, threads: nat, g: Setting, run: seq<Action>)
    requires 0 < cpus <= g.stride && Proper(g) && Legal(cpus, threads, g, run)
    ensures Sound(After(cpus, threads, g, run), g)
    decreases |run|
  {
    if run == [] {
      StartSound(cpus, threads, g);
    } else {
      FastRunKeeps(cpus, threads, g, run[..|run| - 1]);
      StepSound(After(cpus, threads, g, run[..|run| - 1]), g, run[|run| - 1]);
    }
  }

  lemma {:induction false} LegalPrefix(cpus: nat, threads: nat, g: Setting, run: seq<Action>, n: nat)
    requires Legal(cpus, threads, g, run) && n <= |run|
    ensures Legal(cpus, threads, g, run[..n])
    decreases |run|
  {
    if n < |run| {
      LegalPrefix(cpus, threads, g, run[..|run| - 1], n);
      assert run[..|run| - 1][..n] == run[..n];
    } else {
      assert run[..n] == run;
    }
  }

  /** The state before action n of a run. */
  ghost function At(cpus: nat, threads: nat, g: Setting, run: seq<Action>, n: nat): System
    requires Legal(cpus, threads, g, run) && n <= |run|
  {
    LegalPrefix(cpus, threads, g, run, n);
    After(cpus, threads, g, run[..n])
  }

  lemma AtPrefix(cpus: nat, threads: nat, g: Setting, run: seq<Action>, n: nat)
    requires Legal(cpus, threads, g, run) && run != [] && n < |run|
    ensures At(cpus, threads, g, run[..|run| - 1], n) == At(cpus, threads, g, run, n)
  {
    assert run[..|run| - 1][..n] == run[..n];
  }

  /** No step of the run is bad where it happens. */
  ghost predicate Never(cpus: nat, threads: nat, g: Setting, run: seq<Action>, bad: (System, Action) -> bool)
    requires Legal(cpus, threads, g, run)
  {
    forall n: nat :: n < |run| ==> !bad(At(cpus, threads, g, run, n), run[n])
  }

  lemma AtLast(cpus: nat, threads: nat, g: Setting, run: seq<Action>)
    requires Legal(cpus, threads, g, run) && run != []
    ensures Legal(cpus, threads, g, run[..|run| - 1])
    ensures At(cpus, threads, g, run, |run| - 1) == After(cpus, threads, g, run[..|run| - 1])
  {
  }

  lemma NeverMore(cpus: nat, threads: nat, g: Setting, run: seq<Action>, before: seq<Action>, m: nat, bad: (System,
      Action) -> bool)
    requires Legal(cpus, threads, g, run) && Legal(cpus, threads, g, before) && run != [] && m == |run| - 1
             && before == run[..m]
    ensures Never(cpus, threads, g, run, bad) <==>
              Never(cpus, threads, g, before, bad) && !bad(After(cpus, threads, g, before), run[m])
  {
    AtLast(cpus, threads, g, run);
    forall n: nat | n < m
      ensures At(cpus, threads, g, before, n) == At(cpus, threads, g, run, n) && before[n] == run[n]
    {
      AtPrefix(cpus, threads, g, run, n);
    }
    if Never(cpus, threads, g, before, bad) && !bad(After(cpus, threads, g, before), run[m]) {
      forall n: nat | n < |run|
        ensures !bad(At(cpus, threads, g, run, n), run[n])
      {
        assert n < m ==> !bad(At(cpus, threads, g, before, n), before[n]);
      }
    } else if Never(cpus, threads, g, run, bad) {
      assert !bad(At(cpus, threads, g, run, m), run[m]);
      forall n: nat | n < m
        ensures !bad(At(cpus, threads, g, before, n), before[n])
      {
        assert !bad(At(cpus, threads, g, run, n), run[n]);
      }
    }
  }

  /** No exchange of the run is late. */
  ghost predicate Timely(cpus: nat, threads: nat, g: Setting, run: seq<Action>)
    requires Legal(cpus, threads, g, run)
  {
    Never(cpus, threads, g, run, (s, a) => Late(s, a))
  }

  /** In every state of the run, objects on lists are of their CPU's page. */
  ghost predicate AlwaysOwn(cpus: nat, threads: nat, g: Setting, run: seq<Action>)
    requires Legal(cpus, threads, g, run)
  {
    forall n: nat :: n <= |run| ==> OwnPages(At(cpus, threads, g, run, n), g)
  }

  lemma AlwaysMore(cpus: nat, threads: nat, g: Setting, run: seq<Action>, before: seq<Action>, m: nat)
    requires Legal(cpus, threads, g, run) && run != [] && m == |run| - 1 && before == run[..m]
    ensures AlwaysOwn(cpus, threads, g, run) <==> AlwaysOwn(cpus, threads, g, before) && OwnPages(After(cpus, threads, g, run), g)
  {
    assert run[..|run|] == run && before[..m] == before;
    assert At(cpus, threads, g, run, |run|) == After(cpus, threads, g, run);
    forall n: nat | n <= m
      ensures At(cpus, threads, g, before, n) == At(cpus, threads, g, run, n)
    {
      AtPrefix(cpus, threads, g, run, n);
    }
  }

  lemma AlwaysLast(cpus: nat, threads: nat, g: Setting, run: seq<Action>)
    requires Legal(cpus, threads, g, run) && AlwaysOwn(cpus, threads, g, run)
    ensures OwnPages(After(cpus, threads, g, run), g)
  {
    assert run[..|run|] == run;
    assert OwnPages(At(cpus, threads, g, run, |run|), g);
  }

  lemma AlwaysNone(cpus: nat, threads: nat, g: Setting)
    requires 0 < cpus <= g.stride && Proper(g)
    ensures AlwaysOwn(cpus, threads, g, [])
  {
    StartSound(cpus, threads, g);
  }

  /** A run keeps every object with its page exactly if none of its exchanges is late. */
  lemma {:induction false} OwnPagesExactly(cpus: nat, threads: nat, g: Setting, run: seq<Action>)
    requires 0 < cpus <= g.stride && Proper(g) && Legal(cpus, threads, g, run)
    ensures AlwaysOwn(cpus, threads, g, run) <==> Timely(cpus, threads, g, run)
    decreases |run|
  {
    if run == [] {
      AlwaysNone(cpus, threads, g);
    } else {
      var m := |run| - 1;
      var before := run[..m];
      OwnPagesExactly(cpus, threads, g, before);
      NeverMore(cpus, threads, g, run, before, m, (s, a) => Late(s, a));
      AlwaysMore(cpus, threads, g, run, before, m);
      if AlwaysOwn(cpus, threads, g, before) {
        AlwaysLast(cpus, threads, g, before);
        FastRunKeeps(cpus, threads, g, before);
        StepOwn(After(cpus, threads, g, before), g, run[m]);
      }
    }
  }

  // ---------------------------------------------------------------- what is lost

  /** No action of the run overwrites a list with `o` on it. */
  ghost predicate Spared(cpus: nat, threads: nat, g: Setting, run: seq<Action>, o: Obj)
    requires Legal(cpus, threads, g, run)
  {
    Never(cpus, threads, g, run, (s, a) => Overwrites(s, a, o))
  }

  /** An object is lost exactly if a page was set up over a list that held it. */
  lemma {:induction false} LostExactly(cpus: nat, threads: nat, g: Setting, run: seq<Action>, o: Obj)
    requires 0 < cpus <= g.stride && Proper(g) && Legal(cpus, threads, g, run) && o in g.objs
    ensures Somewhere(After(cpus, threads, g, run), o) <==> Spared(cpus, threads, g, run, o)
    decreases |run|
  {
    if run == [] {
      StartSound(cpus, threads, g);
    } else {
      var m := |run| - 1;
      var before := run[..m];
      LostExactly(cpus, threads, g, before, o);
      NeverMore(cpus, threads, g, run, before, m, (s, a) => Overwrites(s, a, o));
      FastRunKeeps(cpus, threads, g, before);
      StepPlaces(After(cpus, threads, g, before), g, run[m]);
    }
  }

  /** A CPU without a page has no list that could be overwritten, unless an exchange was late. */
  lemma {:induction false} NothingLostInTime(cpus: nat, threads: nat, g: Setting, run: seq<Action>, o: Obj)
    requires 0 < cpus <= g.stride && Proper(g) && Legal(cpus, threads, g, run) && o in g.objs && Timely(cpus, threads, g, run)
    ensures Somewhere(After(cpus, threads, g, run), o)
    decreases |run|
  {
    if run == [] {
      StartSound(cpus, threads, g);
    } else {
      var m := |run| - 1;
      var before := run[..m];
      NeverMore(cpus, threads, g, run, before, m, (s, a) => Late(s, a));
      NothingLostInTime(cpus, threads, g, before, o);
      OwnPagesExactly(cpus, threads, g, before);
      AlwaysLast(cpus, threads, g, before);
      FastRunKeeps(cpus, threads, g, before);
      NotOverwritten(After(cpus, threads, g, before), g, run[m], o);
      StepPlaces(After(cpus, threads, g, before), g, run[m]);
    }
  }

  lemma NotOverwritten(s: System, g: Setting, a: Action, o: Obj)
    requires Proper(g) && OwnPages(s, g) && Enabled(s, g, a) && o in g.objs
    ensures !Overwrites(s, a, o)
  {
    if a.Load? {
      assert OwnPage(s.areas[a.k], s.lists[a.k], g);
    }
  }
}
