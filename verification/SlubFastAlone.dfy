/** What the fast paths of the slab allocator come to when nothing comes in between. */
module SlubFastAlone {
  import opened SlubList
  import opened SlubFastPath

  /** These actions lead from one state to another; each is enabled when it happens. */
  ghost predicate Leads(s: System, g: Setting, run: seq<Action>, now: System)
    decreases |run|
  {
    if run == [] then now == s
    else
      var n := |run| - 1;
      exists mid :: Leads(s, g, run[..n], mid) && Enabled(mid, g, run[n]) && now == Apply(mid, g, run[n])
  }

  lemma Then(s: System, g: Setting, run: seq<Action>, mid: System, a: Action)
    requires Leads(s, g, run, mid) && Enabled(mid, g, a)
    ensures Leads(s, g, run + [a], Apply(mid, g, a))
  {
    assert (run + [a])[..|run|] == run;
  }

  /** The thread is on a CPU where no slow path runs. */
  predicate Running(s: System, t: nat) {
    && t < |s.threads| && s.threads[t].cpu < |s.areas| == |s.lists| && !s.areas[s.threads[t].cpu].busy
  }

  /** A step from pc to pc' that concerns the thread alone. */
  ghost predicate Moves(s: System, g: Setting, t: nat, pc: Pc, pc': Pc)
    requires Running(s, t)
  {
    var mid := WithPc(s, t, pc);
    GoStep(mid, g, t) == WithPc(s, t, pc') && HeldAfter(mid, t) == s.held && PagesAfter(mid, g, t) == s.pages
  }

  lemma Hop(s: System, g: Setting, run: seq<Action>, s0: System, t: nat, pc: Pc, pc': Pc)
    requires Running(s0, t) && Leads(s, g, run, WithPc(s0, t, pc)) && Moves(s0, g, t, pc, pc')
    ensures Leads(s, g, run + [Go(t)], WithPc(s0, t, pc'))
  {
    Then(s, g, run, WithPc(s0, t, pc), Go(t));
  }

  lemma HopTid(s: System, g: Setting, t: nat, o: Obj)
    requires Running(s, t)
    ensures Moves(s, g, t, Again(o), HasTid(o, s.areas[s.threads[t].cpu].tid))
  {
  }

  lemma HopArea(s: System, g: Setting, t: nat, o: Obj, tid: nat)
    requires Running(s, t)
    ensures Moves(s, g, t, HasTid(o, tid), HasArea(o, tid, s.threads[t].cpu))
  {
  }

  lemma HopChecked(s: System, g: Setting, t: nat, o: Obj, k: nat)
    requires Running(s, t) && k < |s.areas|
    ensures Moves(s, g, t, HasArea(o, s.areas[k].tid, k), Checked(o, s.areas[k].tid, k))
  {
  }

  lemma HopAlloc(s: System, g: Setting, t: nat, tid: nat, k: nat)
    requires Running(s, t) && k < |s.areas|
    ensures Moves(s, g, t, Checked(0, tid, k), if s.areas[k].freelist == 0 then Slow else HasObject(tid, s.areas[k].freelist))
  {
  }

  lemma HopNext(s: System, g: Setting, t: nat, tid: nat, first: Obj)
    requires Running(s, t)
    ensures Moves(s, g, t, HasObject(tid, first), HasNext(tid, first, NextOf(s.link, first)))
  {
  }

  lemma HopSame(s: System, g: Setting, t: nat, o: Obj, tid: nat, k: nat)
    requires Running(s, t) && k < |s.areas| && o != 0 && s.areas[k].page == g.pageOf(o)
    ensures Moves(s, g, t, Checked(o, tid, k), SamePage(o, tid, k))
  {
  }

  lemma HopHead(s: System, g: Setting, t: nat, o: Obj, tid: nat, k: nat)
    requires Running(s, t) && k < |s.areas|
    ensures Moves(s, g, t, IsLinked(o, tid, k), HasHead(o, tid, s.areas[k].freelist))
  {
  }

  lemma Begins(s: System, g: Setting, t: nat, o: Obj)
    requires Running(s, t) && s.threads[t].pc.Resting? && (o != 0 ==> o in s.held)
    ensures Leads(s, g, [Begin(t, o)], WithPc(s.(held := s.held - {o}), t, Again(o)))
  {
    assert Leads(s, g, [], s);
    Then(s, g, [], s, Begin(t, o));
    assert [] + [Begin(t, o)] == [Begin(t, o)];
  }

  /** Up to the point where the thread has an id and the area it belongs to. */
  lemma FindsArea(s: System, g: Setting, t: nat, o: Obj) returns (run: seq<Action>)
    requires Running(s, t) && s.threads[t].pc.Resting? && (o != 0 ==> o in s.held)
    ensures var k := s.threads[t].cpu;
            Leads(s, g, run, WithPc(s.(held := s.held - {o}), t, Checked(o, s.areas[k].tid, k)))
  {
    var k, s0 := s.threads[t].cpu, s.(held := s.held - {o});
    var tid := s.areas[k].tid;
    Begins(s, g, t, o);
    run := [Begin(t, o)];
    HopTid(s0, g, t, o);
    Hop(s, g, run, s0, t, Again(o), HasTid(o, tid));
    run := run + [Go(t)];
    HopArea(s0, g, t, o, tid);
    Hop(s, g, run, s0, t, HasTid(o, tid), HasArea(o, tid, k));
    run := run + [Go(t)];
    HopChecked(s0, g, t, o, k);
    Hop(s, g, run, s0, t, HasArea(o, tid, k), Checked(o, tid, k));
    run := run + [Go(t)];
  }

  /** What the last step of an allocation does. */
  lemma Pops(s: System, g: Setting, t: nat)
    requires Inv(s, g) && Running(s, t) && s.lists[s.threads[t].cpu] != Nil
    ensures var k := s.threads[t].cpu; var l := s.lists[k];
            var mid := WithPc(s, t, HasNext(s.areas[k].tid, l.head, NextOf(s.link, l.head)));
            && Enabled(mid, g, Go(t)) && var now := Apply(mid, g, Go(t));
            && t < |now.threads| && now.lists == s.lists[k := l.tail] && now.held == s.held + {l.head}
                && now.threads[t].pc == Resting
  {
    var k := s.threads[t].cpu;
    assert AreaOk(s.areas[k], k, g, s.lists[k], s.link);
  }

  /** An allocation takes the first object of its CPU's list; with an empty list it needs the slow path. */
  lemma AllocAlone(s: System, g: Setting, t: nat) returns (run: seq<Action>, now: System)
    requires Inv(s, g) && Running(s, t) && s.threads[t].pc.Resting? && 0 !in s.held
    ensures Leads(s, g, run, now) && t < |now.threads|
    ensures var k := s.threads[t].cpu;
            if s.lists[k] == Nil then now == WithPc(s, t, Slow)
            else now.lists == s.lists[k := s.lists[k].tail] && now.held == s.held + {s.lists[k].head} && now.threads[t].pc == Resting
  {
    var k := s.threads[t].cpu;
    var tid := s.areas[k].tid;
    run := FindsArea(s, g, t, 0);
    assert s.held - {0} == s.held && s.(held := s.held) == s;
    AllocSees(s, g, k);
    HopAlloc(s, g, t, tid, k);
    if s.lists[k] == Nil {
      Hop(s, g, run, s, t, Checked(0, tid, k), Slow);
      run, now := run + [Go(t)], WithPc(s, t, Slow);
    } else {
      var first := s.lists[k].head;
      Hop(s, g, run, s, t, Checked(0, tid, k), HasObject(tid, first));
      run, now := TakesFirst(s, g, run + [Go(t)], t, k, tid, first);
    }
  }

  lemma AllocSees(s: System, g: Setting, k: nat)
    requires Inv(s, g) && k < |s.areas|
    ensures s.areas[k].freelist == Ptr(s.lists[k]) && (s.lists[k] != Nil ==> s.lists[k].head != 0)
  {
    assert AreaOk(s.areas[k], k, g, s.lists[k], s.link);
  }

  lemma TakesFirst(s: System, g: Setting, run0: seq<Action>, t: nat, k: nat, tid: nat, first: Obj)
    returns (run: seq<Action>, now: System)
    requires Inv(s, g) && Running(s, t) && k == s.threads[t].cpu && tid == s.areas[k].tid && s.lists[k] != Nil
             && first == s.lists[k].head
    requires Leads(s, g, run0, WithPc(s, t, HasObject(tid, first)))
    ensures Leads(s, g, run, now) && t < |now.threads|
    ensures now.lists == s.lists[k := s.lists[k].tail] && now.held == s.held + {first} && now.threads[t].pc == Resting
  {
    var next := NextOf(s.link, first);
    HopNext(s, g, t, tid, first);
    Hop(s, g, run0, s, t, HasObject(tid, first), HasNext(tid, first, next));
    run := run0 + [Go(t)];
    Pops(s, g, t);
    var mid := WithPc(s, t, HasNext(tid, first, next));
    Then(s, g, run, mid, Go(t));
    run, now := run + [Go(t)], Apply(mid, g, Go(t));
  }

  lemma Links(s: System, g: Setting, run: seq<Action>, s0: System, t: nat, o: Obj, tid: nat, k: nat)
    requires Running(s0, t) && k < |s0.areas| && Leads(s, g, run, WithPc(s0, t, SamePage(o, tid, k)))
    ensures Leads(s, g, run + [Go(t)], WithPc(s0.(link := s0.link[o := s0.areas[k].freelist]), t, IsLinked(o, tid, k)))
  {
    Then(s, g, run, WithPc(s0, t, SamePage(o, tid, k)), Go(t));
  }

  lemma Pushes(s: System, g: Setting, run: seq<Action>, s1: System, t: nat, o: Obj, k: nat) returns (now: System)
    requires Running(s1, t) && k == s1.threads[t].cpu
    requires Leads(s, g, run, WithPc(s1, t, HasHead(o, s1.areas[k].tid, s1.areas[k].freelist)))
    ensures Leads(s, g, run + [Go(t)], now) && t < |now.threads| && now.held == s1.held && now.pages == s1.pages
    ensures now.threads[t].pc == Resting && now.lists == s1.lists[k := Cons(o, s1.lists[k])]
  {
    var mid := WithPc(s1, t, HasHead(o, s1.areas[k].tid, s1.areas[k].freelist));
    Then(s, g, run, mid, Go(t));
    now := Apply(mid, g, Go(t));
  }

  lemma GivesToPage(s: System, g: Setting, run: seq<Action>, s0: System, t: nat, o: Obj, tid: nat, k: nat)
    returns (now: System)
    requires Running(s0, t) && k < |s0.areas| && o != 0 && s0.areas[k].page != g.pageOf(o)
    requires Leads(s, g, run, WithPc(s0, t, Checked(o, tid, k)))
    ensures Leads(s, g, run + [Go(t)], now) && t < |now.threads| && now.held == s0.held && now.pages == s0.pages + {o}
    ensures now.threads[t].pc == Resting && now.lists == s0.lists
  {
    var mid := WithPc(s0, t, Checked(o, tid, k));
    Then(s, g, run, mid, Go(t));
    now := Apply(mid, g, Go(t));
  }

  /** A free puts its object in front of the CPU's list if the CPU has its page, and otherwise gives it to the page. */
  lemma FreeAlone(s: System, g: Setting, t: nat, o: Obj) returns (run: seq<Action>, now: System)
    requires Running(s, t) && s.threads[t].pc.Resting? && o in s.held && o != 0
    ensures Leads(s, g, run, now) && t < |now.threads| && now.held == s.held - {o} && now.threads[t].pc == Resting
    ensures var k := s.threads[t].cpu;
            if s.areas[k].page == g.pageOf(o) then now.lists == s.lists[k := Cons(o, s.lists[k])] && now.pages == s.pages
            else now.lists == s.lists && now.pages == s.pages + {o}
  {
    var k, s0 := s.threads[t].cpu, s.(held := s.held - {o});
    var tid := s.areas[k].tid;
    run := FindsArea(s, g, t, o);
    if s.areas[k].page == g.pageOf(o) {
      HopSame(s0, g, t, o, tid, k);
      Hop(s, g, run, s0, t, Checked(o, tid, k), SamePage(o, tid, k));
      run := run + [Go(t)];
      Links(s, g, run, s0, t, o, tid, k);
      run := run + [Go(t)];
      var s1 := s0.(link := s0.link[o := s0.areas[k].freelist]);
      HopHead(s1, g, t, o, tid, k);
      Hop(s, g, run, s1, t, IsLinked(o, tid, k), HasHead(o, tid, s1.areas[k].freelist));
      run := run + [Go(t)];
      now := Pushes(s, g, run, s1, t, o, k);
    } else {
      now := GivesToPage(s, g, run, s0, t, o, tid, k);
    }
    run := run + [Go(t)];
  }
}
