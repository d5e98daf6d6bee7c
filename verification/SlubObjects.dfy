/** What moving objects between pages, CPUs and callers does to each part of the slab allocator's invariant. */
module SlubObjects {
  import opened SlubList
  import opened Slub

  lemma {:induction false} ElemsCount(l: List)
    requires NoDup(l)
    ensures |Elems(l)| == Len(l)
  {
    if l != Nil {
      ElemsCount(l.tail);
    }
  }

  lemma SubsetCount(a: set<Obj>, b: set<Obj>)
    requires a <= b
    ensures |a| <= |b|
    decreases b
  {
    if b != {} {
      var x :| x in b;
      SubsetCount(a - {x}, b - {x});
      assert x in a ==> |a - {x}| == |a| - 1;
      assert x !in a ==> a - {x} == a;
    }
  }

  /** An object of a slab that is not in the page is counted in use. */
  lemma InuseCounts(b: Slab, s: SlabId, owner: map<Obj, SlabId>, place: map<Obj, Place>, o: Obj)
    requires SlabOk(b, s, owner, place) && o in b.objs && o in place && place[o] != InPage
    ensures b.inuse >= 1
  {
    ElemsCount(b.freelist);
    assert Elems(b.freelist) <= b.objs - {o};
    SubsetCount(Elems(b.freelist), b.objs - {o});
  }

  /** With none in use, all the objects are in the page. */
  lemma UnusedIsAllInPage(b: Slab, s: SlabId, owner: map<Obj, SlabId>, place: map<Obj, Place>)
    requires SlabOk(b, s, owner, place) && b.inuse <= 0 && owner.Keys == place.Keys
    ensures forall o :: o in b.objs ==> o in place && place[o] == InPage
  {
    forall o | o in b.objs
      ensures o in place && place[o] == InPage
    {
      if place[o] != InPage {
        InuseCounts(b, s, owner, place, o);
      }
    }
  }

  /** The objects in e went from place p to place q, and no other object moved. */
  ghost predicate Moved(place: map<Obj, Place>, now: map<Obj, Place>, e: set<Obj>, p: Place, q: Place) {
    && now.Keys == place.Keys && e <= place.Keys
    && (forall o :: o in e ==> place[o] == p && now[o] == q)
    && forall o :: o in place && o !in e ==> now[o] == place[o]
  }

  lemma MovedOne(place: map<Obj, Place>, o: Obj, q: Place)
    requires o in place
    ensures Moved(place, place[o := q], {o}, place[o], q)
  {
  }

  lemma {:induction false} AssignIs<V>(m: map<Obj, V>, l: List, v: V)
    ensures Assign(m, l, v).Keys == m.Keys + Elems(l)
    ensures forall o :: o in Assign(m, l, v) ==> Assign(m, l, v)[o] == if o in Elems(l) then v else m[o]
  {
    if l != Nil {
      AssignIs(m, l.tail, v);
    }
  }

  lemma MovedAll(place: map<Obj, Place>, l: List, p: Place, q: Place)
    requires forall o :: o in Elems(l) ==> o in place && place[o] == p
    ensures Moved(place, Assign(place, l, q), Elems(l), p, q)
  {
    AssignIs(place, l, q);
  }

  lemma ObjectsMoved(slabs: map<SlabId, Slab>, owner: map<Obj, SlabId>, place: map<Obj, Place>, now: map<Obj, Place>,
      cpus: nat, freers: nat, e: set<Obj>, p: Place, q: Place)
    requires ObjectsOk(slabs, owner, place, cpus, freers) && Moved(place, now, e, p, q)
    requires (q.OnCpu? ==> q.cpu < cpus) && (q.Freeing? ==> q.f < freers)
    ensures ObjectsOk(slabs, owner, now, cpus, freers)
  {
    forall o | o in now
      ensures (now[o].OnCpu? ==> now[o].cpu < cpus) && (now[o].Freeing? ==> now[o].f < freers)
    {
      assert o in place;
    }
  }

  lemma SlabSame(b: Slab, s: SlabId, owner: map<Obj, SlabId>, place: map<Obj, Place>, now: map<Obj, Place>)
    requires SlabOk(b, s, owner, place)
    requires forall o :: o in b.objs ==> ((o in now && now[o] == InPage) <==> (o in place && place[o] == InPage))
    ensures SlabOk(b, s, owner, now)
  {
  }

  /** Outside the pages. */
  lemma SlabsOutside(slabs: map<SlabId, Slab>, owner: map<Obj, SlabId>, place: map<Obj, Place>, now: map<Obj, Place>,
      e: set<Obj>, p: Place, q: Place)
    requires SlabsOk(slabs, owner, place) && Moved(place, now, e, p, q) && p != InPage && q != InPage
    ensures SlabsOk(slabs, owner, now)
  {
    forall s | s in slabs
      ensures SlabOk(slabs[s], s, owner, now)
    {
      SlabSame(slabs[s], s, owner, place, now);
    }
  }

  /** Into or out of one page. */
  lemma SlabsOne(slabs: map<SlabId, Slab>, s: SlabId, b: Slab, owner: map<Obj, SlabId>, place: map<Obj, Place>,
      now: map<Obj, Place>, e: set<Obj>, p: Place, q: Place)
    requires SlabsOk(slabs, owner, place) && Moved(place, now, e, p, q) && s in slabs
    requires e <= slabs[s].objs && SlabOk(b, s, owner, now)
    ensures SlabsOk(slabs[s := b], owner, now)
  {
    forall t | t in slabs && t != s
      ensures SlabOk(slabs[t], t, owner, now)
    {
      assert SlabOk(slabs[t], t, owner, place) && SlabOk(slabs[s], s, owner, place);
      SlabSame(slabs[t], t, owner, place, now);
    }
  }

  lemma CpusOutside(cpus: seq<Cpu>, owner: map<Obj, SlabId>, place: map<Obj, Place>, now: map<Obj, Place>,
      e: set<Obj>, p: Place, q: Place)
    requires CpusOk(cpus, owner, place) && Moved(place, now, e, p, q) && !p.OnCpu? && !q.OnCpu?
    ensures CpusOk(cpus, owner, now)
  {
    forall k | 0 <= k < |cpus|
      ensures CpuOk(cpus[k], k, owner, now)
    {
      CpuSame(cpus[k], k, owner, place, now, e, p, q);
    }
  }

  lemma CpuSame(c: Cpu, k: nat, owner: map<Obj, SlabId>, place: map<Obj, Place>, now: map<Obj, Place>, e: set<Obj>,
      p: Place, q: Place)
    requires CpuOk(c, k, owner, place) && Moved(place, now, e, p, q) && p != OnCpu(k) && q != OnCpu(k)
    ensures CpuOk(c, k, owner, now)
  {
    forall o
      ensures (o in now && now[o] == OnCpu(k)) <==> (o in place && place[o] == OnCpu(k))
    {
    }
  }

  lemma CpusOne(cpus: seq<Cpu>, k: nat, c: Cpu, owner: map<Obj, SlabId>, place: map<Obj, Place>,
      now: map<Obj, Place>, e: set<Obj>, p: Place, q: Place)
    requires CpusOk(cpus, owner, place) && Moved(place, now, e, p, q) && k < |cpus|
    requires (p.OnCpu? ==> p.cpu == k) && (q.OnCpu? ==> q.cpu == k) && CpuOk(c, k, owner, now)
    ensures CpusOk(cpus[k := c], owner, now)
  {
    forall j | 0 <= j < |cpus| && j != k
      ensures CpuOk(cpus[j], j, owner, now)
    {
      CpuSame(cpus[j], j, owner, place, now, e, p, q);
    }
  }

  lemma FreerSame(fr: Freer, f: nat, place: map<Obj, Place>, now: map<Obj, Place>, e: set<Obj>, p: Place, q: Place)
    requires FreerOk(fr, f, place) && Moved(place, now, e, p, q) && p != Freeing(f) && q != Freeing(f)
    ensures FreerOk(fr, f, now)
  {
    forall o
      ensures (o in now && now[o] == Freeing(f)) <==> (o in place && place[o] == Freeing(f))
    {
    }
  }

  lemma FreersOutside(freers: seq<Freer>, place: map<Obj, Place>, now: map<Obj, Place>, e: set<Obj>, p: Place, q: Place)
    requires FreersOk(freers, place) && Moved(place, now, e, p, q) && !p.Freeing? && !q.Freeing?
    ensures FreersOk(freers, now)
  {
    forall f | 0 <= f < |freers|
      ensures FreerOk(freers[f], f, now)
    {
      FreerSame(freers[f], f, place, now, e, p, q);
    }
  }

  lemma FreersOne(freers: seq<Freer>, f: nat, fr: Freer, place: map<Obj, Place>, now: map<Obj, Place>, e: set<Obj>,
      p: Place, q: Place)
    requires FreersOk(freers, place) && Moved(place, now, e, p, q) && f < |freers|
    requires (p.Freeing? ==> p.f == f) && (q.Freeing? ==> q.f == f) && FreerOk(fr, f, now)
    ensures FreersOk(freers[f := fr], now)
  {
    forall g | 0 <= g < |freers| && g != f
      ensures FreerOk(freers[g], g, now)
    {
      FreerSame(freers[g], g, place, now, e, p, q);
    }
  }

  // ---------------------------------------------------------------- lists

  /** The first object leaves a CPU's list. */
  lemma CpuPop(c: Cpu, k: nat, owner: map<Obj, SlabId>, place: map<Obj, Place>, now: map<Obj, Place>, q: Place, pc: Pc)
    requires CpuOk(c, k, owner, place) && c.list != Nil && Moved(place, now, {c.list.head}, OnCpu(k), q) && !q.OnCpu?
    requires PcOk(Cpu(c.page, c.list.tail, pc))
    ensures CpuOk(Cpu(c.page, c.list.tail, pc), k, owner, now)
  {
    forall o
      ensures o in Elems(c.list.tail) <==> o in now && now[o] == OnCpu(k)
    {
      assert o in Elems(c.list) <==> o == c.list.head || o in Elems(c.list.tail);
    }
  }

  /** An object joins a CPU's list. */
  lemma CpuPush(c: Cpu, k: nat, owner: map<Obj, SlabId>, place: map<Obj, Place>, now: map<Obj, Place>, o: Obj, p: Place)
    requires CpuOk(c, k, owner, place) && Moved(place, now, {o}, p, OnCpu(k)) && !p.OnCpu? && c.pc == Ready
    requires o in owner && c.page == Some(owner[o])
    ensures CpuOk(c.(list := Cons(o, c.list)), k, owner, now)
  {
    var l := Cons(o, c.list);
    assert place[o] == p;
    forall x
      ensures x in Elems(l) <==> x in now && now[x] == OnCpu(k)
    {
      assert x in Elems(l) <==> x == o || x in Elems(c.list);
    }
  }

  /** An object joins its page's freelist. */
  lemma SlabPush(b: Slab, s: SlabId, owner: map<Obj, SlabId>, place: map<Obj, Place>, now: map<Obj, Place>, o: Obj, p: Place)
    requires SlabOk(b, s, owner, place) && Moved(place, now, {o}, p, InPage) && p != InPage && o in b.objs
    ensures SlabOk(Push(b, o), s, owner, now)
  {
    var l := Cons(o, b.freelist);
    assert place[o] == p;
    forall x
      ensures x in Elems(l) <==> x in b.objs && x in now && now[x] == InPage
    {
      assert x in Elems(l) <==> x == o || x in Elems(b.freelist);
    }
  }

  /** The whole freelist leaves the page. */
  lemma SlabTaken(b: Slab, s: SlabId, owner: map<Obj, SlabId>, place: map<Obj, Place>, now: map<Obj, Place>, k: nat)
    requires SlabOk(b, s, owner, place) && Moved(place, now, Elems(b.freelist), InPage, OnCpu(k))
    ensures SlabOk(Taken(b, k), s, owner, now)
  {
    forall x
      ensures x in Elems(Nil) <==> x in b.objs && x in now && now[x] == InPage
    {
    }
  }

  /** It becomes the list of a CPU that had none. */
  lemma CpuTakes(c: Cpu, k: nat, b: Slab, s: SlabId, owner: map<Obj, SlabId>, place: map<Obj, Place>,
      now: map<Obj, Place>, pc: Pc)
    requires CpuOk(c, k, owner, place) && c.list == Nil && SlabOk(b, s, owner, place)
    requires Moved(place, now, Elems(b.freelist), InPage, OnCpu(k)) && PcOk(Cpu(Some(s), b.freelist, pc))
    ensures CpuOk(Cpu(Some(s), b.freelist, pc), k, owner, now)
  {
    forall x
      ensures x in Elems(b.freelist) <==> x in now && now[x] == OnCpu(k)
    {
      assert x !in Elems(c.list);
    }
  }
}
