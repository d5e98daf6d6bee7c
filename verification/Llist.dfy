/** The lock-less list: any number of callers of llist_add_batch() and one consumer, interleaved at every access to shared
    memory. Nodes are numbers, 0 is NULL. */
module Llist {

  type Node = nat

  /** Where a call of llist_add_batch() stands: before reading the head, before storing it into the last node, before the
      compare-and-swap. */
  datatype Adder = Idle | AtRead(batch: seq<Node>) | AtLink(batch: seq<Node>, first: Node) | AtSwap(batch: seq<Node>,
      first: Node)

  /** Where the consumer's llist_del_first() stands: before reading entry->next, before the compare-and-swap. */
  datatype Deleter = Resting | AtNext(entry: Node) | AtTake(entry: Node, next: Node)

  /** What a call that took effect returned. */
  datatype Event = Added(batch: seq<Node>, wasEmpty: bool) | Popped(node: Node) | FoundEmpty | TookAll(first: Node)

  datatype State = State(head: Node, next: map<Node, Node>, adders: seq<Adder>, deleter: Deleter, log: seq<Event>)

  datatype Action = Begin(p: nat, batch: seq<Node>) | Add(p: nat) | Delete | DeleteAll

  function NextOf(next: map<Node, Node>, n: Node): Node {
    if n in next then next[n] else 0
  }

  // ---------------------------------------------------------------- the abstract stack

  datatype Contents = Wrong | Stack(nodes: seq<Node>)

  /** What one event does to a stack; Wrong when its result is not what a stack would give. */
  function Effect(s: seq<Node>, e: Event): Contents {
    match e
    case Added(b, wasEmpty) => if wasEmpty == (s == []) then Stack(b + s) else Wrong
    case Popped(n) => if s != [] && s[0] == n then Stack(s[1..]) else Wrong
    case FoundEmpty => if s == [] then Stack([]) else Wrong
    case TookAll(first) => if first == (if s == [] then 0 else s[0]) then Stack([]) else Wrong
  }

  /** The stack after the whole history, if every result in it is right. */
  function Replay(log: seq<Event>): Contents {
    if log == [] then Stack([])
    else
      match Replay(log[..|log| - 1])
      case Wrong => Wrong
      case Stack(s) => Effect(s, log[|log| - 1])
  }

  lemma ReplayMore(log: seq<Event>, e: Event)
    requires Replay(log).Stack?
    ensures Replay(log + [e]) == Effect(Replay(log).nodes, e)
  {
    assert (log + [e])[..|log|] == log;
  }

  // ---------------------------------------------------------------- the steps

  predicate NoDup(s: seq<Node>) {
    forall i, j :: 0 <= i < j < |s| ==> s[i] != s[j]
  }

  /** The nodes of a call in progress. */
  function Pending(a: Adder): seq<Node> {
    if a.Idle? then [] else a.batch
  }

  predicate Apart(x: seq<Node>, y: seq<Node>) {
    forall n :: n in x ==> n !in y
  }

  /** A caller may add nodes that are its own: they are in no other call, and not on the list. */
  ghost predicate MayAdd(s: State, batch: seq<Node>) {
    && batch != [] && NoDup(batch) && 0 !in batch
    && (forall q :: 0 <= q < |s.adders| ==> Apart(batch, Pending(s.adders[q])))
    && (Replay(s.log).Stack? ==> Apart(batch, Replay(s.log).nodes))
  }

  ghost predicate Enabled(s: State, a: Action) {
    match a
    case Begin(p, batch) => p < |s.adders| && s.adders[p].Idle? && MayAdd(s, batch)
    case Add(p) => p < |s.adders| && !s.adders[p].Idle?
    case Delete => true
    case DeleteAll => s.deleter.Resting?
  }

  /** The caller links its nodes, each to the one after it. */
  function Linked(next: map<Node, Node>, batch: seq<Node>): map<Node, Node>
    decreases |batch|
  {
    if |batch| < 2 then next else Linked(next, batch[1..])[batch[0] := batch[1]]
  }

  function AddStep(s: State, p: nat): State
    requires p < |s.adders| && !s.adders[p].Idle?
  {
    match s.adders[p]
    case AtRead(b) => s.(adders := s.adders[p := AtLink(b, s.head)])
    case AtLink(b, first) =>
      if b == [] then s
      else s.(next := s.next[b[|b| - 1] := first], adders := s.adders[p := AtSwap(b, first)])
    case AtSwap(b, first) =>
      if s.head == first && b != [] then
        s.(head := b[0], adders := s.adders[p := Idle], log := s.log + [Added(b, first == 0)])
      else s.(adders := s.adders[p := AtRead(b)])
    case Idle => s
  }

  /** The consumer has entry from the head, and tests it for NULL. */
  function Tested(s: State, entry: Node): State {
    if entry == 0 then s.(deleter := Resting, log := s.log + [FoundEmpty]) else s.(deleter := AtNext(entry))
  }

  function DeleteStep(s: State): State {
    match s.deleter
    case Resting => Tested(s, s.head)
    case AtNext(entry) => s.(deleter := AtTake(entry, NextOf(s.next, entry)))
    case AtTake(entry, next) =>
      if s.head == entry then s.(head := next, deleter := Resting, log := s.log + [Popped(entry)])
      else Tested(s, s.head)
  }

  function Apply(s: State, a: Action): State {
    match a
    case Begin(p, batch) =>
      if p < |s.adders| then s.(next := Linked(s.next, batch), adders := s.adders[p := AtRead(batch)]) else s
    case Add(p) => if p < |s.adders| && !s.adders[p].Idle? then AddStep(s, p) else s
    case Delete => DeleteStep(s)
    case DeleteAll => s.(head := 0, log := s.log + [TookAll(s.head)])
  }

  function Start(callers: nat): State {
    State(0, map[], seq(callers, _ => Idle), Resting, [])
  }

  /** s is reached from the empty list by these actions, each one allowed when it happens. */
  ghost predicate Reaches(callers: nat, actions: seq<Action>, s: State)
    decreases |actions|
  {
    if actions == [] then s == Start(callers)
    else
      var n := |actions| - 1;
      exists before :: Reaches(callers, actions[..n], before) && Enabled(before, actions[n]) && s == Apply(before, actions[n])
  }

  // ---------------------------------------------------------------- the invariant

  /** The nodes reached from h by next pointers, up to NULL. */
  ghost predicate Chain(next: map<Node, Node>, h: Node, s: seq<Node>)
    decreases |s|
  {
    if |s| == 0 then h == 0
    else h == s[0] && h != 0 && Chain(next, NextOf(next, h), s[1..])
  }

  ghost predicate LinkedUp(next: map<Node, Node>, b: seq<Node>) {
    forall k :: 0 <= k < |b| - 1 ==> NextOf(next, b[k]) == b[k + 1]
  }

  ghost predicate GoodAdder(next: map<Node, Node>, a: Adder) {
    a.Idle? || (
      && a.batch != [] && NoDup(a.batch) && 0 !in a.batch && LinkedUp(next, a.batch)
      && (a.AtSwap? ==> NextOf(next, a.batch[|a.batch| - 1]) == a.first))
  }

  ghost predicate GoodDeleter(next: map<Node, Node>, d: Deleter, stack: seq<Node>) {
    match d
    case Resting => true
    case AtNext(entry) => entry in stack
    case AtTake(entry, n) => entry in stack && NextOf(next, entry) == n
  }

  ghost predicate OthersApart(adders: seq<Adder>) {
    forall p, q :: 0 <= p < |adders| && 0 <= q < |adders| && p != q ==> Apart(Pending(adders[p]), Pending(adders[q]))
  }

  /** The history is right, the memory holds exactly the stack it gives, calls in progress keep their nodes to themselves, and
      what the consumer has read of its entry is still so. */
  ghost predicate Inv(s: State) {
    && Replay(s.log).Stack?
    && var stack := Replay(s.log).nodes;
       && Chain(s.next, s.head, stack) && NoDup(stack)
       && (forall p :: 0 <= p < |s.adders| ==> GoodAdder(s.next, s.adders[p]) && Apart(Pending(s.adders[p]), stack))
       && OthersApart(s.adders)
       && GoodDeleter(s.next, s.deleter, stack)
  }

  lemma {:induction false} ChainFrame(next: map<Node, Node>, now: map<Node, Node>, h: Node, s: seq<Node>)
    requires Chain(next, h, s) && forall n :: n in s ==> NextOf(now, n) == NextOf(next, n)
    ensures Chain(now, h, s)
    decreases |s|
  {
    if s != [] {
      ChainFrame(next, now, NextOf(next, h), s[1..]);
    }
  }

  lemma {:induction false} ChainPush(next: map<Node, Node>, h: Node, s: seq<Node>, b: seq<Node>)
    requires Chain(next, h, s) && b != [] && 0 !in b && LinkedUp(next, b) && NextOf(next, b[|b| - 1]) == h
    ensures Chain(next, b[0], b + s)
  {
    if |b| == 1 {
      assert (b + s)[1..] == s;
    } else {
      assert b[1..][|b| - 2] == b[|b| - 1];
      assert NextOf(next, b[0]) == b[1];
      forall k | 0 <= k < |b[1..]| - 1
        ensures NextOf(next, b[1..][k]) == b[1..][k + 1]
      {
        assert NextOf(next, b[k + 1]) == b[k + 2];
      }
      ChainPush(next, h, s, b[1..]);
      assert (b + s)[1..] == b[1..] + s;
    }
  }

  lemma {:induction false} LinkedIs(next: map<Node, Node>, b: seq<Node>)
    requires NoDup(b)
    ensures LinkedUp(Linked(next, b), b)
    ensures forall n :: n !in b ==> NextOf(Linked(next, b), n) == NextOf(next, n)
  {
    if |b| >= 2 {
      LinkedIs(next, b[1..]);
      var now := Linked(next, b);
      forall k | 0 <= k < |b| - 1
        ensures NextOf(now, b[k]) == b[k + 1]
      {
        if k > 0 {
          assert b[1..][k - 1] == b[k] && b[1..][k] == b[k + 1];
          assert NextOf(Linked(next, b[1..]), b[1..][k - 1]) == b[1..][k];
        }
      }
    }
  }

  /** A write to nodes of one call leaves the list, the consumer and the other calls alone. */
  lemma WriteFrame(s: State, now: map<Node, Node>, p: nat, own: seq<Node>)
    requires Inv(s) && p < |s.adders| && forall n :: n !in own ==> NextOf(now, n) == NextOf(s.next, n)
    requires Apart(own, Replay(s.log).nodes)
    requires forall q :: 0 <= q < |s.adders| && q != p ==> Apart(own, Pending(s.adders[q]))
    ensures Chain(now, s.head, Replay(s.log).nodes) && GoodDeleter(now, s.deleter, Replay(s.log).nodes)
    ensures forall q :: 0 <= q < |s.adders| && q != p ==> GoodAdder(now, s.adders[q])
  {
    ChainFrame(s.next, now, s.head, Replay(s.log).nodes);
    forall q | 0 <= q < |s.adders| && q != p
      ensures GoodAdder(now, s.adders[q])
    {
      AdderFrame(s.next, now, s.adders[q]);
    }
  }

  lemma AdderFrame(next: map<Node, Node>, now: map<Node, Node>, a: Adder)
    requires GoodAdder(next, a) && forall n :: n in Pending(a) ==> NextOf(now, n) == NextOf(next, n)
    ensures GoodAdder(now, a)
  {
    if !a.Idle? {
      var b := a.batch;
      forall k | 0 <= k < |b| - 1
        ensures NextOf(now, b[k]) == b[k + 1]
      {
        assert b[k] in b;
      }
    }
  }

  /** Replacing one call's state. */
  lemma AddersFrame(adders: seq<Adder>, p: nat, a: Adder)
    requires OthersApart(adders) && p < |adders|
    requires forall q :: 0 <= q < |adders| && q != p ==> Apart(Pending(a), Pending(adders[q]))
    ensures OthersApart(adders[p := a])
  {
    var now := adders[p := a];
    forall i, j | 0 <= i < |now| && 0 <= j < |now| && i != j
      ensures Apart(Pending(now[i]), Pending(now[j]))
    {
      if j == p {
        assert Apart(Pending(a), Pending(adders[i]));
      }
    }
  }

  lemma BeginKeeps(s: State, p: nat, batch: seq<Node>)
    requires Inv(s) && Enabled(s, Begin(p, batch))
    ensures Inv(Apply(s, Begin(p, batch)))
  {
    LinkedIs(s.next, batch);
    WriteFrame(s, Linked(s.next, batch), p, batch);
    AddersFrame(s.adders, p, AtRead(batch));
  }

  lemma LinkKeeps(s: State, p: nat)
    requires Inv(s) && p < |s.adders| && s.adders[p].AtLink?
    ensures Inv(AddStep(s, p))
  {
    var b, first := s.adders[p].batch, s.adders[p].first;
    var last := b[|b| - 1];
    var now := s.next[last := first];
    WriteFrame(s, now, p, b);
    AddersFrame(s.adders, p, AtSwap(b, first));
    forall k | 0 <= k < |b| - 1
      ensures NextOf(now, b[k]) == b[k + 1]
    {
      assert b[k] != last;
    }
  }

  /** The compare-and-swap that succeeds is the push. */
  lemma PushKeeps(s: State, p: nat)
    requires Inv(s) && p < |s.adders| && s.adders[p].AtSwap? && s.head == s.adders[p].first
    ensures Inv(AddStep(s, p))
  {
    var b := s.adders[p].batch;
    var stack := Replay(s.log).nodes;
    ReplayMore(s.log, Added(b, s.head == 0));
    ChainPush(s.next, s.head, stack, b);
    AddersFrame(s.adders, p, Idle);
    forall q | 0 <= q < |s.adders| && q != p
      ensures Apart(Pending(s.adders[q]), b + stack)
    {
      assert Apart(Pending(s.adders[q]), Pending(s.adders[p]));
    }
    forall i, j | 0 <= i < j < |b + stack|
      ensures (b + stack)[i] != (b + stack)[j]
    {
      if i < |b| <= j {
        assert b[i] !in stack;
      }
    }
  }

  lemma AddKeeps(s: State, p: nat)
    requires Inv(s) && Enabled(s, Add(p))
    ensures Inv(AddStep(s, p))
  {
    match s.adders[p] {
      case AtRead(b) =>
        AddersFrame(s.adders, p, AtLink(b, s.head));
      case AtLink(b, first) =>
        LinkKeeps(s, p);
      case AtSwap(b, first) =>
        if s.head == first {
          PushKeeps(s, p);
        } else {
          AddersFrame(s.adders, p, AtRead(b));
        }
    }
  }

  lemma TestedKeeps(s: State)
    requires Inv(s)
    ensures Inv(Tested(s, s.head))
  {
    if s.head == 0 {
      ReplayMore(s.log, FoundEmpty);
    }
  }

  /** The compare-and-swap of llist_del_first() that succeeds pops the top of the stack, although next was read earlier. */
  lemma PopKeeps(s: State)
    requires Inv(s) && s.deleter.AtTake? && s.head == s.deleter.entry
    ensures Inv(DeleteStep(s))
    ensures var stack := Replay(s.log).nodes;
            stack != [] && stack[0] == s.deleter.entry && Replay(DeleteStep(s).log) == Stack(stack[1..])
  {
    var stack := Replay(s.log).nodes;
    ReplayMore(s.log, Popped(s.head));
    assert stack[0] == s.head;
    forall p | 0 <= p < |s.adders|
      ensures Apart(Pending(s.adders[p]), stack[1..])
    {
      assert Apart(Pending(s.adders[p]), stack);
    }
  }

  lemma DeleteKeeps(s: State)
    requires Inv(s)
    ensures Inv(DeleteStep(s))
  {
    match s.deleter {
      case Resting => TestedKeeps(s);
      case AtNext(entry) =>
      case AtTake(entry, next) =>
        if s.head == entry {
          PopKeeps(s);
        } else {
          TestedKeeps(s);
        }
    }
  }

  lemma StepKeeps(s: State, a: Action)
    requires Inv(s) && Enabled(s, a)
    ensures Inv(Apply(s, a))
  {
    match a {
      case Begin(p, batch) => BeginKeeps(s, p, batch);
      case Add(p) => AddKeeps(s, p);
      case Delete => DeleteKeeps(s);
      case DeleteAll => ReplayMore(s.log, TookAll(s.head));
    }
  }

  /** Every run, however its steps interleave: the results returned are those of a stack on which each call took effect at
      once, and the list in memory is that stack. */
  lemma {:induction false} RunIsLinear(callers: nat, actions: seq<Action>, s: State)
    requires Reaches(callers, actions, s)
    ensures Inv(s)
    ensures Replay(s.log).Stack? && Chain(s.next, s.head, Replay(s.log).nodes) && NoDup(Replay(s.log).nodes)
    decreases |actions|
  {
    if actions != [] {
      var n := |actions| - 1;
      var before :| Reaches(callers, actions[..n], before) && Enabled(before, actions[n]) && s == Apply(before, actions[n]);
      RunIsLinear(callers, actions[..n], before);
      StepKeeps(before, actions[n]);
    }
  }

  // ---------------------------------------------------------------- conservation

  /** The nodes that an event adds, and those it hands out from stack s. */
  function In(e: Event): multiset<Node> {
    if e.Added? then multiset(e.batch) else multiset{}
  }

  function Out(s: seq<Node>, e: Event): multiset<Node> {
    match e
    case Added(_, _) => multiset{}
    case Popped(n) => multiset{n}
    case FoundEmpty => multiset{}
    case TookAll(_) => multiset(s)
  }

  function Given(log: seq<Event>): multiset<Node> {
    if log == [] then multiset{} else Given(log[..|log| - 1]) + In(log[|log| - 1])
  }

  function Taken(log: seq<Event>): multiset<Node> {
    if log == [] then multiset{}
    else
      var before := log[..|log| - 1];
      Taken(before) + if Replay(before).Stack? then Out(Replay(before).nodes, log[|log| - 1]) else multiset{}
  }

  lemma EventConserves(s: seq<Node>, e: Event)
    requires Effect(s, e).Stack?
    ensures multiset(s) + In(e) == multiset(Effect(s, e).nodes) + Out(s, e)
  {
    match e {
      case Added(b, _) => assert multiset(b + s) == multiset(b) + multiset(s);
      case Popped(n) => assert s == [s[0]] + s[1..];
      case FoundEmpty =>
      case TookAll(_) =>
    }
  }

  /** No node is lost or duplicated: what was added is what was handed out and what is on the list. */
  lemma {:induction false} NothingLost(log: seq<Event>)
    requires Replay(log).Stack?
    ensures Given(log) == Taken(log) + multiset(Replay(log).nodes)
  {
    if log != [] {
      var e, before := log[|log| - 1], log[..|log| - 1];
      NothingLost(before);
      var was := Replay(before).nodes;
      EventConserves(was, e);
      Balance(Given(before), Taken(before), multiset(was), In(e), Out(was, e), multiset(Replay(log).nodes));
    }
  }

  lemma Balance(given: multiset<Node>, taken: multiset<Node>, was: multiset<Node>, i: multiset<Node>,
      o: multiset<Node>, now: multiset<Node>)
    requires given == taken + was && was + i == now + o
    ensures given + i == taken + o + now
  {
    assert taken + was + i == taken + (was + i);
    assert taken + (now + o) == taken + o + now;
  }

  // ---------------------------------------------------------------- reversal

  function Backwards(s: seq<Node>): seq<Node> {
    seq(|s|, i requires 0 <= i < |s| => s[|s| - 1 - i])
  }

  /** llist_reverse_order(), on a chain that nobody else can reach. */
  method ReverseOrder(next: map<Node, Node>, head: Node, ghost s: seq<Node>) returns (now: map<Node, Node>, first: Node)
    requires Chain(next, head, s) && NoDup(s)
    ensures Chain(now, first, Backwards(s))
    ensures forall n :: n !in s ==> NextOf(now, n) == NextOf(next, n)
  {
    var h := head;
    ghost var t: nat := 0;
    now, first := next, 0;
    assert s[0..] == s;
    while h != 0
      invariant t <= |s| && Chain(now, h, s[t..]) && Chain(now, first, Backwards(s[..t]))
      invariant forall n :: n !in s[..t] ==> NextOf(now, n) == NextOf(next, n)
      decreases |s| - t
    {
      var tmp := h;
      h := NextOf(now, h);
      ReverseStep(now, tmp, first, s, t);
      now, first := now[tmp := first], tmp;
      t := t + 1;
    }
    assert s[..t] == s;
  }

  lemma ReverseStep(next: map<Node, Node>, h: Node, first: Node, s: seq<Node>, t: nat)
    requires h != 0 && t <= |s| && Chain(next, h, s[t..]) && Chain(next, first, Backwards(s[..t])) && NoDup(s)
    ensures t < |s| && h == s[t]
    ensures var now := next[h := first];
            Chain(now, NextOf(next, h), s[t + 1..]) && Chain(now, h, Backwards(s[..t + 1]))
    ensures forall n :: n !in s[..t + 1] ==> n !in s[..t] && n != h
  {
    var now := next[h := first];
    assert s[t..][1..] == s[t + 1..] && h == s[t];
    ChainFrame(next, now, NextOf(next, h), s[t + 1..]);
    ChainFrame(next, now, first, Backwards(s[..t]));
    assert Backwards(s[..t + 1]) == [h] + Backwards(s[..t]);
    assert Backwards(s[..t + 1])[1..] == Backwards(s[..t]);
    assert s[..t + 1] == s[..t] + [h];
  }

  // ---------------------------------------------------------------- when nothing comes in between

  /** A call of llist_add_batch() adds its nodes in front and says whether the list was empty. */
  lemma AddAlone(s: State, p: nat, batch: seq<Node>)
    requires p < |s.adders| && s.adders[p].Idle? && batch != []
    ensures var now := Apply(Apply(Apply(Apply(s, Begin(p, batch)), Add(p)), Add(p)), Add(p));
            && now.log == s.log + [Added(batch, s.head == 0)] && now.head == batch[0] && now.adders == s.adders
            && NextOf(now.next, batch[|batch| - 1]) == s.head
  {
  }

  /** llist_del_first() takes the first node, or finds the list empty. */
  lemma DeleteAlone(s: State)
    requires s.deleter.Resting?
    ensures s.head == 0 ==> Apply(s, Delete) == s.(log := s.log + [FoundEmpty])
    ensures s.head != 0 ==>
              Apply(Apply(Apply(s, Delete), Delete), Delete) == s.(head := NextOf(s.next, s.head),
                  log := s.log + [Popped(s.head)])
  {
  }
}
