/** Conditional inclusion as section 6.10.1 of ISO/IEC 9899:1999 describes it, in two forms that are
    proved to agree: a machine that reads one directive at a time, and a grammar of nested groups.
    `C` is the type of a condition; `truth` says which conditions hold. */
module Preprocessor {

  datatype Directive<C> = If(cond: C) | Elif(cond: C) | Else | Endif | Text(id: nat)

  /** One open group: has some branch been chosen, is the current branch the chosen one, was #else read. */
  datatype Frame = Frame(taken: bool, active: bool, seenElse: bool)

  datatype Frames = Outermost | Within(top: Frame, below: Frames)

  datatype Reading = Malformed | Reading(open: Frames, selected: seq<nat>)

  predicate Active(open: Frames) {
    open.Outermost? || open.top.active
  }

  function Depth(open: Frames): nat {
    if open.Outermost? then 0 else 1 + Depth(open.below)
  }

  const START := Reading(Outermost, [])

  function OnIf(open: Frames, t: bool): Frames {
    Within(Frame(t, Active(open) && t, false), open)
  }

  /** #elif and #else need an open group that has not had its #else. */
  predicate MayContinue(open: Frames) {
    open.Within? && !open.top.seenElse
  }

  function OnElif(open: Frames, t: bool): Frames
    requires open.Within?
  {
    Within(Frame(open.top.taken || t, Active(open.below) && !open.top.taken && t, false), open.below)
  }

  function OnElse(open: Frames): Frames
    requires open.Within?
  {
    Within(Frame(true, Active(open.below) && !open.top.taken, true), open.below)
  }

  function Read<C>(r: Reading, d: Directive<C>, truth: C -> bool): Reading {
    if r.Malformed? then Malformed else
    match d
    case Text(id) => if Active(r.open) then r.(selected := r.selected + [id]) else r
    case If(c) => r.(open := OnIf(r.open, truth(c)))
    case Elif(c) => if MayContinue(r.open) then r.(open := OnElif(r.open, truth(c))) else Malformed
    case Else => if MayContinue(r.open) then r.(open := OnElse(r.open)) else Malformed
    case Endif => if r.open.Within? then r.(open := r.open.below) else Malformed
  }

  function ReadAll<C>(r: Reading, ds: seq<Directive<C>>, truth: C -> bool): Reading {
    if ds == [] then r else Read(ReadAll(r, ds[..|ds| - 1], truth), ds[|ds| - 1], truth)
  }

  datatype Selection = NotNested | Selected(ids: seq<nat>)

  /** The text lines a preprocessor keeps, or NotNested for a file whose groups do not match up. */
  function Preprocess<C>(ds: seq<Directive<C>>, truth: C -> bool): Selection {
    var r := ReadAll(START, ds, truth);
    if r.Reading? && r.open.Outermost? then Selected(r.selected) else NotNested
  }

  lemma ReadAllAppend<C>(r: Reading, ds: seq<Directive<C>>, d: Directive<C>, truth: C -> bool)
    ensures ReadAll(r, ds + [d], truth) == Read(ReadAll(r, ds, truth), d, truth)
  {
    assert (ds + [d])[..|ds|] == ds;
  }

  lemma {:induction false} ReadAllConcat<C>(r: Reading, a: seq<Directive<C>>, b: seq<Directive<C>>, truth: C -> bool)
    ensures ReadAll(r, a + b, truth) == ReadAll(ReadAll(r, a, truth), b, truth)
    decreases |b|
  {
    if b == [] {
      assert a + b == a;
    } else {
      var n := |b| - 1;
      ReadAllConcat(r, a, b[..n], truth);
      assert a + b == (a + b[..n]) + [b[n]];
      ReadAllAppend(r, a + b[..n], b[n], truth);
    }
  }

  // ----- The grammar of a file: text lines and groups (if-section of the standard's grammar)

  datatype Items<C> = Nothing | Line(id: nat, rest: Items<C>) | Group(cond: C, body: Items<C>, tail: Tail<C>, rest: Items<C>)
  datatype Tail<C> = NoMore | ElifGroup(cond: C, body: Items<C>, tail: Tail<C>) | ElseGroup(body: Items<C>)

  function Unparse<C>(items: Items<C>): seq<Directive<C>> {
    match items
    case Nothing => []
    case Line(id, rest) => [Text(id)] + Unparse(rest)
    case Group(c, body, tail, rest) => [If(c)] + Unparse(body) + UnparseTail(tail) + Unparse(rest)
  }

  function UnparseTail<C>(tail: Tail<C>): seq<Directive<C>> {
    match tail
    case NoMore => [Endif]
    case ElifGroup(c, body, more) => [Elif(c)] + Unparse(body) + UnparseTail(more)
    case ElseGroup(body) => [Else] + Unparse(body) + [Endif]
  }

  /** What the standard selects: the first branch whose condition holds, else the #else branch. */
  function Select<C>(items: Items<C>, truth: C -> bool): seq<nat> {
    match items
    case Nothing => []
    case Line(id, rest) => [id] + Select(rest, truth)
    case Group(c, body, tail, rest) =>
      (if truth(c) then Select(body, truth) else SelectTail(tail, truth)) + Select(rest, truth)
  }

  function SelectTail<C>(tail: Tail<C>, truth: C -> bool): seq<nat> {
    match tail
    case NoMore => []
    case ElifGroup(c, body, more) => if truth(c) then Select(body, truth) else SelectTail(more, truth)
    case ElseGroup(body) => Select(body, truth)
  }

  lemma {:induction false} ReadOne<C>(r: Reading, d: Directive<C>, ds: seq<Directive<C>>, truth: C -> bool)
    ensures ReadAll(r, [d] + ds, truth) == ReadAll(Read(r, d, truth), ds, truth)
  {
    ReadAllConcat(r, [d], ds, truth);
    assert [d][..0] == [];
    assert ReadAll(r, [d], truth) == Read(ReadAll(r, [], truth), d, truth);
  }

  lemma {:induction false} ReadChain<C>(r: Reading, d: Directive<C>, x: seq<Directive<C>>, y: seq<Directive<C>>,
      z: seq<Directive<C>>, truth: C -> bool)
    ensures ReadAll(r, [d] + x + y + z, truth)
         == ReadAll(ReadAll(ReadAll(Read(r, d, truth), x, truth), y, truth), z, truth)
  {
    ReadAllConcat(r, [d] + x + y, z, truth);
    ReadAllConcat(r, [d] + x, y, truth);
    ReadOne(r, d, x, truth);
  }

  function Emit(r: Reading, ids: seq<nat>): Reading
    requires r.Reading?
  {
    if Active(r.open) then r.(selected := r.selected + ids) else r
  }

  lemma EmitTwice(r: Reading, a: seq<nat>, b: seq<nat>)
    requires r.Reading?
    ensures Emit(Emit(r, a), b) == Emit(r, a + b)
  {
    assert r.selected + a + b == r.selected + (a + b);
  }

  /** Reading a whole group sequence leaves the open groups alone and selects what the grammar selects. */
  lemma {:induction false} ReadItems<C>(r: Reading, items: Items<C>, truth: C -> bool)
    requires r.Reading?
    ensures ReadAll(r, Unparse(items), truth) == Emit(r, Select(items, truth))
    decreases items, 1
  {
    match items
    case Nothing =>
    case Line(id, rest) =>
      ReadOne(r, Text(id), Unparse(rest), truth);
      ReadItems(Emit(r, [id]), rest, truth);
      EmitTwice(r, [id], Select(rest, truth));
    case Group(c, body, tail, rest) =>
      var chosen := if truth(c) then Select(body, truth) else SelectTail(tail, truth);
      ReadChain(r, If(c), Unparse(body), UnparseTail(tail), Unparse(rest), truth);
      ReadGroup(r, items, truth);
      ReadItems(Emit(r, chosen), rest, truth);
      EmitTwice(r, chosen, Select(rest, truth));
  }

  lemma {:induction false} ReadGroup<C>(r: Reading, g: Items<C>, truth: C -> bool)
    requires r.Reading? && g.Group?
    ensures ReadAll(ReadAll(Read(r, If(g.cond), truth), Unparse(g.body), truth), UnparseTail(g.tail), truth)
         == Emit(r, if truth(g.cond) then Select(g.body, truth) else SelectTail(g.tail, truth))
    decreases g, 0
  {
    var r1 := Read(r, If(g.cond), truth);
    ReadItems(r1, g.body, truth);
    ReadTail(Emit(r1, Select(g.body, truth)), g.tail, truth);
  }

  /** A tail closes its group, and selects only if no earlier branch was chosen. */
  lemma {:induction false} ReadTail<C>(r: Reading, tail: Tail<C>, truth: C -> bool)
    requires r.Reading? && r.open.Within? && !r.open.top.seenElse
    ensures ReadAll(r, UnparseTail(tail), truth)
         == Emit(r.(open := r.open.below), if r.open.top.taken then [] else SelectTail(tail, truth))
    decreases tail, 1
  {
    match tail
    case NoMore =>
      ReadOne(r, Directive<C>.Endif, [], truth);
      assert [Directive<C>.Endif] + [] == [Directive<C>.Endif];
    case ElifGroup(c, body, more) =>
      ReadElif(r, tail, truth);
    case ElseGroup(body) =>
      ReadElse(r, tail, truth);
  }

  lemma {:induction false} ReadElif<C>(r: Reading, t: Tail<C>, truth: C -> bool)
    requires r.Reading? && r.open.Within? && !r.open.top.seenElse && t.ElifGroup?
    ensures ReadAll(r, UnparseTail(t), truth)
         == Emit(r.(open := r.open.below), if r.open.top.taken then [] else SelectTail(t, truth))
    decreases t, 0
  {
    ReadChain(r, Elif(t.cond), Unparse(t.body), UnparseTail(t.tail), [], truth);
    assert UnparseTail(t) == [Elif(t.cond)] + Unparse(t.body) + UnparseTail(t.tail) + [];
    var r1 := Read(r, Elif(t.cond), truth);
    ReadItems(r1, t.body, truth);
    ReadTail(Emit(r1, Select(t.body, truth)), t.tail, truth);
  }

  lemma {:induction false} ReadElse<C>(r: Reading, t: Tail<C>, truth: C -> bool)
    requires r.Reading? && r.open.Within? && !r.open.top.seenElse && t.ElseGroup?
    ensures ReadAll(r, UnparseTail(t), truth)
         == Emit(r.(open := r.open.below), if r.open.top.taken then [] else SelectTail(t, truth))
    decreases t, 0
  {
    ReadChain(r, Directive<C>.Else, Unparse(t.body), [Directive<C>.Endif], [], truth);
    assert UnparseTail(t) == [Directive<C>.Else] + Unparse(t.body) + [Directive<C>.Endif] + [];
    var r1 := Read(r, Directive<C>.Else, truth);
    ReadItems(r1, t.body, truth);
    ReadOne(Emit(r1, Select(t.body, truth)), Directive<C>.Endif, [], truth);
    assert [Directive<C>.Endif] + [] == [Directive<C>.Endif];
  }

  /** The one-directive-at-a-time machine computes the grammar's meaning on every file of the grammar. */
  lemma MachineMatchesGrammar<C>(items: Items<C>, truth: C -> bool)
    ensures Preprocess(Unparse(items), truth) == Selected(Select(items, truth))
  {
    ReadItems(START, items, truth);
  }
}
