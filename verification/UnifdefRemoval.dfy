/** What unifdef removes: no condition that it judged is left, and a text line is left exactly if the open conditions can still
    select it. */
module UnifdefRemoval {
  import opened Preprocessor
  import opened UnifdefTable
  import opened UnifdefMeaning

  // ----- No judged condition is left

  predicate HasCond<C>(d: Directive<C>) {
    d.If? || d.Elif?
  }

  predicate OpenKind(lt: Linetype) {
    lt.Control? && (lt.kind.IfUnknown? || lt.kind.ElifUnknown?)
  }

  /** Line i of the input carries this condition, and it was not judged. */
  ghost predicate OpenLine<C(!new)>(lines: seq<Line<C>>, i: nat, c: C) {
    i < |lines| && OpenKind(lines[i].lt) && HasCond(lines[i].dir) && lines[i].dir.cond == c
  }

  /** A directive of the output is as some line of the input has it: text and open conditions only. */
  ghost predicate FromInput<C(!new)>(lines: seq<Line<C>>, d: Directive<C>) {
    && (HasCond(d) ==> exists i: nat :: OpenLine(lines, i, d.cond))
    && (d.Text? ==> exists i: nat :: i < |lines| && lines[i].dir == d)
  }

  lemma WritesOpen<C(!new)>(l: Levels, line: Line<C>, iocccok: bool)
    requires Typed(line) && OneLine(line.lt)
    ensures var w := Writes(Transition(Top(l), line.lt), line.dir);
            w.Wrote? ==> (HasCond(w.dir) ==> HasCond(line.dir) && OpenKind(line.lt) && w.dir.cond == line.dir.cond)
                         && (w.dir.Text? ==> w.dir == line.dir)
  {
  }

  lemma {:induction false} OutputFromInput<C(!new)>(lines: seq<Line<C>>, iocccok: bool, d: Directive<C>)
    requires TypedFile(lines) && OneLineFile(lines) && RunLines(lines, iocccok).Running?
             && d in RunLines(lines, iocccok).m.out
    ensures FromInput(lines, d)
    decreases |lines|
  {
    var n := |lines| - 1;
    var before, line := lines[..n], lines[n];
    var o := RunLines(before, iocccok);
    if d in o.m.out {
      OutputFromInput(before, iocccok, d);
      if HasCond(d) {
        var i: nat :| OpenLine(before, i, d.cond);
        assert OpenLine(lines, i, d.cond);
      } else if d.Text? {
        var i: nat :| i < |before| && before[i].dir == d;
        assert lines[i].dir == d;
      }
    } else {
      WritesOpen(o.m.levels, line, iocccok);
      assert HasCond(d) ==> OpenLine(lines, n, d.cond);
    }
  }

  /** Every #if and #elif of the output carries the condition of an input line that could not be judged. */
  lemma NoJudgedConditionIsLeft<C(!new)>(lines: seq<Line<C>>, iocccok: bool)
    requires TypedFile(lines) && OneLineFile(lines) && Run(lines, iocccok).Finished?
    ensures forall d :: d in Run(lines, iocccok).out && HasCond(d) ==> exists i: nat :: OpenLine(lines, i, d.cond)
  {
    RunNests(lines, _ => true, iocccok);
    forall d | d in Run(lines, iocccok).out
      ensures FromInput(lines, d)
    {
      OutputFromInput(lines, iocccok, d);
    }
  }

  // ----- Choosing truth assignments

  /** No two lines carry the same condition. */
  ghost predicate DistinctConds<C(!new)>(lines: seq<Line<C>>) {
    forall i, j :: 0 <= i < j < |lines| && HasCond(lines[i].dir) && HasCond(lines[j].dir) ==>
        lines[i].dir.cond != lines[j].dir.cond
  }

  /** The two assignments say the same of these lines. */
  ghost predicate SameOn<C(!new)>(lines: seq<Line<C>>, truth: C -> bool, other: C -> bool) {
    forall i :: 0 <= i < |lines| && HasCond(lines[i].dir) ==> truth(lines[i].dir.cond) == other(lines[i].dir.cond)
  }

  ghost function Override<C(!new)>(truth: C -> bool, c: C, b: bool): C -> bool {
    x => if x == c then b else truth(x)
  }

  lemma {:induction false} SameReading<C(!new)>(lines: seq<Line<C>>, truth: C -> bool, other: C -> bool)
    requires SameOn(lines, truth, other)
    ensures ReadAll(START, Input(lines), truth) == ReadAll(START, Input(lines), other)
    ensures FileAgrees(lines, truth) == FileAgrees(lines, other)
    decreases |lines|
  {
    if lines == [] {
      assert Input(lines) == [];
    } else {
      var n := |lines| - 1;
      assert Input(lines)[..n] == Input(lines[..n]);
      SameReading(lines[..n], truth, other);
      assert HasCond(lines[n].dir) ==> truth(lines[n].dir.cond) == other(lines[n].dir.cond);
      forall i | 0 <= i < |lines|
        ensures Agrees(lines[i], truth) == Agrees(lines[i], other)
      {
      }
    }
  }

  /** A truth assignment for the first lines can be made to agree with the verdict of the next, whatever the others. */
  lemma OneMore<C(!new)>(lines: seq<Line<C>>, n: nat, truth: C -> bool, b: bool) returns (other: C -> bool)
    requires TypedFile(lines) && DistinctConds(lines) && n < |lines| && FileAgrees(lines[..n], truth)
    requires lines[n].lt.Control? ==> VerdictAgrees(lines[n].lt.kind, b)
    ensures FileAgrees(lines[..n + 1], other) && SameOn(lines[..n], truth, other)
    ensures HasCond(lines[n].dir) ==> other(lines[n].dir.cond) == b
  {
    var d := lines[n].dir;
    other := if HasCond(d) then Override(truth, d.cond, b) else truth;
    assert SameOn(lines[..n], truth, other);
    SameReading(lines[..n], truth, other);
    var now := lines[..n + 1];
    forall i | 0 <= i < |now|
      ensures Agrees(now[i], other)
    {
      if i < n {
        assert now[i] == lines[..n][i] && Agrees(lines[..n][i], other);
      } else {
        assert Typed(lines[n]);
      }
    }
  }

  // ----- What can still happen to the groups that are open

  /** Some truth assignment that agrees with the verdicts leaves these groups open. */
  ghost predicate Reachable<C(!new)>(lines: seq<Line<C>>, open: Frames) {
    exists truth: C -> bool :: Leaves(lines, truth, open)
  }

  ghost predicate Leaves<C(!new)>(lines: seq<Line<C>>, truth: C -> bool, open: Frames) {
    FileAgrees(lines, truth) && ReadAll(START, Input(lines), truth).Reading?
        && ReadAll(START, Input(lines), truth).open == open
  }

  /** The groups without the h innermost ones. */
  function Outer(open: Frames, h: nat): Frames {
    if h == 0 || open.Outermost? then open else Outer(open.below, h - 1)
  }

  /** The innermost group has not chosen a branch yet, and may. */
  predicate Undecided(open: Frames) {
    open.Within? && !open.top.taken && !open.top.seenElse && Active(open.below)
  }

  /** The states in which no branch before was certainly taken, and another may follow. */
  predicate MayFollow(s: Ifstate) {
    s.FalsePrefix? || s.PassMiddle? || s.FalseMiddle?
  }

  ghost predicate CanBeActive<C(!new)>(lines: seq<Line<C>>, h: nat) {
    exists open :: Reachable(lines, open) && Active(Outer(open, h))
  }

  ghost predicate CanBeUndecided<C(!new)>(lines: seq<Line<C>>, h: nat) {
    exists open :: Reachable(lines, open) && Undecided(Outer(open, h))
  }

  /** Every level that prints can be active, and every level that may go on can be undecided; h levels are further in. */
  ghost predicate Promises<C(!new)>(lines: seq<Line<C>>, l: Levels, h: nat)
    decreases l
  {
    && (Prints(Top(l)) ==> CanBeActive(lines, h))
    && (MayFollow(Top(l)) ==> CanBeUndecided(lines, h))
    && (l.Level? ==> Promises(lines, l.below, h + 1))
  }

  /** One more line, with its condition chosen. */
  lemma Extend<C(!new)>(lines: seq<Line<C>>, before: seq<Line<C>>, iocccok: bool, open: Frames, b: bool)
    requires lines != [] && before == lines[..|lines| - 1]
    requires TypedFile(lines) && DistinctConds(lines) && RunLines(lines, iocccok).Running? && Reachable(before, open)
    requires var line := lines[|lines| - 1]; line.lt.Control? ==> VerdictAgrees(line.lt.kind, b)
    ensures var d := lines[|lines| - 1].dir; Readable(open, d) && Reachable(lines, OnDirective(open, d, b && HasCond(d)))
  {
    var n := |lines| - 1;
    var d := lines[n].dir;
    var truth: C -> bool :| Leaves(before, truth, open);
    var other := OneMore(lines, n, truth, b);
    assert lines[..n + 1] == lines;
    SameReading(before, truth, other);
    RunNests(lines, other, iocccok);
    assert Input(lines)[..n] == Input(before);
    var r := ReadAll(START, Input(before), other);
    assert ReadAll(START, Input(lines), other) == Read(r, d, other);
    assert Readable(open, d);
    if !d.Text? { ReadIsOnDirective(r, d, other); }
    assert Leaves(lines, other, OnDirective(open, d, b && HasCond(d)));
  }

  /** The truth that a line's verdict asks for. */
  predicate Verdict(lt: Linetype) {
    lt.Control? && (lt.kind.IfTrueI? || lt.kind.IfTrue? || lt.kind.ElifTrue?)
  }

  /** How far in a group is, before and after a directive. */
  predicate Shifts<C>(d: Directive<C>, h: nat, h': nat) {
    match d
    case If(_) => h' == h + 1
    case Elif(_) => h' == h > 0
    case Else => h' == h > 0
    case Endif => h == h' + 1
    case Text(_) => h' == h
  }

  lemma OuterStays<C>(open: Frames, d: Directive<C>, b: bool, h: nat, h': nat)
    requires Readable(open, d) && Shifts(d, h, h')
    ensures Outer(OnDirective(open, d, b), h') == Outer(open, h)
  {
  }

  /** The groups further out keep their promises. */
  lemma {:induction false} Carry<C(!new)>(lines: seq<Line<C>>, before: seq<Line<C>>, iocccok: bool, q: Levels,
      h: nat, h': nat)
    requires lines != [] && before == lines[..|lines| - 1]
    requires TypedFile(lines) && DistinctConds(lines) && RunLines(lines, iocccok).Running?
    requires Promises(before, q, h) && Shifts(lines[|lines| - 1].dir, h, h')
    ensures Promises(lines, q, h')
    decreases q
  {
    var line := lines[|lines| - 1];
    var d, b := line.dir, Verdict(line.lt);
    if Prints(Top(q)) {
      var open :| Reachable(before, open) && Active(Outer(open, h));
      Extend(lines, before, iocccok, open, b);
      OuterStays(open, d, b && HasCond(d), h, h');
      assert Reachable(lines, OnDirective(open, d, b && HasCond(d)));
    }
    if MayFollow(Top(q)) {
      var open :| Reachable(before, open) && Undecided(Outer(open, h));
      Extend(lines, before, iocccok, open, b);
      OuterStays(open, d, b && HasCond(d), h, h');
      assert Reachable(lines, OnDirective(open, d, b && HasCond(d)));
    }
    if q.Level? {
      Carry(lines, before, iocccok, q.below, h + 1, h' + 1);
    }
  }

  /** A group opened where lines are printed. */
  lemma OpensGroup<C(!new)>(lines: seq<Line<C>>, before: seq<Line<C>>, iocccok: bool, b: bool)
    requires lines != [] && before == lines[..|lines| - 1]
    requires TypedFile(lines) && DistinctConds(lines) && RunLines(lines, iocccok).Running? && CanBeActive(before, 0)
    requires var line := lines[|lines| - 1]; line.dir.If? && (line.lt.Control? ==> VerdictAgrees(line.lt.kind, b))
    ensures b ==> CanBeActive(lines, 0)
    ensures !b ==> CanBeUndecided(lines, 0)
  {
    var d := lines[|lines| - 1].dir;
    var open :| Reachable(before, open) && Active(Outer(open, 0));
    Extend(lines, before, iocccok, open, b);
    var now := OnDirective(open, d, b);
    assert Reachable(lines, now) && Outer(now, 0) == now;
  }

  /** A branch that follows where none was certainly taken. */
  lemma FollowsBranch<C(!new)>(lines: seq<Line<C>>, before: seq<Line<C>>, iocccok: bool, b: bool)
    requires lines != [] && before == lines[..|lines| - 1]
    requires TypedFile(lines) && DistinctConds(lines) && RunLines(lines, iocccok).Running? && CanBeUndecided(before, 0)
    requires var line := lines[|lines| - 1];
             (line.dir.Elif? || (line.dir.Else? && b)) && (line.lt.Control? ==> VerdictAgrees(line.lt.kind, b))
    ensures b ==> CanBeActive(lines, 0)
    ensures !b ==> CanBeUndecided(lines, 0)
  {
    var d := lines[|lines| - 1].dir;
    var open :| Reachable(before, open) && Undecided(Outer(open, 0));
    Extend(lines, before, iocccok, open, b);
    var now := OnDirective(open, d, b && HasCond(d));
    assert Reachable(lines, now) && Outer(now, 0) == now;
  }

  // ----- What the table does on each kind of line

  lemma IfMoves(l: Levels, k: Kind, iocccok: bool)
    requires StartsGroup(k) && UnifdefMeaning.Next(l, Control(k, false), iocccok).To?
    ensures var n := UnifdefMeaning.Next(l, Control(k, false), iocccok).levels;
            && n.Level? && n.below == l
            && n.state == (if !Prints(Top(l)) then FalseTrailer else if k.IfUnknown? then PassMiddle
                           else if Verdict(Control(k, false)) then TruePrefix else FalsePrefix)
  {
  }

  lemma ElifMoves(l: Levels, k: Kind, iocccok: bool)
    requires (k.ElifUnknown? || k.ElifTrue? || k.ElifFalse?) && UnifdefMeaning.Next(l, Control(k, false), iocccok).To?
    ensures var n := UnifdefMeaning.Next(l, Control(k, false), iocccok).levels;
            && l.Level? && n.Level? && n.below == l.below
            && (Prints(n.state) ==> MayFollow(Top(l)) && !k.ElifFalse?)
            && (MayFollow(n.state) ==> MayFollow(Top(l)) && !k.ElifTrue?)
  {
  }

  lemma ElseMoves(l: Levels, iocccok: bool)
    requires UnifdefMeaning.Next(l, Control(ElseLine, false), iocccok).To?
    ensures var n := UnifdefMeaning.Next(l, Control(ElseLine, false), iocccok).levels;
            && l.Level? && n.Level? && n.below == l.below && (Prints(n.state) ==> MayFollow(Top(l))) && !MayFollow(n.state)
  {
  }

  lemma IfPromises<C(!new)>(lines: seq<Line<C>>, before: seq<Line<C>>, iocccok: bool, l: Levels, line: Line<C>)
    requires lines != [] && before == lines[..|lines| - 1] && line == lines[|lines| - 1] && line.dir.If? && OneLine(line.lt)
    requires TypedFile(lines) && DistinctConds(lines) && RunLines(lines, iocccok).Running? && Promises(before, l, 0)
    requires UnifdefMeaning.Next(l, line.lt, iocccok).To?
    ensures Promises(lines, UnifdefMeaning.Next(l, line.lt, iocccok).levels, 0)
  {
    var k := line.lt.kind;
    assert Typed(line) && line.lt == Control(k, false);
    IfMoves(l, k, iocccok);
    Carry(lines, before, iocccok, l, 0, 1);
    if Prints(Top(l)) {
      if k.IfUnknown? || Verdict(line.lt) { OpensGroup(lines, before, iocccok, true); }
      if k.IfUnknown? || !Verdict(line.lt) { OpensGroup(lines, before, iocccok, false); }
    }
  }

  lemma ElifPromises<C(!new)>(lines: seq<Line<C>>, before: seq<Line<C>>, iocccok: bool, l: Levels, line: Line<C>)
    requires lines != [] && before == lines[..|lines| - 1] && line == lines[|lines| - 1] && line.dir.Elif? && OneLine(line.lt)
    requires TypedFile(lines) && DistinctConds(lines) && RunLines(lines, iocccok).Running? && Promises(before, l, 0)
    requires UnifdefMeaning.Next(l, line.lt, iocccok).To?
    ensures Promises(lines, UnifdefMeaning.Next(l, line.lt, iocccok).levels, 0)
  {
    var k := line.lt.kind;
    assert Typed(line) && line.lt == Control(k, false);
    ElifMoves(l, k, iocccok);
    Carry(lines, before, iocccok, l.below, 1, 1);
    if MayFollow(Top(l)) {
      if !k.ElifFalse? { FollowsBranch(lines, before, iocccok, true); }
      if !k.ElifTrue? { FollowsBranch(lines, before, iocccok, false); }
    }
  }

  lemma ElsePromises<C(!new)>(lines: seq<Line<C>>, before: seq<Line<C>>, iocccok: bool, l: Levels, line: Line<C>)
    requires lines != [] && before == lines[..|lines| - 1] && line == lines[|lines| - 1] && line.dir.Else? && OneLine(line.lt)
    requires TypedFile(lines) && DistinctConds(lines) && RunLines(lines, iocccok).Running? && Promises(before, l, 0)
    requires UnifdefMeaning.Next(l, line.lt, iocccok).To?
    ensures Promises(lines, UnifdefMeaning.Next(l, line.lt, iocccok).levels, 0)
  {
    assert Typed(line) && line.lt == Control(ElseLine, false);
    ElseMoves(l, iocccok);
    Carry(lines, before, iocccok, l.below, 1, 1);
    if MayFollow(Top(l)) { FollowsBranch(lines, before, iocccok, true); }
  }

  lemma OtherPromises<C(!new)>(lines: seq<Line<C>>, before: seq<Line<C>>, iocccok: bool, l: Levels, line: Line<C>)
    requires lines != [] && before == lines[..|lines| - 1] && line == lines[|lines| - 1]
             && (line.dir.Endif? || line.dir.Text?)
    requires TypedFile(lines) && DistinctConds(lines) && RunLines(lines, iocccok).Running? && Promises(before, l, 0)
    requires OneLine(line.lt) && UnifdefMeaning.Next(l, line.lt, iocccok).To?
    ensures Promises(lines, UnifdefMeaning.Next(l, line.lt, iocccok).levels, 0)
  {
    if line.dir.Endif? {
      assert l.Level?;
      Carry(lines, before, iocccok, l.below, 1, 0);
    } else {
      Carry(lines, before, iocccok, l, 0, 0);
    }
  }

  lemma {:induction false} RunPromises<C(!new)>(lines: seq<Line<C>>, iocccok: bool)
    requires TypedFile(lines) && OneLineFile(lines) && DistinctConds(lines) && RunLines(lines, iocccok).Running?
    ensures Promises(lines, RunLines(lines, iocccok).m.levels, 0)
    decreases |lines|
  {
    if lines == [] {
      assert Input(lines) == [];
      assert Leaves(lines, _ => true, Outermost);
      assert Reachable(lines, Outermost) && Active(Outer(Outermost, 0));
    } else {
      var n := |lines| - 1;
      var before, line := lines[..n], lines[n];
      RunPromises(before, iocccok);
      var l := RunLines(before, iocccok).m.levels;
      assert Typed(line) && OneLine(line.lt);
      match line.dir
      case If(_) => IfPromises(lines, before, iocccok, l, line);
      case Elif(_) => ElifPromises(lines, before, iocccok, l, line);
      case Else => ElsePromises(lines, before, iocccok, l, line);
      case _ => OtherPromises(lines, before, iocccok, l, line);
    }
  }

  // ----- Which text is left

  /** The text line was printed where it stands in the input. */
  lemma {:induction false} PrintedAt<C(!new)>(lines: seq<Line<C>>, iocccok: bool, id: nat) returns (i: nat)
    requires TypedFile(lines) && OneLineFile(lines) && RunLines(lines, iocccok).Running?
    requires Text(id) in RunLines(lines, iocccok).m.out
    ensures i < |lines| && lines[i].dir == Text(id)
    ensures RunLines(lines[..i], iocccok).Running? && Prints(Top(RunLines(lines[..i], iocccok).m.levels))
    decreases |lines|
  {
    var n := |lines| - 1;
    var before := lines[..n];
    if Text(id) in RunLines(before, iocccok).m.out {
      i := PrintedAt(before, iocccok, id);
      assert before[..i] == lines[..i];
    } else {
      i := n;
      assert Typed(lines[n]);
      WritesOpen(RunLines(before, iocccok).m.levels, lines[n], iocccok);
    }
  }

  lemma {:induction false} AgreeRest<C(!new)>(lines: seq<Line<C>>, n: nat, truth: C -> bool) returns (other: C -> bool)
    requires TypedFile(lines) && DistinctConds(lines) && n <= |lines| && FileAgrees(lines[..n], truth)
    ensures FileAgrees(lines, other) && SameOn(lines[..n], truth, other)
    decreases |lines| - n
  {
    if n == |lines| {
      other := truth;
      assert lines[..n] == lines;
    } else {
      var more := OneMore(lines, n, truth, Verdict(lines[n].lt));
      other := AgreeRest(lines, n + 1, more);
      forall k | 0 <= k < n && HasCond(lines[..n][k].dir)
        ensures truth(lines[..n][k].dir.cond) == other(lines[..n][k].dir.cond)
      {
        assert lines[..n + 1][k] == lines[..n][k];
      }
    }
  }

  /** A text line that was active when it was read is selected in the end. */
  lemma {:induction false} StaysSelected<C(!new)>(lines: seq<Line<C>>, iocccok: bool, i: nat, id: nat, truth: C -> bool)
    requires TypedFile(lines) && RunLines(lines, iocccok).Running? && i < |lines| && lines[i].dir == Text(id)
    requires var r := ReadAll(START, Input(lines[..i]), truth); r.Reading? && Active(r.open)
    ensures var r := ReadAll(START, Input(lines), truth); r.Reading? && id in r.selected
    decreases |lines|
  {
    var n := |lines| - 1;
    RunNests(lines, truth, iocccok);
    assert Input(lines)[..n] == Input(lines[..n]);
    if i < n {
      assert lines[..n][..i] == lines[..i];
      StaysSelected(lines[..n], iocccok, i, id, truth);
    }
  }

  lemma {:induction false} SelectedIsText<C(!new)>(ds: seq<Directive<C>>, truth: C -> bool, id: nat)
    requires ReadAll(START, ds, truth).Reading? && id in ReadAll(START, ds, truth).selected
    ensures Text(id) in ds
    decreases |ds|
  {
    var n := |ds| - 1;
    var r := ReadAll(START, ds[..n], truth);
    if id in r.selected {
      SelectedIsText(ds[..n], truth, id);
    } else {
      assert ds[n] == Text(id);
    }
  }

  ghost predicate Selects<C(!new)>(lines: seq<Line<C>>, truth: C -> bool, id: nat) {
    && FileAgrees(lines, truth)
    && Preprocess(Input(lines), truth).Selected? && id in Preprocess(Input(lines), truth).ids
  }

  lemma LeftIsSelectable<C(!new)>(lines: seq<Line<C>>, iocccok: bool, id: nat) returns (truth: C -> bool)
    requires TypedFile(lines) && OneLineFile(lines) && DistinctConds(lines) && Run(lines, iocccok).Finished?
    requires Text(id) in Run(lines, iocccok).out
    ensures Selects(lines, truth, id)
  {
    RunNests(lines, _ => true, iocccok);
    var i := PrintedAt(lines, iocccok, id);
    var before := lines[..i];
    RunPromises(before, iocccok);
    var open :| Reachable(before, open) && Active(Outer(open, 0));
    var some: C -> bool :| Leaves(before, some, open);
    truth := AgreeRest(lines, i, some);
    SameReading(before, some, truth);
    StaysSelected(lines, iocccok, i, id, truth);
    OutputMeansInput(lines, truth, iocccok);
  }

  /** When no two lines carry the same condition, a text line is left exactly if some truth assignment that agrees with the
      verdicts selects it from the input. */
  lemma TextLeftExactly<C(!new)>(lines: seq<Line<C>>, iocccok: bool, id: nat)
    requires TypedFile(lines) && OneLineFile(lines) && DistinctConds(lines) && Run(lines, iocccok).Finished?
    ensures Text(id) in Run(lines, iocccok).out <==> exists truth: C -> bool :: Selects(lines, truth, id)
  {
    if Text(id) in Run(lines, iocccok).out {
      var truth := LeftIsSelectable(lines, iocccok, id);
    }
    if truth: C -> bool :| Selects(lines, truth, id) {
      OutputMeansInput(lines, truth, iocccok);
      SelectedIsText(Run(lines, iocccok).out, truth, id);
    }
  }
}
