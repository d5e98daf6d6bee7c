/** The program state of unifdef as it is kept in memory (arrays indexed by depth, the current line, the output),
    the state functions that update it, and the driver loop, proved to compute the runs of UnifdefTable. */
module UnifdefProgram {
  import opened Preprocessor
  import opened UnifdefTable

  /** How a state function ends: go on, or leave the program. */
  datatype Flow = Go | Leave(how: Next) {
    predicate IsFailure() { Leave? }
    function PropagateFailure(): Flow
      requires Leave?
    { this }
  }

  /** The levels held in the first `depth` entries above entry 0. */
  function LevelsOf(states: seq<Ifstate>, ign: seq<bool>, depth: nat): Levels
    requires depth < |states| && depth < |ign|
  {
    if depth == 0 then Base else Level(states[depth], ign[depth], LevelsOf(states, ign, depth - 1))
  }

  lemma LevelsOfFrame(s1: seq<Ifstate>, i1: seq<bool>, s2: seq<Ifstate>, i2: seq<bool>, depth: nat)
    requires depth < |s1| && depth < |i1| && depth < |s2| && depth < |i2|
    requires forall i :: 1 <= i <= depth ==> s1[i] == s2[i] && i1[i] == i2[i]
    ensures LevelsOf(s1, i1, depth) == LevelsOf(s2, i2, depth)
  {
  }

  lemma HeightOfLevels(states: seq<Ifstate>, ign: seq<bool>, depth: nat)
    requires depth < |states| && depth < |ign|
    ensures Height(LevelsOf(states, ign, depth)) == depth
  {
  }

  /** Once a run has stopped, later lines do not matter. */
  lemma {:induction false} StoppedRun<C>(lines: seq<Line<C>>, n: nat, iocccok: bool)
    requires n <= |lines| && !RunLines(lines[..n], iocccok).Running?
    ensures RunLines(lines, iocccok) == RunLines(lines[..n], iocccok)
    decreases |lines| - n
  {
    if n == |lines| {
      assert lines[..n] == lines;
    } else {
      assert lines[..n + 1][..n] == lines[..n];
      StoppedRun(lines, n + 1, iocccok);
    }
  }

  class Program<C> {
    const iocccok: bool
    const ifstate: array<Ifstate>
    const ignoring: array<bool>
    var depth: nat
    var tline: Directive<C>
    var output: seq<Directive<C>>

    ghost predicate Valid()
      reads this, ifstate, ignoring
    {
      && ifstate.Length == MAXDEPTH && ignoring.Length == MAXDEPTH && depth < MAXDEPTH
      && ifstate[0] == Outside && !ignoring[0]
    }

    ghost function View(): Levels
      requires Valid()
      reads this, ifstate, ignoring
    {
      LevelsOf(ifstate[..], ignoring[..], depth)
    }

    constructor (iocccok: bool)
      ensures Valid() && View() == Base && output == [] && this.iocccok == iocccok
      ensures fresh(ifstate) && fresh(ignoring)
    {
      this.iocccok := iocccok;
      ifstate := new Ifstate[MAXDEPTH](_ => Outside);
      ignoring := new bool[MAXDEPTH](_ => false);
      depth, output, tline := 0, [], Endif;
    }

    method FlushLine(keep: bool)
      modifies this`output
      ensures output == old(output) + if keep then [tline] else []
    {
      if keep { output := output + [tline]; }
    }

    method KeywordEdit(replacement: Directive<C>)
      modifies this`output, this`tline
      ensures tline == replacement && output == old(output) + [replacement]
    {
      tline := replacement;
      FlushLine(true);
    }

    method IgnoreOff() returns (f: Flow)
      requires Valid()
      modifies ignoring
      ensures Valid()
      ensures depth == 0 ==> f == Leave(Abort_) && ignoring[..] == old(ignoring[..])
      ensures depth > 0 ==> f == Go && ignoring[..] == old(ignoring[..])[depth := old(ignoring[depth - 1])]
    {
      if depth == 0 { return Leave(Abort_); }
      ignoring[depth] := ignoring[depth - 1];
      return Go;
    }

    method IgnoreOn()
      requires Valid() && depth > 0
      modifies ignoring
      ensures Valid() && ignoring[..] == old(ignoring[..])[depth := true]
    {
      ignoring[depth] := true;
    }

    method Nest() returns (f: Flow)
      requires Valid()
      modifies this`depth
      ensures Valid()
      ensures if old(depth) == MAXDEPTH - 1 then f == Leave(Exit) && depth == old(depth)
              else f == Go && depth == old(depth) + 1
    {
      if depth == MAXDEPTH - 1 { return Leave(Exit); }
      depth := depth + 1;
      return Go;
    }

    method Unnest() returns (f: Flow)
      requires Valid()
      modifies this`depth
      ensures Valid()
      ensures if old(depth) == 0 then f == Leave(Abort_) && depth == old(depth) else f == Go && depth == old(depth) - 1
    {
      if depth == 0 { return Leave(Abort_); }
      depth := depth - 1;
      return Go;
    }

    method State(s: Ifstate)
      requires Valid() && depth > 0
      modifies ifstate
      ensures Valid() && ifstate[..] == old(ifstate[..])[depth := s]
    {
      ifstate[depth] := s;
    }

    /** ignoreoff() and state() on the current level: what the S, P and D functions do after flushing the line. */
    method Move(s: Ifstate) returns (f: Flow)
      requires Valid()
      modifies ifstate, ignoring
      ensures Valid()
      ensures depth == 0 ==> f == Leave(Abort_)
      ensures depth > 0 ==> f == Go && View() == Level(s, Ignoring(old(LevelsOf(ifstate[..], ignoring[..], depth - 1))),
                                                       old(LevelsOf(ifstate[..], ignoring[..], depth - 1)))
    {
      f := IgnoreOff();
      if f.Leave? { return; }
      State(s);
      LevelsOfFrame(ifstate[..], ignoring[..], old(ifstate[..]), old(ignoring[..]), depth - 1);
    }
  
    /** state() on the current level. */
    method Keep(s: Ifstate)
      requires Valid() && depth > 0
      modifies ifstate
      ensures Valid() && View() == Level(s, ignoring[depth], old(LevelsOf(ifstate[..], ignoring[..], depth - 1)))
    {
      State(s);
      LevelsOfFrame(ifstate[..], ignoring[..], old(ifstate[..]), ignoring[..], depth - 1);
    }

    /** nest(), and the new level's state; `ign` is the ignoreon() of the I functions. */
    method Enter(s: Ifstate, ign: bool) returns (f: Flow)
      requires Valid()
      modifies this`depth, ifstate, ignoring
      ensures Valid() && (f == Go || f == Leave(Exit))
      ensures f == Go <==> old(depth) < MAXDEPTH - 1
      ensures f == Go ==> View() == Level(s, ign || Ignoring(old(View())), old(View()))
    {
      ghost var s0, i0 := ifstate[..], ignoring[..];
      :- Nest();
      var _ := IgnoreOff();
      State(s);
      if ign { IgnoreOn(); }
      LevelsOfFrame(ifstate[..], ignoring[..], s0, i0, depth - 1);
      return Go;
    }

    /** Table entries that call state() without nesting first; they need an open level. */
    static predicate NeedsLevel(a: Action) {
      a.Selse? || a.Pelse? || a.Delse? || a.Mtrue? || a.Melif? || a.Melse?
    }

    static predicate Nests(a: Action) {
      a.Fdrop? || a.Fpass? || a.Ftrue? || a.Ffalse? || a.Oiffy? || a.Oif? || a.Idrop? || a.Itrue? || a.Ifalse?
    }

    /** Table entries that set the state of the current level and the ignore flag that goes with it. */
    static predicate Moves(a: Action) {
      a.Strue? || a.Sfalse? || a.Pelif? || a.Dfalse? || a.Delif? || a.Mpass?
    }

    method PerformMove(a: Action) returns (f: Flow)
      requires Valid() && Moves(a)
      modifies this`output, this`tline, ifstate, ignoring
      ensures Valid() && Follows(f, a, old(View()), View())
      ensures f == Go ==> output == Append(old(output), Writes(a, old(tline)))
    {
      if a.Pelif? || a.Mpass? {
        f := MovePrinted(a);
      } else {
        f := MoveDropped(a);
      }
    }

    method MoveDropped(a: Action) returns (f: Flow)
      requires Valid() && (a.Strue? || a.Sfalse? || a.Dfalse? || a.Delif?)
      modifies this`output, ifstate, ignoring
      ensures Valid() && Follows(f, a, old(View()), View())
      ensures f == Go ==> output == Append(old(output), Writes(a, old(tline)))
    {
      FlushLine(false);
      match a {
        case Strue => f := Move(TruePrefix);
        case Sfalse => f := Move(FalsePrefix);
        case Dfalse => f := Move(FalseTrailer);
        case Delif => f := Move(FalseMiddle);
      }
    }

    method MovePrinted(a: Action) returns (f: Flow)
      requires Valid() && (a.Pelif? || a.Mpass?)
      modifies this`output, this`tline, ifstate, ignoring
      ensures Valid() && Follows(f, a, old(View()), View())
      ensures f == Go ==> output == Append(old(output), Writes(a, old(tline)))
    {
      if a.Mpass? {
        tline := AsIf(tline);
      }
      FlushLine(true);
      f := Move(PassMiddle);
    }

    method PerformKeep(a: Action)
      requires Valid() && depth > 0 && NeedsLevel(a)
      modifies this`output, this`tline, ifstate
      ensures Valid() && Goes(a, old(View()), iocccok) == To(View())
      ensures output == Append(old(output), Writes(a, old(tline)))
    {
      if a.Selse? || a.Pelse? || a.Delse? {
        KeepElse(a);
      } else {
        KeepEdited(a);
      }
    }

    method KeepElse(a: Action)
      requires Valid() && depth > 0 && (a.Selse? || a.Pelse? || a.Delse?)
      modifies this`output, ifstate
      ensures Valid() && Goes(a, old(View()), iocccok) == To(View())
      ensures output == Append(old(output), Writes(a, old(tline)))
    {
      match a {
        case Selse => FlushLine(false); Keep(TrueElse);
        case Pelse => FlushLine(true); Keep(PassElse);
        case Delse => FlushLine(false); Keep(FalseElse);
      }
    }

    method KeepEdited(a: Action)
      requires Valid() && depth > 0 && (a.Mtrue? || a.Melif? || a.Melse?)
      modifies this`output, this`tline, ifstate
      ensures Valid() && Goes(a, old(View()), iocccok) == To(View())
      ensures output == Append(old(output), Writes(a, old(tline)))
    {
      match a {
        case Mtrue => KeywordEdit(Else); Keep(TrueMiddle);
        case Melif => KeywordEdit(Endif); Keep(FalseTrailer);
        case Melse => KeywordEdit(Endif); Keep(FalseElse);
      }
    }

    /** The outcome and the new levels are those of the table. */
    ghost predicate Follows(f: Flow, a: Action, before: Levels, after: Levels) {
      match f
      case Go => Goes(a, before, iocccok) == To(after)
      case Leave(how) => Goes(a, before, iocccok) == how && !how.To?
    }

    /** The F, I and O functions: the first line of a group. */
    method PerformNesting(a: Action) returns (f: Flow)
      requires Valid()
      requires Nests(a)
      modifies this`depth, this`output, ifstate, ignoring
      ensures Valid() && Follows(f, a, old(View()), View())
      ensures f == Go ==> output == Append(old(output), Writes(a, old(tline)))
    {
      if a.Fpass? || a.Oiffy? || a.Oif? {
        f := NestPrinted(a);
      } else if a.Fdrop? || a.Ftrue? || a.Ffalse? {
        f := NestDropped(a);
      } else {
        f := NestIgnored(a);
      }
    }

    method NestPrinted(a: Action) returns (f: Flow)
      requires Valid() && (a.Fpass? || a.Oiffy? || a.Oif?)
      modifies this`depth, this`output, ifstate, ignoring
      ensures Valid() && Follows(f, a, old(View()), View())
      ensures f == Go ==> output == Append(old(output), Writes(a, old(tline)))
    {
      HeightOfLevels(ifstate[..], ignoring[..], depth);
      if !a.Fpass? && !iocccok {
        return Leave(Exit);
      }
      :- Enter(PassMiddle, a.Oiffy?);
      FlushLine(true);
      return Go;
    }

    method NestDropped(a: Action) returns (f: Flow)
      requires Valid() && (a.Fdrop? || a.Ftrue? || a.Ffalse?)
      modifies this`depth, ifstate, ignoring
      ensures Valid() && Follows(f, a, old(View()), View())
      ensures f == Go ==> output == Append(old(output), Writes(a, old(tline)))
    {
      HeightOfLevels(ifstate[..], ignoring[..], depth);
      match a {
        case Fdrop => :- Enter(FalseTrailer, false);
        case Ftrue => :- Enter(TruePrefix, false);
        case Ffalse => :- Enter(FalsePrefix, false);
      }
      return Go;
    }

    method NestIgnored(a: Action) returns (f: Flow)
      requires Valid() && (a.Idrop? || a.Itrue? || a.Ifalse?)
      modifies this`depth, ifstate, ignoring
      ensures Valid() && Follows(f, a, old(View()), View())
      ensures f == Go ==> output == Append(old(output), Writes(a, old(tline)))
    {
      HeightOfLevels(ifstate[..], ignoring[..], depth);
      match a {
        case Idrop => :- Enter(FalseTrailer, true);
        case Itrue => :- Enter(TruePrefix, true);
        case Ifalse => :- Enter(FalsePrefix, true);
      }
      return Go;
    }

    /** trans_table[ifstate[depth]][lineval]() */
    method Dispatch(lt: Linetype) returns (f: Flow)
      requires Valid()
      modifies this`depth, this`output, this`tline, ifstate, ignoring
      ensures Valid() && Follows(f, Transition(Top(old(View())), lt), old(View()), View())
      ensures f == Go ==> output == Append(old(output), Writes(Transition(Top(old(View())), lt), old(tline)))
      ensures f.Leave? && f.how.Finish? ==> output == old(output)
    {
      var a := Transition(ifstate[depth], lt);
      if a.Eelif? || a.Eelse? || a.Eendif? || a.Eeof? || a.Eioccc? {
        return Leave(Exit);
      } else if a.Done? {
        return Leave(Finish);
      } else if a.Abort? {
        return Leave(Abort_);
      } else if a.Oelif? {
        if !iocccok { return Leave(Exit); }
        f := PerformMove(Pelif);
      } else if Nests(a) {
        f := PerformNesting(a);
      } else if Moves(a) {
        f := PerformMove(a);
      } else if NeedsLevel(a) {
        PerformKeep(a);
        return Go;
      } else {
        FlushLine(a.Print? || a.Pendif?);
        if a.Pendif? || a.Dendif? {
          var _ := Unnest();
        }
        return Go;
      }
    }

    /** What the program shows of an outcome: the flow, the levels and the output. */
    ghost predicate Shows(o: Outcome<C>, f: Flow)
      reads this, ifstate, ignoring
      requires Valid()
    {
      match o
      case Running(m) => f == Go && m == Machine(View(), output)
      case Finished(out) => f == Leave(Finish) && output == out
      case Exited => f == Leave(Exit)
      case Aborted => f == Leave(Abort_)
    }

    /** One line of the table, as the machine takes it. */
    method OneLine(lt: Linetype, dir: Directive<C>) returns (f: Flow)
      requires Valid()
      modifies this`depth, this`output, this`tline, ifstate, ignoring
      ensures Valid() && Shows(Effect(Transition(Top(old(View())), lt), Machine(old(View()), old(output)), dir, iocccok), f)
    {
      tline := dir;
      f := Dispatch(lt);
    }

    /** process(): one table entry per line, then the end-of-file line. */
    method Process(lines: seq<Line<C>>) returns (how: Next)
      requires Valid() && View() == Base && output == []
      modifies this`depth, this`output, this`tline, ifstate, ignoring
      ensures match Run(lines, iocccok)
              case Running(_) => false
              case Finished(out) => how == Finish && output == out
              case Exited => how == Exit
              case Aborted => how == Abort_
    {
      for i := 0 to |lines|
        invariant Valid() && RunLines(lines[..i], iocccok) == Running(Machine(View(), output))
      {
        var f := OneLine(lines[i].lt, lines[i].dir);
        assert lines[..i + 1][..i] == lines[..i];
        if f.Leave? {
          StoppedRun(lines, i + 1, iocccok);
          return f.how;
        }
      }
      assert lines[..|lines|] == lines;
      var f := OneLine(Eof, Endif);
      return f.how;
    }
  }
}
