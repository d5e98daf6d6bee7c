/** The state machine of unifdef: the transition table, the state functions and the driver loop. A run reads
    typed lines and writes the directives and text lines that a preprocessor would see in its output. */
module UnifdefTable {
  import opened Preprocessor

  const MAXDEPTH := 64

  datatype Kind = IfTrueI | IfFalseI | IfUnknown | IfTrue | IfFalse
                | ElifUnknown | ElifTrue | ElifFalse | ElseLine | EndifLine

  datatype Linetype = Control(kind: Kind, dodgy: bool) | Plain | Eof | Unevaluable

  datatype Ifstate = Outside | FalsePrefix | TruePrefix | PassMiddle | FalseMiddle | TrueMiddle
                   | PassElse | FalseElse | TrueElse | FalseTrailer

  /** The state functions named in the table. */
  datatype Action = Eelif | Eelse | Eendif | Eeof | Eioccc | Print | Drop | Done | Abort
                  | Strue | Sfalse | Selse | Pelif | Pelse | Pendif
                  | Dfalse | Delif | Delse | Dendif | Fdrop | Fpass | Ftrue | Ffalse
                  | Oiffy | Oif | Oelif | Idrop | Itrue | Ifalse | Mpass | Mtrue | Melif | Melse

  predicate StartsGroup(k: Kind) {
    k.IfTrueI? || k.IfFalseI? || k.IfUnknown? || k.IfTrue? || k.IfFalse?
  }

  /** The states in which plain lines are printed. */
  predicate Prints(s: Ifstate) {
    !(s.FalsePrefix? || s.FalseMiddle? || s.FalseElse? || s.FalseTrailer?)
  }

  predicate AfterElse(s: Ifstate) {
    s.PassElse? || s.FalseElse? || s.TrueElse?
  }

  /** The columns of the table for the first line of a group. */
  function Open(s: Ifstate, k: Kind, dodgy: bool): Action
    requires StartsGroup(k)
  {
    match k
    case IfTrueI => if !Prints(s) then Idrop else if dodgy then Oiffy else Itrue
    case IfFalseI => if !Prints(s) then Idrop else if dodgy then Oiffy else Ifalse
    case IfUnknown => if !Prints(s) then Fdrop else Fpass
    case IfTrue => if !Prints(s) then Fdrop else if dodgy then Oif else Ftrue
    case IfFalse => if !Prints(s) then Fdrop else if dodgy then Oif else Ffalse
  }

  /** The columns for #elif, #else and #endif lines that are on one line. */
  function Continue(s: Ifstate, k: Kind): Action
    requires !StartsGroup(k)
  {
    match s
    case Outside => (match k case ElseLine => Eelse case EndifLine => Eendif case _ => Eelif)
    case FalsePrefix =>
      (match k case ElifUnknown => Mpass case ElifTrue => Strue case ElifFalse => Sfalse
       case ElseLine => Selse case EndifLine => Dendif)
    case TruePrefix => (match k case ElseLine => Delse case EndifLine => Dendif case _ => Dfalse)
    case PassMiddle =>
      (match k case ElifUnknown => Pelif case ElifTrue => Mtrue case ElifFalse => Delif
       case ElseLine => Pelse case EndifLine => Pendif)
    case FalseMiddle =>
      (match k case ElifUnknown => Pelif case ElifTrue => Mtrue case ElifFalse => Delif
       case ElseLine => Pelse case EndifLine => Pendif)
    case TrueMiddle => (match k case ElseLine => Melse case EndifLine => Pendif case _ => Melif)
    case PassElse => (match k case ElseLine => Eelse case EndifLine => Pendif case _ => Eelif)
    case FalseElse => (match k case ElseLine => Eelse case EndifLine => Dendif case _ => Eelif)
    case TrueElse => (match k case ElseLine => Eelse case EndifLine => Dendif case _ => Eelif)
    case FalseTrailer => (match k case ElseLine => Delse case EndifLine => Dendif case _ => Dfalse)
  }

  /** The same columns for directives that are spread over several lines. */
  function ContinueDodgy(s: Ifstate, k: Kind): Action
    requires !StartsGroup(k)
  {
    match s
    case Outside => Continue(s, k)
    case FalsePrefix => if k.ElifUnknown? then Mpass else Eioccc
    case TruePrefix => Eioccc
    case PassMiddle => if k.ElifTrue? || k.ElifFalse? then Oelif else Continue(s, k)
    case FalseMiddle => Eioccc
    case TrueMiddle => if k.EndifLine? then Pendif else Eioccc
    case PassElse => Continue(s, k)
    case FalseElse => if k.EndifLine? then Eioccc else Continue(s, k)
    case TrueElse => if k.EndifLine? then Eioccc else Continue(s, k)
    case FalseTrailer => if k.EndifLine? then Eioccc else Continue(s, k)
  }

  /** trans_table */
  function Transition(s: Ifstate, lt: Linetype): Action {
    match lt
    case Plain => if Prints(s) then Print else Drop
    case Eof => if s.Outside? then Done else Eeof
    case Unevaluable => Abort
    case Control(k, dodgy) =>
      if StartsGroup(k) then Open(s, k, dodgy) else if dodgy then ContinueDodgy(s, k) else Continue(s, k)
  }

  // ----- Effect of the state functions on a stack of states and the output

  /** The stack of ifstate[] and ignoring[] entries; level 0 is Outside. */
  datatype Levels = Base | Level(state: Ifstate, ignoring: bool, below: Levels)

  datatype Machine<C> = Machine(levels: Levels, out: seq<Directive<C>>)

  datatype Outcome<C> = Running(m: Machine<C>) | Finished(out: seq<Directive<C>>) | Exited | Aborted

  function Top(l: Levels): Ifstate {
    if l.Base? then Outside else l.state
  }

  predicate Ignoring(l: Levels) {
    l.Level? && l.ignoring
  }

  function Height(l: Levels): nat {
    if l.Base? then 0 else 1 + Height(l.below)
  }

  /** Where a state function leaves the stack, or how it ends the program. */
  datatype Next = To(levels: Levels) | Finish | Exit | Abort_

  /** nest(), then the state of the new level; `ign` is an ignoreon() after the ignoreoff(). */
  function Nested(l: Levels, s: Ifstate, ign: bool): Next {
    if Height(l) == MAXDEPTH - 1 then Exit else To(Level(s, ign || Ignoring(l), l))
  }

  /** ignoreoff() and state(), both on the current level. */
  function Moved(l: Levels, s: Ifstate): Next {
    if l.Base? then Abort_ else To(Level(s, Ignoring(l.below), l.below))
  }

  /** state() alone. At depth 0 the source would overwrite ifstate[0]; no table entry does that. */
  function Kept(l: Levels, s: Ifstate): Next {
    if l.Base? then Abort_ else To(l.(state := s))
  }

  function Closed(l: Levels): Next {
    if l.Base? then Abort_ else To(l.below)
  }

  function Goes(a: Action, l: Levels, iocccok: bool): Next {
    match a
    case Eelif => Exit
    case Eelse => Exit
    case Eendif => Exit
    case Eeof => Exit
    case Eioccc => Exit
    case Print => To(l)
    case Drop => To(l)
    case Done => Finish
    case Abort => Abort_
    case Strue => Moved(l, TruePrefix)
    case Sfalse => Moved(l, FalsePrefix)
    case Selse => Kept(l, TrueElse)
    case Pelif => Moved(l, PassMiddle)
    case Pelse => Kept(l, PassElse)
    case Pendif => Closed(l)
    case Dfalse => Moved(l, FalseTrailer)
    case Delif => Moved(l, FalseMiddle)
    case Delse => Kept(l, FalseElse)
    case Dendif => Closed(l)
    case Fdrop => Nested(l, FalseTrailer, false)
    case Fpass => Nested(l, PassMiddle, false)
    case Ftrue => Nested(l, TruePrefix, false)
    case Ffalse => Nested(l, FalsePrefix, false)
    case Oiffy => if !iocccok then Exit else Nested(l, PassMiddle, true)
    case Oif => if !iocccok then Exit else Nested(l, PassMiddle, false)
    case Oelif => if !iocccok then Exit else Moved(l, PassMiddle)
    case Idrop => Nested(l, FalseTrailer, true)
    case Itrue => Nested(l, TruePrefix, true)
    case Ifalse => Nested(l, FalsePrefix, true)
    case Mpass => Moved(l, PassMiddle)
    case Mtrue => Kept(l, TrueMiddle)
    case Melif => Kept(l, FalseTrailer)
    case Melse => Kept(l, FalseElse)
  }

  /** What a state function writes: nothing, the line itself, or the edited line. */
  datatype Written<C> = Silent | Wrote(dir: Directive<C>)

  function AsIf<C>(d: Directive<C>): Directive<C> {
    if d.Elif? then If(d.cond) else d
  }

  function Writes<C>(a: Action, d: Directive<C>): Written<C> {
    match a
    case Mpass => Wrote(AsIf(d))
    case Mtrue => Wrote(Else)
    case Melif => Wrote(Endif)
    case Melse => Wrote(Endif)
    case Print => Wrote(d)
    case Pelif => Wrote(d)
    case Pelse => Wrote(d)
    case Pendif => Wrote(d)
    case Fpass => Wrote(d)
    case Oiffy => Wrote(d)
    case Oif => Wrote(d)
    case Oelif => Wrote(d)
    case _ => Silent
  }

  function Append<C>(out: seq<Directive<C>>, w: Written<C>): seq<Directive<C>> {
    if w.Silent? then out else out + [w.dir]
  }

  function Effect<C>(a: Action, m: Machine<C>, d: Directive<C>, iocccok: bool): Outcome<C> {
    match Goes(a, m.levels, iocccok)
    case To(l) => Running(Machine(l, Append(m.out, Writes(a, d))))
    case Finish => Finished(m.out)
    case Exit => Exited
    case Abort_ => Aborted
  }

  // ----- Runs

  /** A typed line together with what a preprocessor reads there. */
  datatype Line<C> = Line(lt: Linetype, dir: Directive<C>)

  predicate Typed<C>(line: Line<C>) {
    match line.lt
    case Plain => line.dir.Text?
    case Control(k, _) =>
      if StartsGroup(k) then line.dir.If?
      else (match k case ElseLine => line.dir.Else? case EndifLine => line.dir.Endif? case _ => line.dir.Elif?)
    case Eof => false
    case Unevaluable => false
  }

  predicate TypedFile<C>(lines: seq<Line<C>>) {
    forall i :: 0 <= i < |lines| ==> Typed(lines[i])
  }

  function Step<C>(o: Outcome<C>, line: Line<C>, iocccok: bool): Outcome<C> {
    if o.Running? then Effect(Transition(Top(o.m.levels), line.lt), o.m, line.dir, iocccok) else o
  }

  const START_OF_RUN := Base

  function RunLines<C>(lines: seq<Line<C>>, iocccok: bool): Outcome<C> {
    if lines == [] then Running(Machine(START_OF_RUN, []))
    else Step(RunLines(lines[..|lines| - 1], iocccok), lines[|lines| - 1], iocccok)
  }

  /** The whole run, with the end-of-file line that parseline() reports last. */
  function Run<C>(lines: seq<Line<C>>, iocccok: bool): Outcome<C> {
    var o := RunLines(lines, iocccok);
    if o.Running? then Effect(Transition(Top(o.m.levels), Eof), o.m, Endif, iocccok) else o
  }

  function Input<C>(lines: seq<Line<C>>): seq<Directive<C>> {
    seq(|lines|, i requires 0 <= i < |lines| => lines[i].dir)
  }
}
