/** unifdef preserves preprocessor meaning: a step-by-step simulation between reading the input and reading
    the output, carried over whole runs. */
module UnifdefMeaning {
  import opened Preprocessor
  import opened UnifdefTable

  /** `truth` agrees with the verdicts unifdef reached on known conditions. */
  predicate Agrees<C>(line: Line<C>, truth: C -> bool) {
    line.lt.Control? && (line.dir.If? || line.dir.Elif?) ==>
      match line.lt.kind
      case IfTrueI => truth(line.dir.cond)
      case IfTrue => truth(line.dir.cond)
      case ElifTrue => truth(line.dir.cond)
      case IfFalseI => !truth(line.dir.cond)
      case IfFalse => !truth(line.dir.cond)
      case ElifFalse => !truth(line.dir.cond)
      case _ => true
  }

  predicate FileAgrees<C>(lines: seq<Line<C>>, truth: C -> bool) {
    forall i :: 0 <= i < |lines| ==> Agrees(lines[i], truth)
  }

  /** Whether the output has an open group for a level in this state. */
  predicate HasOutputGroup(s: Ifstate) {
    s.PassMiddle? || s.FalseMiddle? || s.TrueMiddle? || s.PassElse?
  }

  /** What a state says about the input's open group `f` (whose surroundings are active iff `p`)
      and the output's open group `g`. */
  predicate GroupMatches(s: Ifstate, f: Frame, p: bool, g: Frame) {
    match s
    case Outside => false
    case FalsePrefix => f == Frame(false, false, false)
    case TruePrefix => f == Frame(true, p, false)
    case PassMiddle => f == g && !f.seenElse
    case FalseMiddle => !f.active && f.taken == g.taken && !f.seenElse && !g.seenElse
    case TrueMiddle => f == Frame(true, g.active, false) && g.seenElse
    case PassElse => f == g && f.seenElse
    case FalseElse => !f.active && f.seenElse
    case TrueElse => f.active == p && f.seenElse
    case FalseTrailer => !f.active && !f.seenElse && (p ==> f.taken)
  }

  /** The simulation relation between unifdef's levels and the groups open in its input and its output. */
  predicate Simulates(l: Levels, inn: Frames, out: Frames) {
    if l.Base? then inn.Outermost? && out.Outermost? else
    && inn.Within?
    && (HasOutputGroup(l.state) ==> out.Within?)
    && var outBelow := if HasOutputGroup(l.state) then out.below else out;
    && Simulates(l.below, inn.below, outBelow)
    && GroupMatches(l.state, inn.top, Active(inn.below), if HasOutputGroup(l.state) then out.top else inn.top)
    && (if Prints(Top(l.below)) then true else l.state.FalseTrailer? || l.state.FalseElse?)
    && (HasOutputGroup(l.state) ==> (out.top.active ==> Active(out.below)))
  }

  /** Where unifdef prints, input and output are active together; where it drops, the input is inactive. */
  lemma PrintingIsSound(l: Levels, inn: Frames, out: Frames)
    requires Simulates(l, inn, out)
    ensures Prints(Top(l)) ==> Active(inn) == Active(out)
    ensures !Prints(Top(l)) ==> !Active(inn)
  {
    if l.Level? {
      PrintingIsSound(l.below, inn.below, if HasOutputGroup(l.state) then out.below else out);
    }
  }

  function Next(l: Levels, lt: Linetype, iocccok: bool): Next {
    Goes(Transition(Top(l), lt), l, iocccok)
  }

  /** The lemmas below follow one line each; `t` is the truth of the line's condition. */

  predicate VerdictAgrees(k: Kind, t: bool) {
    match k
    case IfTrueI => t
    case IfTrue => t
    case ElifTrue => t
    case IfFalseI => !t
    case IfFalse => !t
    case ElifFalse => !t
    case _ => true
  }

  /** Which actions the table gives for a group start, an #elif and an #else, in which states. */
  predicate FitsIf(a: Action, s: Ifstate, t: bool) {
    match a
    case Fdrop => !Prints(s)
    case Idrop => !Prints(s)
    case Ftrue => Prints(s) && t
    case Itrue => Prints(s) && t
    case Ffalse => Prints(s) && !t
    case Ifalse => Prints(s) && !t
    case Fpass => Prints(s)
    case Oif => Prints(s)
    case Oiffy => Prints(s)
    case _ => false
  }

  predicate FitsElif(a: Action, s: Ifstate, t: bool) {
    match a
    case Mpass => s.FalsePrefix?
    case Strue => s.FalsePrefix? && t
    case Sfalse => s.FalsePrefix? && !t
    case Dfalse => s.TruePrefix? || s.FalseTrailer?
    case Pelif => s.PassMiddle? || s.FalseMiddle?
    case Oelif => s.PassMiddle?
    case Mtrue => (s.PassMiddle? || s.FalseMiddle?) && t
    case Delif => (s.PassMiddle? || s.FalseMiddle?) && !t
    case Melif => s.TrueMiddle?
    case Eelif => s.Outside? || AfterElse(s)
    case _ => a.Eioccc?
  }

  predicate FitsElse(a: Action, s: Ifstate) {
    match a
    case Selse => s.FalsePrefix?
    case Delse => s.TruePrefix? || s.FalseTrailer?
    case Pelse => s.PassMiddle? || s.FalseMiddle?
    case Melse => s.TrueMiddle?
    case Eelse => s.Outside? || AfterElse(s)
    case _ => a.Eioccc?
  }

  predicate FitsEndif(a: Action, s: Ifstate) {
    match a
    case Pendif => HasOutputGroup(s)
    case Dendif => !HasOutputGroup(s) && !s.Outside?
    case Eendif => s.Outside?
    case _ => a.Eioccc?
  }

  lemma TableFits(s: Ifstate, k: Kind, dodgy: bool, t: bool)
    requires VerdictAgrees(k, t)
    ensures var a := Transition(s, Control(k, dodgy));
            match k
            case ElseLine => FitsElse(a, s)
            case EndifLine => FitsEndif(a, s)
            case ElifUnknown => FitsElif(a, s, t)
            case ElifTrue => FitsElif(a, s, t)
            case ElifFalse => FitsElif(a, s, t)
            case _ => FitsIf(a, s, t)
  {
  }

  /** A dropped #elif. */
  lemma DroppedElif(l: Levels, s: Ifstate, t: bool, inn: Frames, out: Frames)
    requires l.Level? && Simulates(l, inn, out)
    requires || (l.state.FalsePrefix? && s == (if t then TruePrefix else FalsePrefix))
             || ((l.state.TruePrefix? || l.state.FalseTrailer?) && s.FalseTrailer?)
             || ((l.state.PassMiddle? || l.state.FalseMiddle?) && s.FalseMiddle? && !t)
    ensures MayContinue(inn) && Simulates(Level(s, Ignoring(l.below), l.below), OnElif(inn, t), out)
  {
    PrintingIsSound(l.below, inn.below, if HasOutputGroup(l.state) then out.below else out);
  }

  /** A kept #elif, possibly turned into #if because everything before it was deleted. */
  lemma KeptElif(l: Levels, t: bool, inn: Frames, out: Frames)
    requires l.Level? && Simulates(l, inn, out)
    requires l.state.FalsePrefix? || l.state.PassMiddle? || l.state.FalseMiddle?
    ensures MayContinue(inn) && (!l.state.FalsePrefix? ==> MayContinue(out))
    ensures Simulates(Level(PassMiddle, Ignoring(l.below), l.below), OnElif(inn, t),
                      if l.state.FalsePrefix? then OnIf(out, t) else OnElif(out, t))
  {
    PrintingIsSound(l.below, inn.below, if HasOutputGroup(l.state) then out.below else out);
  }

  /** A true #elif becomes #else; the directive after its branch becomes #endif. */
  lemma TrueElif(l: Levels, inn: Frames, out: Frames)
    requires l.Level? && Simulates(l, inn, out) && (l.state.PassMiddle? || l.state.FalseMiddle?)
    ensures MayContinue(inn) && MayContinue(out) && Simulates(l.(state := TrueMiddle), OnElif(inn, true), OnElse(out))
  {
    PrintingIsSound(l.below, inn.below, if HasOutputGroup(l.state) then out.below else out);
  }

  lemma AfterTrueElif(l: Levels, t: bool, inn: Frames, out: Frames)
    requires l.Level? && Simulates(l, inn, out) && l.state.TrueMiddle?
    ensures MayContinue(inn) && out.Within?
    ensures Simulates(l.(state := FalseTrailer), OnElif(inn, t), out.below)
    ensures Simulates(l.(state := FalseElse), OnElse(inn), out.below)
  {
  }

  lemma DroppedElse(l: Levels, inn: Frames, out: Frames)
    requires l.Level? && Simulates(l, inn, out) && (l.state.FalsePrefix? || l.state.TruePrefix? || l.state.FalseTrailer?)
    ensures MayContinue(inn)
    ensures Simulates(l.(state := if l.state.FalsePrefix? then TrueElse else FalseElse), OnElse(inn), out)
  {
    PrintingIsSound(l.below, inn.below, out);
  }

  lemma KeptElse(l: Levels, inn: Frames, out: Frames)
    requires l.Level? && Simulates(l, inn, out) && (l.state.PassMiddle? || l.state.FalseMiddle?)
    ensures MayContinue(inn) && MayContinue(out) && Simulates(l.(state := PassElse), OnElse(inn), OnElse(out))
  {
    PrintingIsSound(l.below, inn.below, if HasOutputGroup(l.state) then out.below else out);
  }

  /** What the preprocessor's open groups become when it reads a directive; `t` is its condition's truth. */
  function OnDirective<C>(open: Frames, d: Directive<C>, t: bool): Frames
    requires (d.Elif? || d.Else? ==> MayContinue(open)) && (d.Endif? ==> open.Within?)
  {
    match d
    case Text(_) => open
    case If(_) => OnIf(open, t)
    case Elif(_) => OnElif(open, t)
    case Else => OnElse(open)
    case Endif => open.below
  }

  predicate Readable<C>(open: Frames, d: Directive<C>) {
    (d.Elif? || d.Else? ==> MayContinue(open)) && (d.Endif? ==> open.Within?)
  }

  /** The step on each kind of line: unifdef's move, the input's reading and the output's reading stay related. */
  predicate Moves<C>(a: Action, l: Levels, d: Directive<C>, t: bool, iocccok: bool, inn: Frames, out: Frames) {
    && Goes(a, l, iocccok).To?
    && Readable(inn, d)
    && var w := Writes(a, d);
    && (w.Wrote? ==> Readable(out, w.dir))
    && Simulates(Goes(a, l, iocccok).levels, OnDirective(inn, d, t),
                 if w.Wrote? then OnDirective(out, w.dir, t) else out)
  }

  lemma IfStep<C>(a: Action, l: Levels, d: Directive<C>, t: bool, iocccok: bool, inn: Frames, out: Frames)
    requires Simulates(l, inn, out) && FitsIf(a, Top(l), t) && d.If? && Goes(a, l, iocccok).To?
    ensures Moves(a, l, d, t, iocccok, inn, out)
  {
    PrintingIsSound(l, inn, out);
  }

  lemma SilentElifStep<C>(a: Action, l: Levels, d: Directive<C>, t: bool, iocccok: bool, inn: Frames, out: Frames)
    requires Simulates(l, inn, out) && FitsElif(a, Top(l), t) && d.Elif?
    requires a.Strue? || a.Sfalse? || a.Dfalse? || a.Delif?
    ensures Moves(a, l, d, t, iocccok, inn, out)
  {
    DroppedElif(l, if a.Strue? then TruePrefix else if a.Sfalse? then FalsePrefix
                   else if a.Dfalse? then FalseTrailer else FalseMiddle, t, inn, out);
  }

  lemma ElifStep<C>(a: Action, l: Levels, d: Directive<C>, t: bool, iocccok: bool, inn: Frames, out: Frames)
    requires Simulates(l, inn, out) && FitsElif(a, Top(l), t) && d.Elif? && Goes(a, l, iocccok).To?
    ensures Moves(a, l, d, t, iocccok, inn, out)
  {
    if a.Mpass? || a.Pelif? || a.Oelif? {
      KeptElif(l, t, inn, out);
    } else if a.Mtrue? {
      TrueElif(l, inn, out);
    } else if a.Melif? {
      AfterTrueElif(l, t, inn, out);
    } else {
      SilentElifStep(a, l, d, t, iocccok, inn, out);
    }
  }

  lemma ElseStep<C>(a: Action, l: Levels, d: Directive<C>, t: bool, iocccok: bool, inn: Frames, out: Frames)
    requires Simulates(l, inn, out) && FitsElse(a, Top(l)) && d.Else? && Goes(a, l, iocccok).To?
    ensures Moves(a, l, d, t, iocccok, inn, out)
  {
    match a
    case Selse => DroppedElse(l, inn, out);
    case Delse => DroppedElse(l, inn, out);
    case Pelse => KeptElse(l, inn, out);
    case Melse => AfterTrueElif(l, t, inn, out);
    case _ =>
  }

  lemma EndifStep<C>(a: Action, l: Levels, d: Directive<C>, t: bool, iocccok: bool, inn: Frames, out: Frames)
    requires Simulates(l, inn, out) && FitsEndif(a, Top(l)) && d.Endif? && Goes(a, l, iocccok).To?
    ensures Moves(a, l, d, t, iocccok, inn, out)
  {
  }

  function Truth<C>(d: Directive<C>, truth: C -> bool): bool {
    (d.If? || d.Elif?) && truth(d.cond)
  }

  lemma DirectiveStep<C>(l: Levels, line: Line<C>, truth: C -> bool, iocccok: bool, inn: Frames, out: Frames)
    requires Typed(line) && Agrees(line, truth) && line.lt.Control? && Simulates(l, inn, out)
    requires Next(l, line.lt, iocccok).To?
    ensures Moves(Transition(Top(l), line.lt), l, line.dir, Truth(line.dir, truth), iocccok, inn, out)
  {
    var a, d, t := Transition(Top(l), line.lt), line.dir, Truth(line.dir, truth);
    TableFits(Top(l), line.lt.kind, line.lt.dodgy, t);
    match d
    case If(_) => IfStep(a, l, d, t, iocccok, inn, out);
    case Elif(_) => ElifStep(a, l, d, t, iocccok, inn, out);
    case Else => ElseStep(a, l, d, t, iocccok, inn, out);
    case Endif => EndifStep(a, l, d, t, iocccok, inn, out);
    case Text(_) =>
  }

  lemma ReadIsOnDirective<C>(r: Reading, d: Directive<C>, truth: C -> bool)
    requires r.Reading? && !d.Text? && Readable(r.open, d)
    ensures Read(r, d, truth) == r.(open := OnDirective(r.open, d, Truth(d, truth)))
  {
  }

  /** A running machine in step with the reading of its input and of its output. */
  predicate InStep<C>(m: Machine<C>, r: Reading, truth: C -> bool) {
    var w := ReadAll(START, m.out, truth);
    r.Reading? && w.Reading? && r.selected == w.selected && Simulates(m.levels, r.open, w.open)
  }

  lemma StepKeeps<C>(m: Machine<C>, line: Line<C>, truth: C -> bool, iocccok: bool, r: Reading)
    requires Typed(line) && Agrees(line, truth) && InStep(m, r, truth)
    requires Step(Running(m), line, iocccok).Running?
    ensures InStep(Step(Running(m), line, iocccok).m, Read(r, line.dir, truth), truth)
  {
    var w := ReadAll(START, m.out, truth);
    var a := Transition(Top(m.levels), line.lt);
    var x := Writes(a, line.dir);
    if x.Wrote? {
      ReadAllAppend(START, m.out, x.dir, truth);
    }
    if line.lt.Plain? {
      PrintingIsSound(m.levels, r.open, w.open);
    } else {
      DirectiveStep(m.levels, line, truth, iocccok, r.open, w.open);
      ReadIsOnDirective(r, line.dir, truth);
      if x.Wrote? {
        ReadIsOnDirective(w, x.dir, truth);
      }
    }
  }

  /** Every prefix of a run that is still going is in step. */
  lemma {:induction false} RunKeeps<C>(lines: seq<Line<C>>, truth: C -> bool, iocccok: bool)
    requires TypedFile(lines) && FileAgrees(lines, truth) && RunLines(lines, iocccok).Running?
    ensures InStep(RunLines(lines, iocccok).m, ReadAll(START, Input(lines), truth), truth)
    decreases |lines|
  {
    if lines != [] {
      var n := |lines| - 1;
      RunKeeps(lines[..n], truth, iocccok);
      assert Input(lines)[..n] == Input(lines[..n]);
      StepKeeps(RunLines(lines[..n], iocccok).m, lines[n], truth, iocccok, ReadAll(START, Input(lines[..n]), truth));
    }
  }

  // ----- Which files are accepted

  /** Levels and open groups have the same nesting, and agree on where an #else has been read. */
  predicate SameNesting(l: Levels, open: Frames) {
    if l.Base? then open.Outermost?
    else open.Within? && !l.state.Outside? && open.top.seenElse == AfterElse(l.state) && SameNesting(l.below, open.below)
  }

  lemma SameHeight(l: Levels, open: Frames)
    requires SameNesting(l, open)
    ensures Height(l) == Depth(open)
  {
  }

  predicate Shallow(open: Frames) {
    Depth(open) < MAXDEPTH
  }

  predicate OnlyForDodgy(a: Action) {
    a.Eioccc? || a.Oif? || a.Oiffy? || a.Oelif?
  }

  lemma OneLineEntries(s: Ifstate, k: Kind)
    ensures !OnlyForDodgy(Transition(s, Control(k, false)))
  {
  }

  /** A move never aborts or finishes; it keeps the nestings equal; and unless it is one of the entries kept for
      dodgy lines it goes through exactly when the directive may be read there. */
  predicate NestingMoves<C>(a: Action, l: Levels, d: Directive<C>, u: bool, iocccok: bool, open: Frames) {
    var n := Goes(a, l, iocccok);
    && (n.To? || n.Exit?)
    && (n.To? ==> Readable(open, d) && Shallow(OnDirective(open, d, u)) && SameNesting(n.levels, OnDirective(open, d, u)))
    && (n.Exit? && !OnlyForDodgy(a) ==> Readable(open, d) ==> !Shallow(OnDirective(open, d, u)))
  }

  lemma NestingIf<C>(a: Action, l: Levels, d: Directive<C>, t: bool, u: bool, iocccok: bool, open: Frames)
    requires FitsIf(a, Top(l), t) && SameNesting(l, open) && Shallow(open) && d.If?
    ensures NestingMoves(a, l, d, u, iocccok, open)
  {
    SameHeight(l, open);
  }

  lemma NestingElif<C>(a: Action, l: Levels, d: Directive<C>, t: bool, u: bool, iocccok: bool, open: Frames)
    requires FitsElif(a, Top(l), t) && SameNesting(l, open) && Shallow(open) && d.Elif?
    ensures NestingMoves(a, l, d, u, iocccok, open)
  {
  }

  lemma NestingElse<C>(a: Action, l: Levels, d: Directive<C>, u: bool, iocccok: bool, open: Frames)
    requires FitsElse(a, Top(l)) && SameNesting(l, open) && Shallow(open) && d.Else?
    ensures NestingMoves(a, l, d, u, iocccok, open)
  {
  }

  lemma NestingEndif<C>(a: Action, l: Levels, d: Directive<C>, u: bool, iocccok: bool, open: Frames)
    requires FitsEndif(a, Top(l)) && SameNesting(l, open) && Shallow(open) && d.Endif?
    ensures NestingMoves(a, l, d, u, iocccok, open)
  {
  }

  predicate OneLine(lt: Linetype) {
    lt.Control? ==> !lt.dodgy
  }

  lemma NestingStep<C>(l: Levels, line: Line<C>, iocccok: bool, r: Reading, truth: C -> bool)
    requires Typed(line) && r.Reading? && SameNesting(l, r.open) && Shallow(r.open)
    ensures Next(l, line.lt, iocccok).To? || Next(l, line.lt, iocccok).Exit?
    ensures var n, r' := Next(l, line.lt, iocccok), Read(r, line.dir, truth);
            && (n.To? ==> r'.Reading? && Shallow(r'.open) && SameNesting(n.levels, r'.open))
            && (OneLine(line.lt) && n.Exit? ==> !(r'.Reading? && Shallow(r'.open)))
  {
    if line.lt.Control? {
      var k, d, u := line.lt.kind, line.dir, Truth(line.dir, truth);
      var t := k.IfTrueI? || k.IfTrue? || k.ElifTrue?;
      var a := Transition(Top(l), line.lt);
      TableFits(Top(l), k, line.lt.dodgy, t);
      OneLineEntries(Top(l), k);
      match d {
        case If(_) => NestingIf(a, l, d, t, u, iocccok, r.open);
        case Elif(_) => NestingElif(a, l, d, t, u, iocccok, r.open);
        case Else => NestingElse(a, l, d, u, iocccok, r.open);
        case Endif => NestingEndif(a, l, d, u, iocccok, r.open);
        case Text(_) =>
      }
    }
  }

  // ----- Whole runs

  predicate OneLineFile<C>(lines: seq<Line<C>>) {
    forall i :: 0 <= i < |lines| ==> OneLine(lines[i].lt)
  }

  /** No prefix of the file opens more than MAXDEPTH - 1 groups at once. */
  predicate ShallowFile<C>(ds: seq<Directive<C>>, truth: C -> bool) {
    forall i :: 0 <= i <= |ds| ==> ReadAll(START, ds[..i], truth).Reading? ==> Shallow(ReadAll(START, ds[..i], truth).open)
  }

  /** A run of typed lines never aborts, and while it runs it is nested as its input is. */
  lemma {:induction false} RunNests<C>(lines: seq<Line<C>>, truth: C -> bool, iocccok: bool)
    requires TypedFile(lines)
    ensures RunLines(lines, iocccok).Running? || RunLines(lines, iocccok).Exited?
    ensures var o, r := RunLines(lines, iocccok), ReadAll(START, Input(lines), truth);
            && (o.Running? ==> r.Reading? && Shallow(r.open) && SameNesting(o.m.levels, r.open))
            && (OneLineFile(lines) && o.Exited? ==> !(r.Reading? && ShallowFile(Input(lines), truth)))
    decreases |lines|
  {
    if lines == [] {
      assert Input(lines) == [];
    } else {
      var n := |lines| - 1;
      var before, o := lines[..n], RunLines(lines[..n], iocccok);
      RunNests(before, truth, iocccok);
      assert Input(lines)[..n] == Input(before);
      var r := ReadAll(START, Input(before), truth);
      if o.Running? {
        NestingStep(o.m.levels, lines[n], iocccok, r, truth);
        assert Input(lines)[..|lines|] == Input(lines);
      } else if ShallowFile(Input(lines), truth) {
        ShallowPrefix(Input(lines), n, truth);
      }
    }
  }

  lemma ShallowPrefix<C>(ds: seq<Directive<C>>, n: nat, truth: C -> bool)
    requires n <= |ds| && ShallowFile(ds, truth)
    ensures ShallowFile(ds[..n], truth)
  {
    forall i | 0 <= i <= n
      ensures ReadAll(START, ds[..n][..i], truth).Reading? ==> Shallow(ReadAll(START, ds[..n][..i], truth).open)
    {
      assert ds[..n][..i] == ds[..i];
    }
  }

  /** Meaning is preserved: whenever unifdef finishes, its output is well nested and, under every truth assignment
      that agrees with the verdicts unifdef reached, selects exactly the text lines the input selects. */
  lemma OutputMeansInput<C>(lines: seq<Line<C>>, truth: C -> bool, iocccok: bool)
    requires TypedFile(lines) && FileAgrees(lines, truth)
    requires Run(lines, iocccok).Finished?
    ensures Preprocess(Run(lines, iocccok).out, truth).Selected?
    ensures Preprocess(Run(lines, iocccok).out, truth) == Preprocess(Input(lines), truth)
  {
    RunNests(lines, truth, iocccok);
    RunKeeps(lines, truth, iocccok);
  }

  /** unifdef finishes on exactly the well-nested files that are not too deep, and never aborts: on every other file
      it exits with an error. (Lines whose directive is on one line; `truth` does not matter for nesting.) */
  lemma AcceptsExactlyWellNested<C>(lines: seq<Line<C>>, truth: C -> bool, iocccok: bool)
    requires TypedFile(lines) && OneLineFile(lines)
    ensures Run(lines, iocccok).Finished? <==>
            Preprocess(Input(lines), truth).Selected? && ShallowFile(Input(lines), truth)
    ensures Run(lines, iocccok).Finished? || Run(lines, iocccok).Exited?
  {
    RunNests(lines, truth, iocccok);
    if RunLines(lines, iocccok).Running? {
      RunningIsShallow(lines, truth, iocccok);
    }
  }

  lemma {:induction false} RunningIsShallow<C>(lines: seq<Line<C>>, truth: C -> bool, iocccok: bool)
    requires TypedFile(lines) && RunLines(lines, iocccok).Running?
    ensures ShallowFile(Input(lines), truth)
    decreases |lines|
  {
    RunNests(lines, truth, iocccok);
    if lines == [] {
      assert Input(lines) == [];
    } else {
      var n := |lines| - 1;
      RunningIsShallow(lines[..n], truth, iocccok);
      assert Input(lines)[..n] == Input(lines[..n]);
      forall i | 0 <= i <= n + 1
        ensures ReadAll(START, Input(lines)[..i], truth).Reading? ==> Shallow(ReadAll(START, Input(lines)[..i], truth).open)
      {
        if i <= n {
          assert Input(lines)[..i] == Input(lines[..n])[..i];
        } else {
          assert Input(lines)[..i] == Input(lines);
        }
      }
    }
  }

  /** Even with dodgy lines in the file, no run aborts. */
  lemma NeverAborts<C>(lines: seq<Line<C>>, iocccok: bool)
    requires TypedFile(lines)
    ensures !Run(lines, iocccok).Aborted? && !Run(lines, iocccok).Running?
  {
    RunNests(lines, _ => true, iocccok);
  }

  /** The source says that a dodgy directive can be handled only if it does not switch between printing and
      dropping. The table keeps to that (or exits) on every entry but one: an unknown #elif after only false
      branches, where the table switches from dropping to printing whatever `iocccok` says. */
  lemma DodgySwitchesExactlyOnce(l: Levels, k: Kind, iocccok: bool)
    requires l.Level? ==> !l.state.Outside? && (Prints(Top(l.below)) || l.state.FalseTrailer? || l.state.FalseElse?)
    ensures var n := Next(l, Control(k, true), iocccok);
            n.To? && Prints(Top(n.levels)) != Prints(Top(l)) <==> Top(l).FalsePrefix? && k.ElifUnknown?
  {
  }
}
