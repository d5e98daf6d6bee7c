/** The three-valued evaluator of #if expressions: eval_unary, eval_table and the op_ functions, over tokens. */
module UnifdefEval {
  import opened UnifdefExpr

  /** LT_ERROR, LT_IF, LT_TRUE, LT_FALSE */
  datatype Verdict = Error | Unknown | True | False

  /** strtol() to a long of 64 bits, then assignment to an int of 32. */
  function ToInt(n: int): int {
    var long := if n > 0x7fff_ffff_ffff_ffff then 0x7fff_ffff_ffff_ffff
                else if n < -0x8000_0000_0000_0000 then -0x8000_0000_0000_0000 else n;
    (long + 0x8000_0000) % 0x1_0000_0000 - 0x8000_0000
  }

  /** Every number is an int to the evaluator: skipsym() passes over a suffix unread. */
  function AsInt(n: int, unsigned: bool): Int {
    Signed(ToInt(n))
  }

  predicate Fits(n: int) {
    -0x8000_0000 <= n < 0x8000_0000
  }

  function OfValue(v: int): Verdict {
    if v != 0 then True else False
  }

  /** op_strict and the comparison functions, and op_or and op_and: the new verdict and the new *p. */
  function OpStrict(p: int, v: int, at: Verdict, bt: Verdict): (Verdict, int) {
    if at.Unknown? || bt.Unknown? then (Unknown, p) else (OfValue(v), v)
  }

  function Apply(op: Op, strictlogic: bool, p: int, at: Verdict, a: int, bt: Verdict, b: int): (Verdict, int) {
    if op.Or? && !strictlogic && (at.True? || bt.True?) then (True, 1)
    else if op.And? && !strictlogic && (at.False? || bt.False?) then (False, 0)
    else OpStrict(p, Operate(op, a, b), at, bt)
  }

  predicate MentionsUnknown(e: Expr, syms: Symbols) {
    match e
    case Bin(_, l, r) => MentionsUnknown(l, syms) || MentionsUnknown(r, syms)
    case Negate(x) => MentionsUnknown(x, syms)
    case Paren(x) => MentionsUnknown(x, syms)
    case Lit(_, _) => false
    case IsDefined(s, _) => s !in syms
    case DefinedNothing(_) => true
    case Symbol(s, _) => s !in syms
  }

  predicate Constant(e: Expr) {
    match e
    case Bin(_, l, r) => Constant(l) && Constant(r)
    case Negate(x) => Constant(x)
    case Paren(x) => Constant(x)
    case Lit(_, _) => true
    case _ => false
  }

  // ----- The three-valued meaning of an expression

  /** The strong Kleene tables: a side that decides the result is enough. */
  function KleeneOr(a: Verdict, b: Verdict): Verdict {
    match a
    case True => True
    case False => b
    case _ => if b.True? then True else Unknown
  }

  function KleeneAnd(a: Verdict, b: Verdict): Verdict {
    match a
    case False => False
    case True => b
    case _ => if b.False? then False else Unknown
  }

  function TruthOf(m: Option<int>): Verdict {
    if m.None? then Unknown else OfValue(m.value)
  }

  function AsNumber(t: Verdict): Option<int> {
    match t
    case True => Some(1)
    case False => Some(0)
    case _ => None
  }

  /** The value of an expression, as far as the command line settles it. With -K both sides of || and && must be settled. */
  function Meaning(e: Expr, syms: Symbols, strictlogic: bool): Option<int> {
    match e
    case Bin(op, l, r) =>
      var x, y := Meaning(l, syms, strictlogic), Meaning(r, syms, strictlogic);
      if op.Or? && !strictlogic then AsNumber(KleeneOr(TruthOf(x), TruthOf(y)))
      else if op.And? && !strictlogic then AsNumber(KleeneAnd(TruthOf(x), TruthOf(y)))
      else if x.Some? && y.Some? then Some(Operate(op, x.value, y.value))
      else None
    case Negate(x) =>
      var m := Meaning(x, syms, strictlogic);
      if m.None? then None else Some(Bit(m.value == 0))
    case Paren(x) => Meaning(x, syms, strictlogic)
    case Lit(n, _) => Some(ToInt(n))
    case IsDefined(s, _) => if s in syms then Some(Bit(!syms[s].Undefined?)) else None
    case DefinedNothing(_) => None
    case Symbol(s, _) =>
      if s !in syms then None
      else match syms[s] case Undefined => Some(0) case Number(n) => Some(ToInt(n)) case NotANumber => None
  }

  /** What is settled is so under every completion of the open symbols. */
  lemma {:induction false} MeaningHolds(e: Expr, syms: Symbols, strictlogic: bool, env: Env)
    requires Completes(env, syms, AsInt) && Meaning(e, syms, strictlogic).Some?
    ensures Value(e, env, AsInt) == Signed(Meaning(e, syms, strictlogic).value)
  {
    match e
    case Bin(op, l, r) =>
      if Meaning(l, syms, strictlogic).Some? { MeaningHolds(l, syms, strictlogic, env); }
      if Meaning(r, syms, strictlogic).Some? { MeaningHolds(r, syms, strictlogic, env); }
    case Negate(x) => MeaningHolds(x, syms, strictlogic, env);
    case Paren(x) => MeaningHolds(x, syms, strictlogic, env);
    case _ =>
  }

  /** Without open symbols everything is settled. With -K nothing else is. */
  lemma {:induction false} OpenExactly(e: Expr, syms: Symbols, strictlogic: bool)
    requires !UsesText(e, syms)
    ensures Meaning(e, syms, strictlogic).None? ==> MentionsUnknown(e, syms)
    ensures strictlogic ==> (Meaning(e, syms, strictlogic).None? <==> MentionsUnknown(e, syms))
  {
    match e
    case Bin(_, l, r) => OpenExactly(l, syms, strictlogic); OpenExactly(r, syms, strictlogic);
    case Negate(x) => OpenExactly(x, syms, strictlogic);
    case Paren(x) => OpenExactly(x, syms, strictlogic);
    case _ =>
  }

  /** Without -K a disjunction is settled by one true side, and a conjunction by one false side; otherwise by both. */
  lemma OneSideDecides(l: Expr, r: Expr, syms: Symbols)
    ensures var x, y := TruthOf(Meaning(l, syms, false)), TruthOf(Meaning(r, syms, false));
            && (TruthOf(Meaning(Bin(Or, l, r), syms, false)).True? <==> x.True? || y.True?)
            && (TruthOf(Meaning(Bin(Or, l, r), syms, false)).False? <==> x.False? && y.False?)
            && (TruthOf(Meaning(Bin(And, l, r), syms, false)).False? <==> x.False? || y.False?)
            && (TruthOf(Meaning(Bin(And, l, r), syms, false)).True? <==> x.True? && y.True?)
  {
  }

  /** The verdict and the value are those of the meaning. Nothing is said about `val` when the verdict is unknown. */
  predicate Describes(v: Verdict, val: int, e: Expr, syms: Symbols, strictlogic: bool) {
    v == TruthOf(Meaning(e, syms, strictlogic)) && (!v.Unknown? ==> Meaning(e, syms, strictlogic) == Some(val))
  }

  lemma OpDescribes(op: Op, strictlogic: bool, p: int, at: Verdict, bt: Verdict, b: int, l: Expr, r: Expr, syms: Symbols)
    requires Describes(at, p, l, syms, strictlogic) && Describes(bt, b, r, syms, strictlogic)
    ensures var (v, q) := Apply(op, strictlogic, p, at, p, bt, b); Describes(v, q, Bin(op, l, r), syms, strictlogic)
  {
  }

  function ArgsEnd(toks: seq<Token>, pos: nat): (end: nat)
    requires pos <= |toks|
    ensures pos <= end <= |toks|
  {
    if pos < |toks| && toks[pos].LParen? && Close(toks[pos..], 0).Some? then pos + Close(toks[pos..], 0).value else pos
  }

  /** skipargs(): past a parenthesised group, or nowhere if there is none or it does not close. */
  method SkipArgs(toks: seq<Token>, pos: nat) returns (next: nat)
    requires pos <= |toks|
    ensures next == ArgsEnd(toks, pos)
  {
    if pos == |toks| || !toks[pos].LParen? { return pos; }
    var level, i := 0, pos;
    while true
      invariant pos <= i < |toks| && (level == 0 ==> i == pos)
      invariant Close(toks[pos..], 0).Some? <==> Close(toks[i..], level).Some?
      invariant Close(toks[pos..], 0).Some? ==> Close(toks[pos..], 0).value == i - pos + Close(toks[i..], level).value
      decreases |toks| - i
    {
      assert toks[i..][1..] == toks[i + 1..];
      if toks[i].LParen? { level := level + 1; }
      if toks[i].RParen? && level > 0 { level := level - 1; }
      i := i + 1;
      if level == 0 || i == |toks| { break; }
    }
    if level != 0 { return pos; }
    return i;
  }

  /** A symbol used for its value that -D gives something that is not a number. */
  predicate UsesText(e: Expr, syms: Symbols) {
    match e
    case Bin(_, l, r) => UsesText(l, syms) || UsesText(r, syms)
    case Negate(x) => UsesText(x, syms)
    case Paren(x) => UsesText(x, syms)
    case Symbol(s, _) => s in syms && syms[s].NotANumber?
    case _ => false
  }

  /** The only texts on which evaluation may fail. */
  predicate Unusable(p: Parsed, syms: Symbols) {
    p.Failed? || UsesText(p.e, syms)
  }

  lemma {:induction false} MoreStaysUnusable(lvl: nat, acc: Expr, toks: seq<Token>, syms: Symbols)
    requires lvl < 4 && UsesText(acc, syms)
    ensures Unusable(ParseMore(lvl, acc, toks, syms), syms)
    decreases |toks|
  {
    if toks != [] && toks[0].Oper? && LevelOf(toks[0].op) == lvl {
      var p := ParseLevel(lvl + 1, toks[1..], syms);
      if p.Parsed? {
        MoreStaysUnusable(lvl, Bin(toks[0].op, acc, p.e), p.rest, syms);
      }
    }
  }

  /** What evaluating some tokens must give, `p` being their parse: an error exactly if they are unusable; otherwise
      everything the parse took is read, and the verdict describes the parsed expression. */
  predicate Judges(p: Parsed, toks: seq<Token>, next: nat, v: Verdict, val: int, constant: bool, syms: Symbols,
      strictlogic: bool) {
    && (v.Error? <==> Unusable(p, syms))
    && (!v.Error? ==> next <= |toks| && p.rest == toks[next..] && Describes(v, val, p.e, syms, strictlogic) && constant == Constant(p.e))
  }

  /** eval_unary. `old_val` is what *valp holds on entry; it is still there when the verdict is unknown. */
  method EvalUnary(toks: seq<Token>, pos: nat, old_val: int, syms: Symbols, strictlogic: bool)
    returns (v: Verdict, val: int, next: nat, constant: bool)
    requires pos <= |toks|
    ensures Judges(ParseUnary(toks[pos..], syms), toks, next, v, val, constant, syms, strictlogic)
    decreases |toks| - pos, 0
  {
    v, val, next, constant := Error, old_val, pos, true;
    if pos == |toks| { return; }
    assert toks[pos..][1..] == toks[pos + 1..];
    match toks[pos]
    case Not =>
      v, val, next, constant := EvalUnary(toks, pos + 1, old_val, syms, strictlogic);
      if v.Error? { return; }
      if !v.Unknown? {
        val := Bit(val == 0);
        v := OfValue(val);
      }
    case LParen =>
      v, val, next, constant := EvalTable(0, toks, pos + 1, old_val, syms, strictlogic);
      if v.Error? { return; }
      if next == |toks| || !toks[next].RParen? { v := Error; return; }
      assert toks[next..][1..] == toks[next + 1..];
      next := next + 1;
    case Num(n, _) =>
      val, next := ToInt(n), pos + 1;
      v := OfValue(val);
    case Defined =>
      v, val, next, constant := EvalDefined(toks, pos, old_val, syms, strictlogic);
    case Sym(s) =>
      v, val, next, constant := EvalSymbol(toks, pos, old_val, syms, strictlogic);
    case _ => return;
  }

  method EvalDefined(toks: seq<Token>, pos: nat, old_val: int, syms: Symbols, ghost strictlogic: bool)
    returns (v: Verdict, val: int, next: nat, constant: bool)
    requires pos < |toks| && toks[pos].Defined?
    ensures Judges(ParseUnary(toks[pos..], syms), toks, next, v, val, constant, syms, strictlogic)
  {
    val, constant, next := old_val, false, pos + 1;
    var parens := next < |toks| && toks[next].LParen?;
    if parens { next := next + 1; }
    v := Unknown;
    if next < |toks| && toks[next].Sym? {
      var s := toks[next].name;
      if s in syms {
        val := Bit(!syms[s].Undefined?);
        v := OfValue(val);
      }
      next := next + 1;
    }
    if parens {
      if next == |toks| || !toks[next].RParen? { v := Error; return; }
      next := next + 1;
    }
    assert toks[pos..][next - pos..] == toks[next..];
  }

  lemma SymbolParse(toks: seq<Token>, pos: nat, syms: Symbols)
    requires pos < |toks| && toks[pos].Sym?
    ensures var next := if TakesArgs(syms, toks[pos].name) then ArgsEnd(toks, pos + 1) else pos + 1;
            ParseUnary(toks[pos..], syms) == Parsed(Symbol(toks[pos].name, toks[pos + 1..next]), toks[next..])
  {
    assert toks[pos..][1..] == toks[pos + 1..];
    var next := if TakesArgs(syms, toks[pos].name) then ArgsEnd(toks, pos + 1) else pos + 1;
    assert toks[pos + 1..][next - (pos + 1)..] == toks[next..];
    assert toks[pos + 1..][..next - (pos + 1)] == toks[pos + 1..next];
  }

  method EvalSymbol(toks: seq<Token>, pos: nat, old_val: int, syms: Symbols, ghost strictlogic: bool)
    returns (v: Verdict, val: int, next: nat, constant: bool)
    requires pos < |toks| && toks[pos].Sym?
    ensures Judges(ParseUnary(toks[pos..], syms), toks, next, v, val, constant, syms, strictlogic)
  {
    var s := toks[pos].name;
    val, constant, next := old_val, false, pos + 1;
    if s !in syms {
      v := Unknown;
      next := SkipArgs(toks, next);
    } else {
      match syms[s]
      case Undefined =>
        val, v := 0, False;
      case NotANumber =>
        v := Error;
      case Number(n) =>
        val := ToInt(n);
        v := OfValue(val);
        next := SkipArgs(toks, next);
    }
    SymbolParse(toks, pos, syms);
  }

  /** eval_table: a left fold over the operators of one level. */
  method EvalTable(lvl: nat, toks: seq<Token>, pos: nat, old_val: int, syms: Symbols, strictlogic: bool)
    returns (v: Verdict, val: int, next: nat, constant: bool)
    requires pos <= |toks| && lvl < 4
    ensures Judges(ParseLevel(lvl, toks[pos..], syms), toks, next, v, val, constant, syms, strictlogic)
    decreases |toks| - pos, 5 - lvl
  {
    v, val, next, constant := EvalInner(lvl, toks, pos, old_val, syms, strictlogic);
    ghost var whole, p := ParseLevel(lvl, toks[pos..], syms), ParseLevel(lvl + 1, toks[pos..], syms);
    if v.Error? {
      if p.Parsed? { MoreStaysUnusable(lvl, p.e, p.rest, syms); }
      return;
    }
    ghost var e := p.e;
    while next < |toks| && toks[next].Oper? && LevelOf(toks[next].op) == lvl
      invariant next <= |toks| && !v.Error? && whole == ParseMore(lvl, e, toks[next..], syms)
      invariant Describes(v, val, e, syms, strictlogic) && constant == Constant(e) && !UsesText(e, syms)
      decreases |toks| - next
    {
      var op, garbage: int := toks[next].op, *;
      var rt, rval, rnext, rconst := EvalInner(lvl, toks, next + 1, garbage, syms, strictlogic);
      ghost var r := ParseLevel(lvl + 1, toks[next + 1..], syms);
      MoreUnfolds(lvl, e, toks, next, syms);
      if rt.Error? {
        if r.Parsed? { MoreStaysUnusable(lvl, Bin(op, e, r.e), r.rest, syms); }
        v := Error;
        return;
      }
      OpDescribes(op, strictlogic, val, v, rt, rval, e, r.e, syms);
      var (v', val') := Apply(op, strictlogic, val, v, val, rt, rval);
      v, val, next, constant, e := v', val', rnext, constant && rconst, Bin(op, e, r.e);
    }
  }

  lemma MoreUnfolds(lvl: nat, e: Expr, toks: seq<Token>, next: nat, syms: Symbols)
    requires lvl < 4 && next < |toks| && toks[next].Oper? && LevelOf(toks[next].op) == lvl
    ensures ParseMore(lvl, e, toks[next..], syms)
         == (match ParseLevel(lvl + 1, toks[next + 1..], syms)
             case Failed => Failed
             case Parsed(x, rest) => ParseMore(lvl, Bin(toks[next].op, e, x), rest, syms))
  {
    assert toks[next..][1..] == toks[next + 1..];
  }

  /** ops->inner(ops+1, ...) */
  method EvalInner(lvl: nat, toks: seq<Token>, pos: nat, old_val: int, syms: Symbols, strictlogic: bool)
    returns (v: Verdict, val: int, next: nat, constant: bool)
    requires pos <= |toks| && lvl < 4
    ensures Judges(ParseLevel(lvl + 1, toks[pos..], syms), toks, next, v, val, constant, syms, strictlogic)
    decreases |toks| - pos, 5 - lvl, 0
  {
    if lvl == 3 {
      v, val, next, constant := EvalUnary(toks, pos, old_val, syms, strictlogic);
    } else {
      v, val, next, constant := EvalTable(lvl + 1, toks, pos, old_val, syms, strictlogic);
    }
  }

  // ----- The verdict on a whole condition

  /** The parser reads text that is in the grammar, and Render gives that text back. */
  lemma {:induction false} UnarySound(toks: seq<Token>, syms: Symbols)
    requires ParseUnary(toks, syms).Parsed?
    ensures var p := ParseUnary(toks, syms); Grammar(p.e, 4, syms) && toks == Render(p.e) + p.rest
    decreases |toks|, 0
  {
    match toks[0]
    case Not =>
      UnarySound(toks[1..], syms);
      NotSound(toks, syms);
    case LParen =>
      LevelSound(0, toks[1..], syms);
      ParenSound(toks, syms);
    case Sym(s) => SymbolSound(toks, syms);
    case Defined => DefinedSound(toks, syms);
    case Num(_, _) => NumSound(toks, syms);
    case _ => assert false;
  }

  lemma NotSound(toks: seq<Token>, syms: Symbols)
    requires toks != [] && toks[0].Not? && ParseUnary(toks, syms).Parsed? && ParseUnary(toks[1..], syms).Parsed?
    requires var p := ParseUnary(toks[1..], syms); Grammar(p.e, 4, syms) && toks[1..] == Render(p.e) + p.rest
    ensures var p := ParseUnary(toks, syms); Grammar(p.e, 4, syms) && toks == Render(p.e) + p.rest
  {
    var p := ParseUnary(toks[1..], syms);
    assert toks == [Not] + (Render(p.e) + p.rest);
  }

  lemma NumSound(toks: seq<Token>, syms: Symbols)
    requires toks != [] && toks[0].Num?
    ensures var p := ParseUnary(toks, syms); Grammar(p.e, 4, syms) && toks == Render(p.e) + p.rest
  {
    var p := ParseUnary(toks, syms);
    assert Render(p.e) == [toks[0]];
  }

  lemma ParenSound(toks: seq<Token>, syms: Symbols)
    requires toks != [] && toks[0].LParen? && ParseUnary(toks, syms).Parsed? && ParseLevel(0, toks[1..], syms).Parsed?
    requires var p := ParseLevel(0, toks[1..], syms); Grammar(p.e, 0, syms) && toks[1..] == Render(p.e) + p.rest
    ensures var p := ParseUnary(toks, syms); Grammar(p.e, 4, syms) && toks == Render(p.e) + p.rest
  {
    var p := ParseLevel(0, toks[1..], syms);
    assert toks == [LParen] + (Render(p.e) + p.rest) && p.rest == [RParen] + p.rest[1..];
  }

  lemma SymbolSound(toks: seq<Token>, syms: Symbols)
    requires toks != [] && toks[0].Sym? && ParseUnary(toks, syms).Parsed?
    ensures var p := ParseUnary(toks, syms); Grammar(p.e, 4, syms) && toks == Render(p.e) + p.rest
  {
    var p := ParseUnary(toks, syms);
    if p.e.args != [] { CloseTakesPrefix(toks[1..], 0); }
  }

  lemma DefinedSound(toks: seq<Token>, syms: Symbols)
    requires toks != [] && toks[0].Defined? && ParseUnary(toks, syms).Parsed?
    ensures var p := ParseUnary(toks, syms); Grammar(p.e, 4, syms) && toks == Render(p.e) + p.rest
  {
    var p := ParseUnary(toks, syms);
    var n := |toks| - |p.rest|;
    assert p.rest == toks[n..];
    assert Render(p.e) == toks[..n];
  }

  lemma {:induction false} LevelSound(lvl: nat, toks: seq<Token>, syms: Symbols)
    requires lvl <= 4 && ParseLevel(lvl, toks, syms).Parsed?
    ensures var p := ParseLevel(lvl, toks, syms); Grammar(p.e, lvl, syms) && toks == Render(p.e) + p.rest
    decreases |toks|, 6 - lvl, 0
  {
    if lvl == 4 {
      UnarySound(toks, syms);
    } else {
      LevelSound(lvl + 1, toks, syms);
      var p := ParseLevel(lvl + 1, toks, syms);
      MoreSound(lvl, p.e, p.rest, syms);
    }
  }

  lemma {:induction false} MoreSound(lvl: nat, acc: Expr, toks: seq<Token>, syms: Symbols)
    requires lvl < 4 && Grammar(acc, lvl, syms) && ParseMore(lvl, acc, toks, syms).Parsed?
    ensures var p := ParseMore(lvl, acc, toks, syms); Grammar(p.e, lvl, syms) && Render(acc) + toks == Render(p.e) + p.rest
    decreases |toks|, 7, 0
  {
    if toks != [] && toks[0].Oper? && LevelOf(toks[0].op) == lvl {
      LevelSound(lvl + 1, toks[1..], syms);
      var p := ParseLevel(lvl + 1, toks[1..], syms);
      var next := Bin(toks[0].op, acc, p.e);
      RenderJoins(toks[0].op, acc, p.e, p.rest);
      assert toks == [toks[0]] + toks[1..];
      MoreSound(lvl, next, p.rest, syms);
    }
  }

  lemma RenderJoins(op: Op, l: Expr, r: Expr, rest: seq<Token>)
    ensures Render(l) + ([Oper(op)] + (Render(r) + rest)) == Render(Bin(op, l, r)) + rest
  {
  }

  /** `e` is what the tokens say. */
  predicate Says(toks: seq<Token>, e: Expr, syms: Symbols) {
    Grammar(e, 0, syms) && Render(e) == toks
  }

  /** What ifeval() and the end-of-line test of parseline() give for a condition that says `e`: its three-valued truth,
      unless it uses a symbol whose value is not a number, or is a constant that is to be left alone. */
  function Judged(e: Expr, syms: Symbols, strictlogic: bool, killconsts: bool): Verdict {
    if UsesText(e, syms) || (Constant(e) && !killconsts) then Unknown else TruthOf(Meaning(e, syms, strictlogic))
  }

  ghost predicate Verdicts(v: Verdict, toks: seq<Token>, syms: Symbols, strictlogic: bool, killconsts: bool) {
    && (forall e :: Says(toks, e, syms) ==> v == Judged(e, syms, strictlogic, killconsts))
    && ((forall e :: !Says(toks, e, syms)) ==> v.Unknown?)
  }

  /** What that means for C: a known verdict is right for the expression the tokens say, under every completion; and the
      verdict is unknown only for tokens that say nothing, use a symbol whose value is unknown or not a number, or are a
      constant that is to be left alone. */
  ghost predicate Rightly(v: Verdict, toks: seq<Token>, syms: Symbols, killconsts: bool) {
    && (v.True? || v.False? ==>
          exists e :: Says(toks, e, syms) &&
            forall env :: Completes(env, syms, AsInt) ==> (Value(e, env, AsInt).v != 0 <==> v.True?))
    && (v.Unknown? ==>
          forall e :: Says(toks, e, syms) ==> MentionsUnknown(e, syms) || UsesText(e, syms) || (Constant(e) && !killconsts))
    && !v.Error?
  }

  lemma VerdictsAreRight(v: Verdict, toks: seq<Token>, syms: Symbols, strictlogic: bool, killconsts: bool)
    requires Verdicts(v, toks, syms, strictlogic, killconsts)
    ensures Rightly(v, toks, syms, killconsts)
  {
    forall e | Says(toks, e, syms)
      ensures v.True? || v.False? ==>
                forall env :: Completes(env, syms, AsInt) ==> (Value(e, env, AsInt).v != 0 <==> v.True?)
      ensures v.Unknown? ==> MentionsUnknown(e, syms) || UsesText(e, syms) || (Constant(e) && !killconsts)
    {
      assert v == Judged(e, syms, strictlogic, killconsts);
      if !UsesText(e, syms) { OpenExactly(e, syms, strictlogic); }
      if v.True? || v.False? {
        forall env | Completes(env, syms, AsInt)
          ensures Value(e, env, AsInt).v != 0 <==> v.True?
        {
          MeaningHolds(e, syms, strictlogic, env);
        }
      }
    }
  }

  method IfEval(toks: seq<Token>, syms: Symbols, strictlogic: bool, killconsts: bool) returns (v: Verdict)
    ensures Verdicts(v, toks, syms, strictlogic, killconsts)
    ensures Rightly(v, toks, syms, killconsts)
  {
    assert toks[0..] == toks;
    var val, next, constant;
    v, val, next, constant := EvalTable(0, toks, 0, 0, syms, strictlogic);
    ghost var p := ParseLevel(0, toks, syms);
    forall e | Says(toks, e, syms)
      ensures p == Parsed(e, [])
    {
      LevelInverts(e, 0, [], syms);
      assert Render(e) + [] == toks;
    }
    if v.Error? || (constant && !killconsts) || next < |toks| {
      v := Unknown;
    } else {
      LevelSound(0, toks, syms);
      assert toks[|toks|..] == [];
      assert Render(p.e) + [] == Render(p.e);
      assert Says(toks, p.e, syms);
    }
    VerdictsAreRight(v, toks, syms, strictlogic, killconsts);
  }
}
