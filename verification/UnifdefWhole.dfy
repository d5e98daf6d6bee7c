/** The evaluator and the state machine together: unifdef's output means what its input means, under C's own reading
    of the conditions. Also, exactly which numbers the evaluator can be trusted with. */
module UnifdefWhole {
  import opened Preprocessor
  import opened UnifdefTable
  import opened UnifdefMeaning
  import opened UnifdefExpr
  import opened UnifdefEval

  /** C evaluates a condition in its widest integer types. */
  function Exact(n: int, unsigned: bool): Int {
    Int(n, unsigned)
  }

  /** A number that an int holds and that C does not take for unsigned. */
  predicate Plain(n: int, unsigned: bool) {
    Fits(n) && !unsigned
  }

  predicate LiteralsFit(e: Expr) {
    match e
    case Bin(_, l, r) => LiteralsFit(l) && LiteralsFit(r)
    case Negate(x) => LiteralsFit(x)
    case Paren(x) => LiteralsFit(x)
    case Lit(n, unsigned) => Plain(n, unsigned)
    case _ => true
  }

  predicate TokensFit(toks: seq<Token>) {
    forall i :: 0 <= i < |toks| && toks[i].Num? ==> Plain(toks[i].n, toks[i].unsigned)
  }

  ghost predicate SymbolsFit(syms: Symbols) {
    forall s :: s in syms && syms[s].Number? ==> Fits(syms[s].n)
  }

  lemma {:induction false} SameValue(e: Expr, env: Env)
    requires LiteralsFit(e)
    ensures Value(e, env, AsInt) == Value(e, env, Exact)
  {
    match e
    case Bin(_, l, r) => SameValue(l, env); SameValue(r, env);
    case Negate(x) => SameValue(x, env);
    case Paren(x) => SameValue(x, env);
    case _ =>
  }

  lemma PartFits(before: seq<Token>, part: seq<Token>, after: seq<Token>)
    requires TokensFit(before + part + after)
    ensures TokensFit(part)
  {
    forall i | 0 <= i < |part| && part[i].Num?
      ensures Plain(part[i].n, part[i].unsigned)
    {
      assert part[i] == (before + part + after)[|before| + i];
    }
  }

  lemma {:induction false} TokensFitLiterals(e: Expr)
    requires TokensFit(Render(e))
    ensures LiteralsFit(e)
  {
    match e
    case Bin(op, l, r) =>
      assert Render(e) == [] + Render(l) + ([Oper(op)] + Render(r));
      PartFits([], Render(l), [Oper(op)] + Render(r));
      TokensFitLiterals(l);
      assert Render(e) == (Render(l) + [Oper(op)]) + Render(r) + [];
      PartFits(Render(l) + [Oper(op)], Render(r), []);
      TokensFitLiterals(r);
    case Negate(x) =>
      assert Render(e) == [Not] + Render(x) + [];
      PartFits([Not], Render(x), []);
      TokensFitLiterals(x);
    case Paren(x) =>
      PartFits([LParen], Render(x), [RParen]);
      TokensFitLiterals(x);
    case Lit(n, _) =>
      assert Render(e)[0].Num?;
    case _ =>
  }

  /** Every literal of `e` is this one, or a plain one. */
  predicate LiteralsAmong(e: Expr, n: nat, unsigned: bool) {
    match e
    case Bin(_, l, r) => LiteralsAmong(l, n, unsigned) && LiteralsAmong(r, n, unsigned)
    case Negate(x) => LiteralsAmong(x, n, unsigned)
    case Paren(x) => LiteralsAmong(x, n, unsigned)
    case Lit(m, u) => (m == n && u == unsigned) || Plain(m, u)
    case _ => true
  }

  ghost predicate Trustworthy(e: Expr) {
    forall env :: (Value(e, env, AsInt).v != 0) == (Value(e, env, Exact).v != 0)
  }

  lemma {:induction false} AmongFits(e: Expr, n: nat, unsigned: bool)
    requires LiteralsAmong(e, n, unsigned) && Plain(n, unsigned)
    ensures LiteralsFit(e)
  {
    match e
    case Bin(_, l, r) => AmongFits(l, n, unsigned); AmongFits(r, n, unsigned);
    case Negate(x) => AmongFits(x, n, unsigned);
    case Paren(x) => AmongFits(x, n, unsigned);
    case _ =>
  }

  /** An environment in which every symbol stands for v. */
  function Every(v: Int): Env {
    Env((_, _) => v, _ => true, false)
  }

  /** A number that C takes for unsigned turns some comparison round. */
  lemma UnsignedFails(n: nat)
    ensures !Trustworthy(Bin(Lt, Symbol(0, []), Lit(n, true)))
  {
    var t, c := ToInt(n), n % 0x1_0000_0000_0000_0000;
    var x := if t >= 0 then -1 else if c > 0 then 0 else -2;
    var e, env := Bin(Lt, Symbol(0, []), Lit(n, true)), Every(Signed(x));
    assert Value(e, env, AsInt) == Signed(Bit(x < t));
    assert Value(e, env, Exact) == Signed(Bit(x % 0x1_0000_0000_0000_0000 < c));
  }

  /** A number that no int holds is not equal to what the int holds instead. */
  lemma TooLargeFails(n: nat)
    requires !Fits(n)
    ensures !Trustworthy(Bin(Eq, Symbol(0, []), Lit(n, false)))
  {
    var e, env := Bin(Eq, Symbol(0, []), Lit(n, false)), Every(AsInt(n, false));
    assert Value(e, env, AsInt) == Signed(1);
    assert Value(e, env, Exact) == Signed(0);
  }

  /** The evaluator keeps numbers in an int and passes over their suffixes, so it cannot be trusted with every number C accepts.
      It can be trusted with a number in all expressions exactly when an int holds it and C does not take it for unsigned. */
  lemma TrustedExactlyIfPlain(n: nat, unsigned: bool)
    ensures Plain(n, unsigned) <==> forall e :: LiteralsAmong(e, n, unsigned) ==> Trustworthy(e)
  {
    if Plain(n, unsigned) {
      forall e | LiteralsAmong(e, n, unsigned)
        ensures Trustworthy(e)
      {
        AmongFits(e, n, unsigned);
        forall env { SameValue(e, env); }
      }
    } else if unsigned {
      UnsignedFails(n);
      assert LiteralsAmong(Symbol(0, []), n, true) && LiteralsAmong(Lit(n, true), n, true);
      assert LiteralsAmong(Bin(Lt, Symbol(0, []), Lit(n, true)), n, true);
    } else {
      TooLargeFails(n);
      assert LiteralsAmong(Symbol(0, []), n, false) && LiteralsAmong(Lit(n, false), n, false);
      assert LiteralsAmong(Bin(Eq, Symbol(0, []), Lit(n, false)), n, false);
    }
  }

  // ----- The values of symbols

  /** `env` with another value for one symbol. */
  function Given(env: Env, x: nat, v: Int): Env {
    env.(value := (s: nat, args) => if s == x then v else env.value(s, args))
  }

  /** The two readings of the symbol's number agree on a condition. */
  predicate SameTruth(e: Expr, env: Env, x: nat, n: int) {
    (Value(e, Given(env, x, AsInt(n, false)), AsInt).v != 0) == (Value(e, Given(env, x, Exact(n, false)), Exact).v != 0)
  }

  lemma TwoSymbols(x: nat, env: Env, v: Int, held: (int, bool) -> Int)
    ensures Value(Bin(Eq, Symbol(x, []), Symbol(x + 1, [])), Given(env, x, v), held) == Combine(Eq, v, env.value(x + 1, []))
  {
    var now := Given(env, x, v);
    assert Value(Symbol(x, []), now, held) == v && Value(Symbol(x + 1, []), now, held) == env.value(x + 1, []);
  }

  /** The same for the number that -D gives a symbol: it can be trusted in all conditions exactly when an int holds it. */
  lemma SymbolTrustedExactly(x: nat, n: int)
    ensures Fits(n) <==> forall e, env :: LiteralsFit(e) ==> SameTruth(e, env, x, n)
  {
    if Fits(n) {
      forall e, env | LiteralsFit(e)
        ensures SameTruth(e, env, x, n)
      {
        assert AsInt(n, false) == Exact(n, false);
        SameValue(e, Given(env, x, Exact(n, false)));
      }
    } else {
      var e, env := Bin(Eq, Symbol(x, []), Symbol(x + 1, [])), Every(AsInt(n, false));
      assert LiteralsFit(Symbol(x, [])) && LiteralsFit(Symbol(x + 1, [])) && LiteralsFit(e);
      TwoSymbols(x, env, AsInt(n, false), AsInt);
      TwoSymbols(x, env, Exact(n, false), Exact);
      assert !SameTruth(e, env, x, n);
    }
  }

  // ----- Files whose line types come from the evaluator

  /** How C reads a condition under a completion. */
  ghost predicate CTruth(toks: seq<Token>, env: Env, syms: Symbols) {
    exists e :: Says(toks, e, syms) && Value(e, env, Exact).v != 0
  }

  /** Some completion: symbols that are not on the command line are undefined. */
  function Completion(syms: Symbols): (env: Env)
    ensures Completes(env, syms, AsInt)
  {
    Env((s, _) => if s in syms && syms[s].Number? then AsInt(syms[s].n, false) else Signed(0), s => s in syms
        && !syms[s].Undefined?, false)
  }

  /** A definite verdict on a condition without unknown symbols is the evaluator's own value. */
  lemma VerdictIs(v: Verdict, toks: seq<Token>, e: Expr, syms: Symbols)
    requires Rightly(v, toks, syms, true) && Says(toks, e, syms) && !MentionsUnknown(e, syms) && !UsesText(e, syms)
    ensures v == OfValue(Value(e, Completion(syms), AsInt).v)
  {
    forall e' | Says(toks, e', syms)
      ensures e' == e
    {
      Unambiguous(e, e', syms);
    }
  }

  /** With -k, #if 4294967296 is judged false, although C takes it for true. */
  method TooLargeIsMisjudged(syms: Symbols, strictlogic: bool) returns (v: Verdict)
    ensures v.False? && forall env :: CTruth([Num(4294967296, false)], env, syms)
  {
    var toks, e := [Num(4294967296, false)], Lit(4294967296, false);
    v := IfEval(toks, syms, strictlogic, true);
    assert Says(toks, e, syms);
    VerdictIs(v, toks, e, syms);
    forall env ensures CTruth(toks, env, syms) { assert Value(e, env, Exact).v != 0; }
  }

  /** So is #if X with -DX=4294967296. */
  method SymbolIsMisjudged(x: nat, strictlogic: bool) returns (v: Verdict)
    ensures v.False?
    ensures var syms := map[x := Number(4294967296)];
            forall env :: Completes(env, syms, Exact) ==> CTruth([Sym(x)], env, syms)
  {
    var syms, toks, e := map[x := Number(4294967296)], [Sym(x)], Symbol(x, []);
    v := IfEval(toks, syms, strictlogic, true);
    assert Says(toks, e, syms);
    VerdictIs(v, toks, e, syms);
    forall env | Completes(env, syms, Exact) ensures CTruth(toks, env, syms) { assert Value(e, env, Exact).v != 0; }
  }

  /** With -DX=-1, #if X < 1u is judged true, although C compares unsigned numbers and takes it for false. */
  method UnsignedIsMisjudged(x: nat, strictlogic: bool) returns (v: Verdict)
    ensures v.True?
    ensures var syms := map[x := Number(-1)];
            forall env :: Completes(env, syms, Exact) ==> !CTruth([Sym(x), Oper(Lt), Num(1, true)], env, syms)
  {
    var syms, toks := map[x := Number(-1)], [Sym(x), Oper(Lt), Num(1, true)];
    v := IfEval(toks, syms, strictlogic, true);
    BelowOneSays(x, syms);
    VerdictIs(v, toks, BelowOne(x), syms);
    MinusOneBelowOne(x, Completion(syms), AsInt, Signed(1));
    forall env | Completes(env, syms, Exact)
      ensures !CTruth(toks, env, syms)
    {
      MinusOneBelowOne(x, env, Exact, Int(1, true));
      forall e | Says(toks, e, syms) ensures e == BelowOne(x) { Unambiguous(BelowOne(x), e, syms); }
    }
  }

  /** X < 1u */
  function BelowOne(x: nat): Expr {
    Bin(Lt, Symbol(x, []), Lit(1, true))
  }

  lemma BelowOneSays(x: nat, syms: Symbols)
    ensures Says([Sym(x), Oper(Lt), Num(1, true)], BelowOne(x), syms)
    ensures x in syms && syms[x].Number? ==> !MentionsUnknown(BelowOne(x), syms) && !UsesText(BelowOne(x), syms)
  {
    var l, r := Symbol(x, []), Lit(1, true);
    assert Render(l) == [Sym(x)] && Render(r) == [Num(1, true)];
    assert Grammar(l, 3, syms) && Grammar(r, 4, syms);
  }

  lemma MinusOneBelowOne(x: nat, env: Env, held: (int, bool) -> Int, one: Int)
    requires env.value(x, []) == Signed(-1) && held(1, true) == one
    ensures Value(BelowOne(x), env, held) == Combine(Lt, Signed(-1), one)
  {
    assert Value(Symbol(x, []), env, held) == Signed(-1) && Value(Lit(1, true), env, held) == one;
  }

  predicate KindFrom(k: Kind, v: Verdict) {
    && (k.IfTrue? || k.IfTrueI? || k.ElifTrue? ==> v.True?)
    && (k.IfFalse? || k.IfFalseI? || k.ElifFalse? ==> v.False?)
  }

  /** The line's type is backed by a verdict of the evaluator on its condition. */
  ghost predicate Backed(line: Line<seq<Token>>, syms: Symbols, killconsts: bool) {
    line.lt.Control? && (line.dir.If? || line.dir.Elif?) ==>
      TokensFit(line.dir.cond) && exists v :: Rightly(v, line.dir.cond, syms, killconsts) && KindFrom(line.lt.kind, v)
  }

  lemma VerdictIsCTruth(v: Verdict, toks: seq<Token>, env: Env, syms: Symbols, killconsts: bool)
    requires Rightly(v, toks, syms, killconsts) && (v.True? || v.False?)
    requires TokensFit(toks) && SymbolsFit(syms) && Completes(env, syms, Exact)
    ensures CTruth(toks, env, syms) <==> v.True?
  {
    assert Completes(env, syms, AsInt);
    var e :| Says(toks, e, syms) && forall env :: Completes(env, syms, AsInt) ==> (Value(e, env, AsInt).v != 0 <==> v.True?);
    TokensFitLiterals(e);
    SameValue(e, env);
    forall e' | Says(toks, e', syms)
      ensures e' == e
    {
      Unambiguous(e, e', syms);
    }
  }

  lemma BackedAgrees(line: Line<seq<Token>>, env: Env, syms: Symbols, killconsts: bool)
    requires Typed(line) && Backed(line, syms, killconsts) && SymbolsFit(syms) && Completes(env, syms, Exact)
    ensures Agrees(line, toks => CTruth(toks, env, syms))
  {
    if line.lt.Control? && (line.dir.If? || line.dir.Elif?) {
      var v :| Rightly(v, line.dir.cond, syms, killconsts) && KindFrom(line.lt.kind, v);
      if v.True? || v.False? {
        VerdictIsCTruth(v, line.dir.cond, env, syms, killconsts);
      }
    }
  }

  /** End to end: for every completion of the symbols that the command line leaves open, preprocessing unifdef's output
      selects exactly the text lines that preprocessing its input selects. */
  lemma UnifdefPreservesC(lines: seq<Line<seq<Token>>>, env: Env, syms: Symbols, killconsts: bool, iocccok: bool)
    requires TypedFile(lines) && (forall i :: 0 <= i < |lines| ==> Backed(lines[i], syms, killconsts))
    requires SymbolsFit(syms) && Completes(env, syms, Exact)
    requires Run(lines, iocccok).Finished?
    ensures var truth := (toks: seq<Token>) => CTruth(toks, env, syms);
            Preprocess(Run(lines, iocccok).out, truth).Selected? &&
            Preprocess(Run(lines, iocccok).out, truth) == Preprocess(Input(lines), truth)
  {
    var truth := (toks: seq<Token>) => CTruth(toks, env, syms);
    forall i | 0 <= i < |lines|
      ensures Agrees(lines[i], truth)
    {
      BackedAgrees(lines[i], env, syms, killconsts);
    }
    OutputMeansInput(lines, truth, iocccok);
  }
}
