/** The expressions of #if and #elif lines: tokens, the grammar of section 6.5 of ISO/IEC 9899:1999 restricted to the
    operators unifdef knows, the value of an expression, and the fact that the grammar is unambiguous. */
module UnifdefExpr {

  datatype Op = Or | And | Eq | Ne | Le | Ge | Lt | Gt

  /** C gives a number an unsigned type for its suffix, or for its size if it is octal or hexadecimal. */
  datatype Token = Not | LParen | RParen | Num(n: nat, unsigned: bool) | Defined | Sym(name: nat) | Oper(op: Op) | Other

  /** Precedence, as rows of eval_ops: a higher level binds tighter. Level 4 is the unary expressions. */
  function LevelOf(op: Op): nat {
    match op
    case Or => 0
    case And => 1
    case Eq => 2
    case Ne => 2
    case _ => 3
  }

  /** What -D and -U say about a symbol: -U, -D with a number, -D with something that is not a number. */
  datatype SymVal = Undefined | Number(n: int) | NotANumber

  type Symbols = map<nat, SymVal>

  datatype Expr =
    | Bin(op: Op, left: Expr, right: Expr)
    | Negate(e: Expr)
    | Paren(e: Expr)
    | Lit(n: nat, unsigned: bool)
    | IsDefined(name: nat, parens: bool)
    | DefinedNothing(parens: bool)
    | Symbol(name: nat, args: seq<Token>)

  function Render(e: Expr): seq<Token> {
    match e
    case Bin(op, l, r) => Render(l) + [Oper(op)] + Render(r)
    case Negate(x) => [Not] + Render(x)
    case Paren(x) => [LParen] + Render(x) + [RParen]
    case Lit(n, unsigned) => [Num(n, unsigned)]
    case IsDefined(s, parens) => if parens then [Defined, LParen, Sym(s), RParen] else [Defined, Sym(s)]
    case DefinedNothing(parens) => if parens then [Defined, LParen, RParen] else [Defined]
    case Symbol(s, args) => [Sym(s)] + args
  }

  datatype Option<T> = None | Some(value: T)

  /** How many tokens reach from here to the parenthesis that closes `level` open ones. */
  function Close(toks: seq<Token>, level: nat): (r: Option<nat>)
    ensures r.Some? ==> 0 < r.value <= |toks|
  {
    if toks == [] then None else
    var now := if toks[0].LParen? then level + 1 else if toks[0].RParen? && level > 0 then level - 1 else level;
    if now == 0 then Some(1) else
    match Close(toks[1..], now)
    case None => None
    case Some(n) => Some(n + 1)
  }

  predicate Arguments(args: seq<Token>) {
    args != [] && args[0].LParen? && Close(args, 0) == Some(|args|)
  }

  /** Whether skipargs() is called after this symbol: not for one that -U undefines. */
  predicate TakesArgs(syms: Symbols, s: nat) {
    s !in syms || !syms[s].Undefined?
  }

  /** `e` is an expression of at least precedence `lvl`, with binary operators associating to the left. */
  predicate Grammar(e: Expr, lvl: nat, syms: Symbols) {
    match e
    case Bin(op, l, r) => lvl <= LevelOf(op) && Grammar(l, LevelOf(op), syms) && Grammar(r, LevelOf(op) + 1, syms)
    case Negate(x) => Grammar(x, 4, syms)
    case Paren(x) => Grammar(x, 0, syms)
    case Symbol(s, args) => args == [] || (TakesArgs(syms, s) && Arguments(args))
    case _ => true
  }

  // ----- Values

  /** A number of intmax_t or, if unsigned, of uintmax_t. */
  datatype Int = Int(v: int, unsigned: bool)

  function Signed(v: int): Int {
    Int(v, false)
  }

  /** A completion: what every symbol expands to (with its arguments), and which symbols are defined. */
  datatype Env = Env(value: (nat, seq<Token>) -> Int, defined: nat -> bool, odd: bool)

  /** `env` agrees with the command line. `held` is how a number is held by whoever evaluates: as it is for C's widest
      integer type, cut down to an int by unifdef. */
  ghost predicate Completes(env: Env, syms: Symbols, held: (int, bool) -> Int) {
    forall s :: s in syms ==>
      match syms[s]
      case Undefined => !env.defined(s) && forall args :: env.value(s, args) == Signed(0)
      case Number(n) => env.defined(s) && forall args :: env.value(s, args) == held(n, false)
      case NotANumber => env.defined(s)
  }

  function Bit(b: bool): int {
    if b then 1 else 0
  }

  function Operate(op: Op, a: int, b: int): int {
    match op
    case Or => Bit(a != 0 || b != 0)
    case And => Bit(a != 0 && b != 0)
    case Eq => Bit(a == b)
    case Ne => Bit(a != b)
    case Le => Bit(a <= b)
    case Ge => Bit(a >= b)
    case Lt => Bit(a < b)
    case Gt => Bit(a > b)
  }

  /** The usual arithmetic conversions: a comparison with an unsigned operand is one of unsigned numbers. */
  function Converted(a: Int, with: Int): int {
    if a.unsigned || with.unsigned then a.v % 0x1_0000_0000_0000_0000 else a.v
  }

  /** What C makes of an operator; its result is an int. */
  function Combine(op: Op, a: Int, b: Int): Int {
    Signed(if op.Or? || op.And? then Operate(op, a.v, b.v) else Operate(op, Converted(a, b), Converted(b, a)))
  }

  function Value(e: Expr, env: Env, held: (int, bool) -> Int): Int {
    match e
    case Bin(op, l, r) => Combine(op, Value(l, env, held), Value(r, env, held))
    case Negate(x) => Signed(Bit(Value(x, env, held).v == 0))
    case Paren(x) => Value(x, env, held)
    case Lit(n, unsigned) => held(n, unsigned)
    case IsDefined(s, _) => Signed(Bit(env.defined(s)))
    case DefinedNothing(_) => Signed(Bit(env.odd))
    case Symbol(s, args) => env.value(s, args)
  }

  // ----- The grammar is unambiguous: a left-to-right parser inverts Render

  /** `rest` cannot continue an expression of precedence `lvl`. */
  predicate Stops(rest: seq<Token>, lvl: nat) {
    rest == [] || !(rest[0].LParen? || rest[0].Sym? || (rest[0].Oper? && LevelOf(rest[0].op) >= lvl))
  }

  datatype Parsed = Failed | Parsed(e: Expr, rest: seq<Token>)

  function ParseUnary(toks: seq<Token>, syms: Symbols): (r: Parsed)
    ensures r.Parsed? ==> |r.rest| < |toks|
    decreases |toks|, 0
  {
    if toks == [] then Failed else
    match toks[0]
    case Not =>
      (match ParseUnary(toks[1..], syms)
       case Failed => Failed
       case Parsed(x, rest) => Parsed(Negate(x), rest))
    case LParen =>
      (match ParseLevel(0, toks[1..], syms)
       case Failed => Failed
       case Parsed(x, rest) => if rest != [] && rest[0].RParen? then Parsed(Paren(x), rest[1..]) else Failed)
    case Num(n, unsigned) => Parsed(Lit(n, unsigned), toks[1..])
    case Defined =>
      var parens := |toks| > 1 && toks[1].LParen?;
      var i := if parens then 2 else 1;
      var named := i < |toks| && toks[i].Sym?;
      var j := if named then i + 1 else i;
      if parens && !(j < |toks| && toks[j].RParen?) then Failed else
      Parsed(if named then IsDefined(toks[i].name, parens) else DefinedNothing(parens), toks[if parens then j + 1 else j..])
    case Sym(s) =>
      var n := if |toks| > 1 && toks[1].LParen? && TakesArgs(syms, s) then Close(toks[1..], 0) else None;
      if n.None? then Parsed(Symbol(s, []), toks[1..]) else Parsed(Symbol(s, toks[1..][..n.value]), toks[1..][n.value..])
    case _ => Failed
  }

  function ParseLevel(lvl: nat, toks: seq<Token>, syms: Symbols): (r: Parsed)
    requires lvl <= 4
    ensures r.Parsed? ==> |r.rest| < |toks|
    decreases |toks|, 6 - lvl, 0
  {
    if lvl == 4 then ParseUnary(toks, syms) else
    match ParseLevel(lvl + 1, toks, syms)
    case Failed => Failed
    case Parsed(x, rest) => ParseMore(lvl, x, rest, syms)
  }

  /** The operators of one level, folded to the left. */
  function ParseMore(lvl: nat, acc: Expr, toks: seq<Token>, syms: Symbols): (r: Parsed)
    requires lvl < 4
    ensures r.Parsed? ==> |r.rest| <= |toks|
    decreases |toks|, 7, 0
  {
    if toks == [] || !toks[0].Oper? || LevelOf(toks[0].op) != lvl then Parsed(acc, toks) else
    match ParseLevel(lvl + 1, toks[1..], syms)
    case Failed => Failed
    case Parsed(x, rest) => ParseMore(lvl, Bin(toks[0].op, acc, x), rest, syms)
  }

  lemma {:induction false} CloseIsLocal(args: seq<Token>, rest: seq<Token>, level: nat)
    requires Close(args, level) == Some(|args|)
    ensures Close(args + rest, level) == Some(|args|)
    decreases |args|
  {
    assert (args + rest)[1..] == args[1..] + rest;
    var now := if args[0].LParen? then level + 1 else if args[0].RParen? && level > 0 then level - 1 else level;
    if now != 0 {
      CloseIsLocal(args[1..], rest, now);
    }
  }

  lemma {:induction false} CloseTakesPrefix(toks: seq<Token>, level: nat)
    requires Close(toks, level).Some?
    ensures Close(toks[..Close(toks, level).value], level) == Some(Close(toks, level).value)
    decreases |toks|
  {
    var n := Close(toks, level).value;
    var now := if toks[0].LParen? then level + 1 else if toks[0].RParen? && level > 0 then level - 1 else level;
    if now != 0 {
      CloseTakesPrefix(toks[1..], now);
      assert toks[..n][1..] == toks[1..][..n - 1];
    }
  }

  lemma SymbolInverts(e: Expr, rest: seq<Token>, syms: Symbols)
    requires e.Symbol? && Grammar(e, 4, syms) && Stops(rest, 4)
    ensures ParseUnary(Render(e) + rest, syms) == Parsed(e, rest)
  {
    assert (Render(e) + rest)[1..] == e.args + rest;
    if e.args != [] {
      CloseIsLocal(e.args, rest, 0);
      assert (e.args + rest)[..|e.args|] == e.args;
    }
  }

  lemma DefinedInverts(e: Expr, rest: seq<Token>, syms: Symbols)
    requires (e.Lit? || e.IsDefined? || e.DefinedNothing?) && Stops(rest, 4)
    ensures ParseUnary(Render(e) + rest, syms) == Parsed(e, rest)
  {
    var toks := Render(e) + rest;
    assert toks[|Render(e)|..] == rest;
  }

  lemma {:induction false} UnaryInverts(e: Expr, rest: seq<Token>, syms: Symbols)
    requires Grammar(e, 4, syms) && Stops(rest, 4)
    ensures ParseUnary(Render(e) + rest, syms) == Parsed(e, rest)
    decreases e, 0
  {
    if e.Negate? {
      assert (Render(e) + rest)[1..] == Render(e.e) + rest;
      UnaryInverts(e.e, rest, syms);
    } else if e.Paren? {
      var close := [RParen] + rest;
      assert (Render(e) + rest)[1..] == Render(e.e) + close;
      LevelInverts(e.e, 0, close, syms);
    } else if e.Symbol? {
      SymbolInverts(e, rest, syms);
    } else {
      DefinedInverts(e, rest, syms);
    }
  }

  lemma {:induction false} LevelInverts(e: Expr, lvl: nat, rest: seq<Token>, syms: Symbols)
    requires lvl <= 4 && Grammar(e, lvl, syms) && Stops(rest, lvl)
    ensures ParseLevel(lvl, Render(e) + rest, syms) == Parsed(e, rest)
    decreases e, 2 * (4 - lvl) + 1
  {
    if lvl == 4 {
      UnaryInverts(e, rest, syms);
    } else {
      LevelContinues(e, lvl, rest, syms);
    }
  }

  lemma {:induction false} LevelContinues(e: Expr, lvl: nat, rest: seq<Token>, syms: Symbols)
    requires lvl < 4 && Grammar(e, lvl, syms) && Stops(rest, lvl + 1)
    ensures ParseLevel(lvl, Render(e) + rest, syms) == ParseMore(lvl, e, rest, syms)
    decreases e, 2 * (4 - lvl)
  {
    if e.Bin? && LevelOf(e.op) == lvl {
      var more := [Oper(e.op)] + (Render(e.right) + rest);
      LevelContinues(e.left, lvl, more, syms);
      LevelInverts(e.right, lvl + 1, rest, syms);
      BinContinues(e, lvl, more, rest, syms);
    } else {
      LevelInverts(e, lvl + 1, rest, syms);
    }
  }

  lemma BinContinues(e: Expr, lvl: nat, more: seq<Token>, rest: seq<Token>, syms: Symbols)
    requires lvl < 4 && e.Bin? && LevelOf(e.op) == lvl && more == [Oper(e.op)] + (Render(e.right) + rest)
    requires ParseLevel(lvl, Render(e.left) + more, syms) == ParseMore(lvl, e.left, more, syms)
    requires ParseLevel(lvl + 1, Render(e.right) + rest, syms) == Parsed(e.right, rest)
    ensures ParseLevel(lvl, Render(e) + rest, syms) == ParseMore(lvl, e, rest, syms)
  {
    assert Render(e) + rest == Render(e.left) + more;
    assert more[1..] == Render(e.right) + rest;
  }

  /** A token sequence is the text of at most one expression. */
  lemma Unambiguous(e1: Expr, e2: Expr, syms: Symbols)
    requires Grammar(e1, 0, syms) && Grammar(e2, 0, syms) && Render(e1) == Render(e2)
    ensures e1 == e2
  {
    LevelInverts(e1, 0, [], syms);
    LevelInverts(e2, 0, [], syms);
    assert Render(e1) + [] == Render(e2) + [];
  }
}
