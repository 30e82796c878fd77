/** The surface syntax on tokens: what the printer writes for a term, what the
    parser reads, and exactly which terms survive being printed and read back. */
module Syntax {
  import opened Options
  import opened Lang
  import opened Terms

  datatype Tok =
    | Num(value: Double) | Ident(name: string) | PatVar(name: string)
    | Plus | Minus | Star | Slash | Caret | LParen | RParen | Comma
    | Less | LessEq | Greater | GreaterEq | EqEq | NotEq | AndAnd | OrOr | Bang
    | Equals | Arrow | BiArrow | Eof

  /** The interner: the text of a symbol, and the symbol of a text. */
  datatype Names = Names(text: Sym -> string, intern: string -> Sym)

  const INFINITY: Double := 0xFFF0_0000_0000_0000
  const PI: Double := 0xC009_21FB_5444_2D18
  const TAU: Double := 0xC019_21FB_5444_2D18

  /** Some number or infinity, or the one NaN. */
  predicate IsDouble(c: Double) {
    c == NOT_A_NUMBER || 0xFFFF_FFFF_FFFF_FFFF - INFINITY <= c <= INFINITY
  }

  function Negate(c: Double): Double {
    if c == NOT_A_NUMBER || c > 0xFFFF_FFFF_FFFF_FFFF then c else 0xFFFF_FFFF_FFFF_FFFF - c
  }

  /** Below zero, which the negative zero is not. */
  predicate IsNegative(c: Double) {
    c < NEGATIVE_ZERO
  }

  // ----- operators -----

  predicate IsInfix(op: Op) {
    || op.Add? || op.Sub? || op.Mul? || op.Div? || op.Pow?
    || op.Lt? || op.Le? || op.Gt? || op.Ge? || op.Eq? || op.Ne? || op.And? || op.Or?
  }

  function Precedence(op: Op): nat {
    match op
    case Or => 1
    case And => 2
    case Eq => 3 case Ne => 3
    case Lt => 4 case Le => 4 case Gt => 4 case Ge => 4
    case Add => 5 case Sub => 5
    case Mul => 6 case Div => 6
    case Pow => 8
    case _ => 10
  }

  const UNARY_PREC: nat := 7

  /** The binding power asked of the operand to the right. */
  function RightPrec(op: Op): nat {
    if op.Pow? then Precedence(op) else Precedence(op) + 1
  }

  function LeftPrec(op: Op): nat {
    if op.Pow? then Precedence(op) + 1 else Precedence(op)
  }

  function InfixOp(tok: Tok): Option<Op> {
    match tok
    case Plus => Some(Add) case Minus => Some(Sub) case Star => Some(Mul) case Slash => Some(Div)
    case Caret => Some(Pow)
    case Less => Some(Lt) case LessEq => Some(Le) case Greater => Some(Gt) case GreaterEq => Some(Ge)
    case EqEq => Some(Eq) case NotEq => Some(Ne) case AndAnd => Some(And) case OrOr => Some(Or)
    case _ => None
  }

  function InfixTok(op: Op): (tok: Tok)
    requires IsInfix(op)
    ensures InfixOp(tok) == Some(op)
  {
    match op
    case Add => Plus case Sub => Minus case Mul => Star case Div => Slash case Pow => Caret
    case Lt => Less case Le => LessEq case Gt => Greater case Ge => GreaterEq
    case Eq => EqEq case Ne => NotEq case And => AndAnd case Or => OrOr
  }

  /** Written as a call. */
  predicate IsCall(op: Op) {
    !op.Const? && !op.Var? && !op.Neg? && !op.Not? && !IsInfix(op)
  }

  function FnName(op: Op): string {
    match op
    case Min => "min" case Max => "max" case Atan2 => "atan2" case Sqrt => "sqrt" case Ln => "ln" case Exp => "exp"
    case Sin => "sin" case Cos => "cos" case Tan => "tan" case Abs => "abs" case Sign => "sign" case Floor => "floor"
    case Ceil => "ceil" case If => "if" case Diff => "d" case _ => ""
  }

  function FromFnName(name: string): Option<Op> {
    if name == "min" then Some(Min)
    else if name == "max" then Some(Max)
    else if name == "atan2" then Some(Atan2)
    else if name == "neg" then Some(Neg)
    else if name == "sqrt" then Some(Sqrt)
    else if name == "ln" || name == "log" then Some(Ln)
    else if name == "exp" then Some(Exp)
    else if name == "sin" then Some(Sin)
    else if name == "cos" then Some(Cos)
    else if name == "tan" then Some(Tan)
    else if name == "abs" then Some(Abs)
    else if name == "sign" then Some(Sign)
    else if name == "floor" then Some(Floor)
    else if name == "ceil" then Some(Ceil)
    else if name == "if" then Some(If)
    else if name == "d" || name == "diff" then Some(Diff)
    else if name == "pow" then Some(Pow)
    else None
  }

  function NamedConstant(name: string): Option<Double> {
    if name == "pi" || name == "PI" then Some(PI)
    else if name == "tau" || name == "TAU" then Some(TAU)
    else if name == "inf" then Some(INFINITY)
    else if name == "nan" then Some(NOT_A_NUMBER)
    else None
  }

  /** The name of a call is read back as its operator, and is no keyword. */
  lemma FnNameReadsBack(op: Op)
    requires IsCall(op)
    ensures FromFnName(FnName(op)) == Some(op) && FnName(op) != "let" && FnName(op) != "in"
  {
  }

  // ----- printing -----

  /** As many arguments as the operator takes, literals that are doubles, and
      interned names. */
  predicate IsTerm(names: Names, t: Term) {
    && |t.args| == t.op.Arity()
    && (t.op.Const? ==> IsDouble(t.op.c))
    && (t.op.Var? ==> names.intern(names.text(t.op.s)) == t.op.s)
    && (forall k | 0 <= k < |t.args| :: IsTerm(names, t.args[k]))
  }

  /** A literal, unbracketed. NaN is written as a name. */
  function LiteralToks(c: Double): seq<Tok>
    requires IsDouble(c)
  {
    if c == NOT_A_NUMBER then [Ident("NaN")]
    else if c == INFINITY then [Ident("inf")]
    else if c == Negate(INFINITY) then [Minus, Ident("inf")]
    else if c <= NEGATIVE_ZERO then [Minus, Num(Negate(c))]
    else [Num(c)]
  }

  function NameTok(name: string): Tok {
    if name != "" && name[0] == '?' then PatVar(name) else Ident(name)
  }

  function Bracketed(toks: seq<Tok>, brackets: bool): seq<Tok> {
    if brackets then [LParen] + toks + [RParen] else toks
  }

  /** The term binds too loosely for an operand position of this precedence. */
  predicate NeedsBrackets(t: Term, prec: nat) {
    if t.op.Const? then IsNegative(t.op.c) && prec > 0
    else if t.op.Neg? || t.op.Not? then UNARY_PREC < prec
    else IsInfix(t.op) && Precedence(t.op) < prec
  }

  function Print(names: Names, t: Term, prec: nat): seq<Tok>
    requires IsTerm(names, t)
    decreases t, 2
  {
    Bracketed(Bare(names, t), NeedsBrackets(t, prec))
  }

  function Bare(names: Names, t: Term): seq<Tok>
    requires IsTerm(names, t)
    decreases t, 1
  {
    if t.op.Const? then LiteralToks(t.op.c)
    else if t.op.Var? then [NameTok(names.text(t.op.s))]
    else if t.op.Neg? then [Minus] + Print(names, t.args[0], UNARY_PREC)
    else if t.op.Not? then [Bang] + Print(names, t.args[0], UNARY_PREC)
    else if IsInfix(t.op) then
      Print(names, t.args[0], LeftPrec(t.op)) + [InfixTok(t.op)] + Print(names, t.args[1], RightPrec(t.op))
    else [Ident(FnName(t.op)), LParen] + PrintArgs(names, t, 0) + [RParen]
  }

  /** The arguments from `k` on, a comma before each but the first. */
  function PrintArgs(names: Names, t: Term, k: nat): seq<Tok>
    requires IsTerm(names, t) && k <= |t.args|
    decreases t, 0, |t.args| - k
  {
    if k == |t.args| then []
    else (if k > 0 then [Comma] else []) + Print(names, t.args[k], 0) + PrintArgs(names, t, k + 1)
  }

  // ----- parsing -----

  datatype SyntaxError =
    | Expected(want: Tok, got: Tok) | ExpectedName(got: Tok) | ExpectedIn(got: Tok)
    | UnexpectedEnd | Unexpected(tok: Tok) | StrayIn
    | UnknownFunction(name: string) | WrongArity(op: Op, found: nat) | NotAVariable

  datatype Parsed = Done(term: Term, rest: seq<Tok>) | Failed(error: SyntaxError)

  datatype ParsedArgs = Args(terms: seq<Term>, rest: seq<Tok>) | ArgsFailed(error: SyntaxError)

  /** A name bound by `let`, and what it stands for. */
  datatype Binding = Binding(name: string, term: Term)

  /** What the lexer delivers: an end marker, last and nowhere else. */
  predicate Lexed(ts: seq<Tok>) {
    && |ts| > 0
    && (forall i | 0 <= i < |ts| :: ts[i] == Eof <==> i == |ts| - 1)
    && (forall i | 0 <= i < |ts| && ts[i].Num? :: IsDouble(ts[i].value))
  }

  /** The innermost binding of a name. */
  function LookUp(scope: seq<Binding>, name: string): Option<Term> {
    if scope == [] then None
    else if scope[|scope| - 1].name == name then Some(scope[|scope| - 1].term)
    else LookUp(scope[..|scope| - 1], name)
  }

  /** A prefix, then infix operators binding at least as tightly as `min`. */
  function ParseExpr(names: Names, ts: seq<Tok>, min: nat, scope: seq<Binding>): (p: Parsed)
    requires Lexed(ts)
    ensures p.Done? ==> Lexed(p.rest) && |p.rest| < |ts|
    decreases |ts|, 2
  {
    var lhs := ParsePrefix(names, ts, scope);
    if lhs.Failed? then lhs else Absorb(names, lhs.term, lhs.rest, min, scope)
  }

  function Absorb(names: Names, lhs: Term, ts: seq<Tok>, min: nat, scope: seq<Binding>): (p: Parsed)
    requires Lexed(ts)
    ensures p.Done? ==> Lexed(p.rest) && |p.rest| <= |ts|
    decreases |ts|, 0
  {
    var op := InfixOp(ts[0]);
    if op.None? || Precedence(op.value) < min then Done(lhs, ts)
    else
      var rhs := ParseExpr(names, ts[1..], RightPrec(op.value), scope);
      if rhs.Failed? then rhs else Absorb(names, Term(op.value, [lhs, rhs.term]), rhs.rest, min, scope)
  }

  /** Minus on a literal is folded into the literal. */
  function Negated(t: Term): Term {
    if t.op.Const? then Term(Const(Negate(t.op.c)), []) else Term(Neg, [t])
  }

  function ParsePrefix(names: Names, ts: seq<Tok>, scope: seq<Binding>): (p: Parsed)
    requires Lexed(ts)
    ensures p.Done? ==> Lexed(p.rest) && |p.rest| < |ts|
    decreases |ts|, 1
  {
    match ts[0]
    case Minus =>
      var e := ParseExpr(names, ts[1..], UNARY_PREC, scope);
      if e.Failed? then e else Done(Negated(e.term), e.rest)
    case Plus => ParseExpr(names, ts[1..], UNARY_PREC, scope)
    case Bang =>
      var e := ParseExpr(names, ts[1..], UNARY_PREC, scope);
      if e.Failed? then e else Done(Term(Not, [e.term]), e.rest)
    case LParen =>
      var e := ParseExpr(names, ts[1..], 0, scope);
      if e.Failed? then e
      else if e.rest[0] != RParen then Failed(Expected(RParen, e.rest[0]))
      else Done(e.term, e.rest[1..])
    case Num(c) => Done(Term(Const(c), []), ts[1..])
    case PatVar(name) => Done(Term(Var(names.intern(name)), []), ts[1..])
    case Ident(name) => ParseIdent(names, name, ts[1..], scope)
    case Eof => Failed(UnexpectedEnd)
    case _ => Failed(Unexpected(ts[0]))
  }

  /** After a name: a binding, a call, a bound name, a constant or a variable. */
  function ParseIdent(names: Names, name: string, ts: seq<Tok>, scope: seq<Binding>): (p: Parsed)
    requires Lexed(ts)
    ensures p.Done? ==> Lexed(p.rest) && |p.rest| <= |ts|
    decreases |ts|, 4
  {
    if name == "let" then ParseLet(names, ts, scope)
    else if name == "in" then Failed(StrayIn)
    else if ts[0] == LParen then ParseCall(names, name, ts[1..], scope)
    else if LookUp(scope, name).Some? then Done(LookUp(scope, name).value, ts)
    else if NamedConstant(name).Some? then Done(Term(Const(NamedConstant(name).value), []), ts)
    else Done(Term(Var(names.intern(name)), []), ts)
  }

  function ParseCall(names: Names, name: string, ts: seq<Tok>, scope: seq<Binding>): (p: Parsed)
    requires Lexed(ts)
    ensures p.Done? ==> Lexed(p.rest) && |p.rest| < |ts|
    decreases |ts|, 4
  {
    var op := FromFnName(name);
    if op.None? then Failed(UnknownFunction(name))
    else
      CloseCall(op.value, if ts[0] == RParen then Args([], ts) else ParseArgs(names, ts, scope))
  }

  /** After the arguments: the bracket, then their number and kind. */
  function CloseCall(op: Op, args: ParsedArgs): (p: Parsed)
    requires args.Args? ==> Lexed(args.rest)
    ensures p.Done? ==> args.Args? && Lexed(p.rest) && |p.rest| < |args.rest|
  {
    if args.ArgsFailed? then Failed(args.error)
    else if args.rest[0] != RParen then Failed(Expected(RParen, args.rest[0]))
    else if |args.terms| != op.Arity() then Failed(WrongArity(op, |args.terms|))
    else if op.Diff? && !args.terms[0].op.Var? then Failed(NotAVariable)
    else Done(Term(op, args.terms), args.rest[1..])
  }

  /** One or more expressions with commas between. */
  function ParseArgs(names: Names, ts: seq<Tok>, scope: seq<Binding>): (p: ParsedArgs)
    requires Lexed(ts)
    ensures p.Args? ==> Lexed(p.rest) && |p.rest| < |ts|
    decreases |ts|, 3
  {
    var first := ParseExpr(names, ts, 0, scope);
    if first.Failed? then ArgsFailed(first.error)
    else if first.rest[0] != Comma then Args([first.term], first.rest)
    else
      var more := ParseArgs(names, first.rest[1..], scope);
      if more.ArgsFailed? then more else Args([first.term] + more.terms, more.rest)
  }

  /** The name, the bound expression, and the body it is substituted in. */
  function ParseLet(names: Names, ts: seq<Tok>, scope: seq<Binding>): (p: Parsed)
    requires Lexed(ts)
    ensures p.Done? ==> Lexed(p.rest) && |p.rest| < |ts|
    decreases |ts|, 3
  {
    if !ts[0].Ident? then Failed(ExpectedName(ts[0]))
    else if ts[1] != Equals then Failed(Expected(Equals, ts[1]))
    else ParseBinding(names, ts[0].name, ts[2..], scope)
  }

  function ParseBinding(names: Names, name: string, ts: seq<Tok>, scope: seq<Binding>): (p: Parsed)
    requires Lexed(ts)
    ensures p.Done? ==> Lexed(p.rest) && |p.rest| < |ts|
    decreases |ts|, 3
  {
    var bound := ParseExpr(names, ts, 0, scope);
    if bound.Failed? then bound
    else if !bound.rest[0].Ident? then Failed(ExpectedName(bound.rest[0]))
    else if bound.rest[0].name != "in" then Failed(ExpectedIn(bound.rest[0]))
    else ParseExpr(names, bound.rest[1..], 0, scope + [Binding(name, bound.term)])
  }

  /** A whole input: one expression and nothing after it. */
  function Parse(names: Names, ts: seq<Tok>): Parsed
    requires Lexed(ts)
  {
    var e := ParseExpr(names, ts, 0, []);
    if e.Done? && e.rest[0] != Eof then Failed(Expected(Eof, e.rest[0])) else e
  }

  // ----- reading what was printed -----

  /** Taken for a keyword or a constant where it is written as a variable. */
  predicate Reserved(name: string) {
    NameTok(name).Ident? && (name == "let" || name == "in" || NamedConstant(name).Some?)
  }

  /** What the parser makes of a printed term: NaN comes back as a variable,
      reserved names as constants or errors, a minus on a literal is folded, a
      negative zero under `^` loses its minus to the power, and a derivative
      must be by a variable. */
  function Reparsed(names: Names, t: Term): (r: Option<Term>)
    requires IsTerm(names, t)
    decreases t, 1
  {
    if t.op.Const? then
      Some(if t.op.c == NOT_A_NUMBER then Term(Var(names.intern("NaN")), []) else t)
    else if t.op.Var? then
      var name := names.text(t.op.s);
      if !Reserved(name) then Some(t)
      else if NamedConstant(name).Some? then Some(Term(Const(NamedConstant(name).value), []))
      else None
    else
      var args := ReparsedArgs(names, t, 0);
      if args.None? then None
      else if t.op.Neg? then Some(Negated(args.value[0]))
      else if t.op.Pow? && t.args[0].op == Const(NEGATIVE_ZERO) then
        Some(Term(Neg, [Term(Pow, [Term(Const(POSITIVE_ZERO), []), args.value[1]])]))
      else if t.op.Diff? && !args.value[0].op.Var? then None
      else Some(Term(t.op, args.value))
  }

  function ReparsedArgs(names: Names, t: Term, k: nat): (r: Option<seq<Term>>)
    requires IsTerm(names, t) && k <= |t.args|
    ensures r.Some? ==> |r.value| == |t.args| - k
    decreases t, 0, |t.args| - k
  {
    if k == |t.args| then Some([])
    else
      var first := Reparsed(names, t.args[k]);
      var more := ReparsedArgs(names, t, k + 1);
      if first.None? || more.None? then None else Some([first.value] + more.value)
  }

  /** No NaN, no reserved name, no minus on a literal, no negative zero under
      `^`, and derivatives by variables only. */
  predicate Printable(names: Names, t: Term) {
    && (t.op.Const? ==> t.op.c != NOT_A_NUMBER)
    && (t.op.Var? ==> !Reserved(names.text(t.op.s)))
    && (t.op.Neg? && |t.args| == 1 ==> !t.args[0].op.Const?)
    && (t.op.Pow? && |t.args| == 2 ==> t.args[0].op != Const(NEGATIVE_ZERO))
    && (t.op.Diff? && |t.args| == 2 ==> t.args[0].op.Var?)
    && (forall k | 0 <= k < |t.args| :: Printable(names, t.args[k]))
  }

  lemma {:induction false} ReparsedArgsExactly(names: Names, t: Term, k: nat)
    requires IsTerm(names, t) && k <= |t.args|
    ensures ReparsedArgs(names, t, k) == Some(t.args[k..]) <==>
            forall j | k <= j < |t.args| :: Reparsed(names, t.args[j]) == Some(t.args[j])
    decreases |t.args| - k
  {
    hide Reparsed;
    if k == |t.args| {
      assert t.args[k..] == [];
    } else {
      ReparsedArgsExactly(names, t, k + 1);
      var first, more := Reparsed(names, t.args[k]), ReparsedArgs(names, t, k + 1);
      assert t.args[k..] == [t.args[k]] + t.args[k + 1..];
      if first.Some? && more.Some? {
        var all := [first.value] + more.value;
        assert all[0] == first.value && all[1..] == more.value;
      }
    }
  }

  /** The terms that survive are exactly the printable ones. */
  lemma {:induction false} SurvivesExactly(names: Names, t: Term)
    requires IsTerm(names, t)
    ensures Reparsed(names, t) == Some(t) <==> Printable(names, t)
    decreases t
  {
    hide Reserved, NamedConstant, IsDouble;
    forall k | 0 <= k < |t.args|
      ensures Reparsed(names, t.args[k]) == Some(t.args[k]) <==> Printable(names, t.args[k])
    {
      SurvivesExactly(names, t.args[k]);
    }
    if !t.op.Const? && !t.op.Var? {
      ReparsedArgsExactly(names, t, 0);
      var args := ReparsedArgs(names, t, 0);
      if t.op.Neg? && args.Some? {
        assert args.value == [args.value[0]] && t.args == [t.args[0]];
      }
    } else {
      assert t.args == [];
    }
  }
}
