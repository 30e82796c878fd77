/** Printing then parsing: what comes back for every term, and exactly when it
    is the term that was printed. */
module RoundTrips {
  import opened Options
  import opened Lang
  import opened Terms
  import opened Syntax

  /** The token may follow an operand printed at this precedence. */
  predicate Ends(tok: Tok, prec: nat) {
    || tok == RParen || tok == Comma || tok == Eof
    || (InfixOp(tok).Some? && Precedence(InfixOp(tok).value) <= prec && (tok == Caret ==> prec >= 9))
  }

  /** Parsing the tokens leaves the reading as a left operand, or fails. */
  ghost predicate Yields(names: Names, toks: seq<Tok>, min: nat, rest: seq<Tok>, r: Option<Term>) {
    && Lexed(rest) && Lexed(toks + rest)
    && (r.None? ==> ParseExpr(names, toks + rest, min, []).Failed?)
    && (r.Some? ==> ParseExpr(names, toks + rest, min, []) == Absorb(names, r.value, rest, min, []))
  }

  /** The same, of one prefix. */
  ghost predicate Prefixes(names: Names, toks: seq<Tok>, rest: seq<Tok>, r: Option<Term>) {
    && Lexed(rest) && Lexed(toks + rest)
    && (r.None? ==> ParsePrefix(names, toks + rest, []).Failed?)
    && (r.Some? ==> ParsePrefix(names, toks + rest, []) == Done(r.value, rest))
  }

  lemma PrefixYields(names: Names, toks: seq<Tok>, min: nat, rest: seq<Tok>, r: Option<Term>)
    requires Prefixes(names, toks, rest, r)
    ensures Yields(names, toks, min, rest, r)
  {
    hide ParsePrefix, Absorb, Lexed;
  }

  /** No operator here binds as tightly as asked. */
  predicate StopsAt(tok: Tok, min: nat) {
    InfixOp(tok).Some? ==> Precedence(InfixOp(tok).value) < min
  }

  lemma EndsStops(tok: Tok, prec: nat, min: nat)
    requires Ends(tok, prec) && (prec < min || (tok != Caret && min >= UNARY_PREC))
    ensures StopsAt(tok, min) && !tok.Ident? && tok != LParen
  {
  }

  lemma Stops(names: Names, lhs: Term, rest: seq<Tok>, min: nat)
    requires Lexed(rest) && StopsAt(rest[0], min)
    ensures Absorb(names, lhs, rest, min, []) == Done(lhs, rest)
  {
  }

  lemma LexedCons(tok: Tok, rest: seq<Tok>)
    requires Lexed(rest) && tok != Eof && (tok.Num? ==> IsDouble(tok.value))
    ensures Lexed([tok] + rest) && ([tok] + rest)[0] == tok && ([tok] + rest)[1..] == rest
  {
  }

  // ----- leaves -----

  lemma NumReads(names: Names, tok: Tok, c: Double, rest: seq<Tok>)
    requires Lexed(rest) && !rest[0].Ident? && rest[0] != LParen
    requires (tok == Num(c) && IsDouble(c)) || (tok == Ident("inf") && c == INFINITY)
    ensures Prefixes(names, [tok], rest, Some(Term(Const(c), [])))
  {
    LexedCons(tok, rest);
  }

  lemma NameReads(names: Names, name: string, rest: seq<Tok>)
    requires Lexed(rest) && !rest[0].Ident? && rest[0] != LParen
    ensures Reserved(name) && NamedConstant(name).None? ==> Prefixes(names, [NameTok(name)], rest, None)
    ensures Reserved(name) && NamedConstant(name).Some? ==>
              Prefixes(names, [NameTok(name)], rest, Some(Term(Const(NamedConstant(name).value), [])))
    ensures !Reserved(name) ==> Prefixes(names, [NameTok(name)], rest, Some(Term(Var(names.intern(name)), [])))
  {
    hide IsDouble;
    LexedCons(NameTok(name), rest);
    assert LookUp([], name).None?;
    assert ParseLet(names, rest, []).Failed?;
    ghost var p := ParseIdent(names, name, rest, []);
    assert NameTok(name).Ident? ==> ParsePrefix(names, [NameTok(name)] + rest, []) == p;
  }

  /** A minus, then an operand that nothing after it extends. */
  lemma MinusReads(names: Names, toks: seq<Tok>, rest: seq<Tok>, r: Option<Term>)
    requires Yields(names, toks, UNARY_PREC, rest, r) && StopsAt(rest[0], UNARY_PREC)
    ensures Prefixes(names, [Minus] + toks, rest, if r.None? then None else Some(Negated(r.value)))
  {
    hide ParseExpr, Absorb, Lexed, ParseIdent;
    LexedCons(Minus, toks + rest);
    assert [Minus] + toks + rest == [Minus] + (toks + rest);
    if r.Some? {
      Stops(names, r.value, rest, UNARY_PREC);
    }
  }

  lemma BangReads(names: Names, toks: seq<Tok>, rest: seq<Tok>, r: Option<Term>)
    requires Yields(names, toks, UNARY_PREC, rest, r) && StopsAt(rest[0], UNARY_PREC)
    ensures Prefixes(names, [Bang] + toks, rest, if r.None? then None else Some(Term(Not, [r.value])))
  {
    hide ParseExpr, Absorb, Lexed, ParseIdent;
    LexedCons(Bang, toks + rest);
    assert [Bang] + toks + rest == [Bang] + (toks + rest);
    if r.Some? {
      Stops(names, r.value, rest, UNARY_PREC);
    }
  }

  /** Brackets close the operand off. */
  lemma BracketsRead(names: Names, toks: seq<Tok>, rest: seq<Tok>, r: Option<Term>)
    requires Lexed(rest) && Yields(names, toks, 0, [RParen] + rest, r)
    ensures Prefixes(names, Bracketed(toks, true), rest, r)
  {
    hide ParseExpr, Absorb, Lexed, ParseIdent;
    LexedCons(RParen, rest);
    LexedCons(LParen, toks + ([RParen] + rest));
    assert Bracketed(toks, true) + rest == [LParen] + (toks + ([RParen] + rest));
    if r.Some? {
      Stops(names, r.value, [RParen] + rest, 0);
    }
  }

  lemma LiteralReads(names: Names, c: Double, prec: nat, rest: seq<Tok>)
    requires IsDouble(c) && Lexed(rest) && Ends(rest[0], prec) && (c == NEGATIVE_ZERO ==> rest[0] != Caret)
    requires c < NEGATIVE_ZERO ==> prec == 0
    ensures Prefixes(names, LiteralToks(c), rest, Reparsed(names, Term(Const(c), [])))
  {
    hide Prefixes, Yields, ParsePrefix, ParseExpr, Absorb;
    var toks := LiteralToks(c);
    assert !rest[0].Ident? && rest[0] != LParen;
    if c == NOT_A_NUMBER {
      assert NameTok("NaN") == Ident("NaN") && !Reserved("NaN");
      NameReads(names, "NaN", rest);
    } else if toks[0] == Minus {
      EndsStops(rest[0], prec, UNARY_PREC);
      NumReads(names, toks[1], Negate(c), rest);
      PrefixYields(names, [toks[1]], UNARY_PREC, rest, Some(Term(Const(Negate(c)), [])));
      MinusReads(names, [toks[1]], rest, Some(Term(Const(Negate(c)), [])));
      assert toks == [Minus] + [toks[1]];
    } else {
      NumReads(names, toks[0], c, rest);
    }
  }

  // ----- operators -----

  /** A left operand, an operator binding tightly enough, and a right operand
      that nothing after it extends. */
  lemma InfixReads(names: Names, op: Op, left: seq<Tok>, right: seq<Tok>, min: nat, rest: seq<Tok>, l: Option<Term>,
                   r: Option<Term>)
    requires IsInfix(op) && min <= Precedence(op)
    requires Yields(names, right, RightPrec(op), rest, r) && StopsAt(rest[0], RightPrec(op))
    requires Yields(names, left, min, [InfixTok(op)] + right + rest, l)
    ensures Yields(names, left + [InfixTok(op)] + right, min, rest,
                   if l.None? || r.None? then None else Some(Term(op, [l.value, r.value])))
  {
    hide ParseExpr, Lexed, Precedence;
    var after := [InfixTok(op)] + right + rest;
    assert left + [InfixTok(op)] + right + rest == left + after;
    assert after[0] == InfixTok(op) && after[1..] == right + rest;
    if r.Some? {
      Stops(names, r.value, rest, RightPrec(op));
    }
  }

  /** A negative zero under a power, unbracketed: the minus is read last. */
  lemma NegativeZeroReads(names: Names, right: seq<Tok>, min: nat, rest: seq<Tok>, r: Option<Term>)
    requires Yields(names, right, RightPrec(Pow), rest, r) && StopsAt(rest[0], UNARY_PREC)
    ensures Yields(names, LiteralToks(NEGATIVE_ZERO) + [Caret] + right, min, rest,
                   if r.None? then None else Some(Term(Neg, [Term(Pow, [Term(Const(POSITIVE_ZERO), []), r.value])])))
  {
    hide ParseExpr, Lexed, Absorb;
    var zero := Some(Term(Const(POSITIVE_ZERO), []));
    var power := if r.None? then None else Some(Term(Pow, [zero.value, r.value]));
    LexedCons(Caret, right + rest);
    assert [Caret] + right + rest == [Caret] + (right + rest);
    NumReads(names, Num(POSITIVE_ZERO), POSITIVE_ZERO, [Caret] + right + rest);
    PrefixYields(names, [Num(POSITIVE_ZERO)], UNARY_PREC, [Caret] + right + rest, zero);
    InfixReads(names, Pow, [Num(POSITIVE_ZERO)], right, UNARY_PREC, rest, zero, r);
    MinusReads(names, [Num(POSITIVE_ZERO)] + [Caret] + right, rest, power);
    assert LiteralToks(NEGATIVE_ZERO) + [Caret] + right == [Minus] + ([Num(POSITIVE_ZERO)] + [Caret] + right);
    PrefixYields(names, LiteralToks(NEGATIVE_ZERO) + [Caret] + right, min, rest,
                 if r.None? then None else Some(Term(Neg, [power.value])));
  }

  // ----- calls -----

  /** An argument, then the rest of them if a comma follows. */
  ghost predicate ArgsYield(names: Names, toks: seq<Tok>, rest: seq<Tok>, r: Option<seq<Term>>) {
    && Lexed(rest) && Lexed(toks + rest)
    && (r.None? ==> ParseArgs(names, toks + rest, []).ArgsFailed?)
    && (r.Some? ==> ParseArgs(names, toks + rest, []) == Args(r.value, rest))
  }

  lemma LastArgReads(names: Names, toks: seq<Tok>, rest: seq<Tok>, r: Option<Term>)
    requires Yields(names, toks, 0, rest, r) && rest[0] == RParen
    ensures ArgsYield(names, toks, rest, if r.None? then None else Some([r.value]))
  {
    hide ParseExpr, Lexed, Absorb;
    if r.Some? {
      Stops(names, r.value, rest, 0);
    }
  }

  lemma NextArgReads(names: Names, toks: seq<Tok>, more: seq<Tok>, rest: seq<Tok>, r: Option<Term>,
                     rs: Option<seq<Term>>)
    requires ArgsYield(names, more, rest, rs) && Yields(names, toks, 0, [Comma] + more + rest, r)
    ensures ArgsYield(names, toks + ([Comma] + more), rest,
                      if r.None? || rs.None? then None else Some([r.value] + rs.value))
  {
    hide ParseExpr, Lexed, Absorb;
    var after := [Comma] + more + rest;
    assert toks + ([Comma] + more) + rest == toks + after;
    assert after[0] == Comma && after[1..] == more + rest;
    if r.Some? {
      Stops(names, r.value, after, 0);
    }
  }

  lemma CallReads(names: Names, op: Op, toks: seq<Tok>, rest: seq<Tok>, rs: Option<seq<Term>>)
    requires IsCall(op) && Lexed(rest) && toks != [] && toks[0] != RParen && (rs.Some? ==> |rs.value| == op.Arity())
    requires ArgsYield(names, toks, [RParen] + rest, rs)
    ensures Prefixes(names, [Ident(FnName(op)), LParen] + toks + [RParen], rest,
                     if rs.None? || (op.Diff? && !rs.value[0].op.Var?) then None else Some(Term(op, rs.value)))
  {
    hide ParseExpr, Lexed, Absorb, ParseArgs, FnName, FromFnName, ParseCall, NamedConstant;
    FnNameReadsBack(op);
    var inner := toks + ([RParen] + rest);
    LexedCons(LParen, inner);
    LexedCons(Ident(FnName(op)), [LParen] + inner);
    assert [Ident(FnName(op)), LParen] + toks + [RParen] + rest == [Ident(FnName(op))] + ([LParen] + inner);
    assert ([RParen] + rest)[1..] == rest;
    assert inner[0] == toks[0];
    CallIsParsed(names, op, inner, [RParen] + rest, rs);
    assert ParsePrefix(names, [Ident(FnName(op))] + ([LParen] + inner), [])
        == ParseIdent(names, FnName(op), [LParen] + inner, []);
  }

  lemma CallIsParsed(names: Names, op: Op, inner: seq<Tok>, after: seq<Tok>, rs: Option<seq<Term>>)
    requires IsCall(op) && Lexed(inner) && Lexed(after) && inner[0] != RParen && after[0] == RParen
    requires rs.Some? ==> |rs.value| == op.Arity() && ParseArgs(names, inner, []) == Args(rs.value, after)
    requires rs.None? ==> ParseArgs(names, inner, []).ArgsFailed?
    ensures var p := ParseCall(names, FnName(op), inner, []);
            if rs.None? || (op.Diff? && !rs.value[0].op.Var?) then p.Failed?
            else p == Done(Term(op, rs.value), after[1..])
  {
    hide ParseArgs, FnName, FromFnName;
    FnNameReadsBack(op);
  }

  // ----- terms -----

  /** Every printed term reads back as its reading, wherever an operand of its
      precedence may stand. */
  lemma {:induction false} PrintedReads(names: Names, t: Term, prec: nat, min: nat, rest: seq<Tok>)
    requires IsTerm(names, t) && Lexed(rest) && Ends(rest[0], prec) && min <= prec
    requires t.op == Const(NEGATIVE_ZERO) ==> rest[0] != Caret
    ensures Yields(names, Print(names, t, prec), min, rest, Reparsed(names, t))
    decreases t, 3
  {
    hide Yields, Prefixes, Lexed, Reparsed, Bare;
    var toks := Bare(names, t);
    if NeedsBrackets(t, prec) {
      LexedCons(RParen, rest);
      BareReads(names, t, 0, 0, [RParen] + rest);
      BracketsRead(names, toks, rest, Reparsed(names, t));
      PrefixYields(names, Bracketed(toks, true), min, rest, Reparsed(names, t));
    } else {
      BareReads(names, t, prec, min, rest);
    }
  }

  lemma {:induction false} BareReads(names: Names, t: Term, prec: nat, min: nat, rest: seq<Tok>)
    requires IsTerm(names, t) && Lexed(rest) && Ends(rest[0], prec) && min <= prec && !NeedsBrackets(t, prec)
    requires t.op == Const(NEGATIVE_ZERO) ==> rest[0] != Caret
    ensures Yields(names, Bare(names, t), min, rest, Reparsed(names, t))
    decreases t, 2
  {
    hide Yields, Prefixes, NamedConstant, LiteralToks, Print, PrintArgs, FnName;
    var toks := Bare(names, t);
    var r := Reparsed(names, t);
    if t.op.Const? {
      LiteralReads(names, t.op.c, prec, rest);
      PrefixYields(names, toks, min, rest, r);
    } else if t.op.Var? {
      NameReads(names, names.text(t.op.s), rest);
      PrefixYields(names, toks, min, rest, r);
    } else if t.op.Neg? || t.op.Not? {
      EndsStops(rest[0], prec, UNARY_PREC);
      UnaryReads(names, t, min, prec, rest);
    } else if IsInfix(t.op) {
      BinaryReads(names, t, min, prec, rest);
    } else {
      LexedCons(RParen, rest);
      ArgsRead(names, t, 0, rest);
      CommaBefore(names, t, 0);
      PrintStarts(names, t.args[0], 0);
      CallReads(names, t.op, PrintArgs(names, t, 0), rest, ReparsedArgs(names, t, 0));
      PrefixYields(names, toks, min, rest, r);
    }
  }

  lemma {:induction false} UnaryReads(names: Names, t: Term, min: nat, prec: nat, rest: seq<Tok>)
    requires IsTerm(names, t) && (t.op.Neg? || t.op.Not?) && Lexed(rest) && StopsAt(rest[0], UNARY_PREC)
    requires Ends(rest[0], prec) && prec <= UNARY_PREC
    ensures Yields(names, Bare(names, t), min, rest, Reparsed(names, t))
    decreases t, 1
  {
    hide Yields, Prefixes, Lexed, Print;
    var u := t.args[0];
    PrintedReads(names, u, UNARY_PREC, UNARY_PREC, rest);
    assert t.args == [u];
    assert ReparsedArgs(names, t, 1) == Some([]);
    var r := Reparsed(names, u);
    assert ReparsedArgs(names, t, 0) == if r.None? then None else Some([r.value] + []);
    assert r.Some? ==> [r.value] + [] == [r.value];
    if t.op.Neg? {
      MinusReads(names, Print(names, u, UNARY_PREC), rest, r);
    } else {
      BangReads(names, Print(names, u, UNARY_PREC), rest, r);
    }
    PrefixYields(names, Bare(names, t), min, rest, Reparsed(names, t));
  }

  lemma {:induction false} BinaryReads(names: Names, t: Term, min: nat, prec: nat, rest: seq<Tok>)
    requires IsTerm(names, t) && IsInfix(t.op) && Lexed(rest) && Ends(rest[0], prec) && min <= prec <= Precedence(t.op)
    ensures Yields(names, Bare(names, t), min, rest, Reparsed(names, t))
    decreases t, 1
  {
    hide Yields, Prefixes, LiteralToks, Print, InfixTok, Ends, StopsAt, RightPrec, Precedence;
    var op := t.op;
    var l, r := Reparsed(names, t.args[0]), Reparsed(names, t.args[1]);
    var left, right := Print(names, t.args[0], LeftPrec(op)), Print(names, t.args[1], RightPrec(op));
    EndsLater(rest[0], prec, op);
    PrintedReads(names, t.args[1], RightPrec(op), RightPrec(op), rest);
    PairReparsed(names, t);
    if op.Pow? && t.args[0].op == Const(NEGATIVE_ZERO) {
      NegativeZeroReads(names, right, min, rest, r);
      NegativeZeroPrints(names, t.args[0], LeftPrec(op));
    } else {
      YieldsLexed(names, right, RightPrec(op), rest, r);
      LexedCons(InfixTok(op), right + rest);
      assert [InfixTok(op)] + right + rest == [InfixTok(op)] + (right + rest);
      PrintedReads(names, t.args[0], LeftPrec(op), min, [InfixTok(op)] + right + rest);
      InfixReads(names, op, left, right, min, rest, l, r);
    }
  }

  lemma NegativeZeroPrints(names: Names, t: Term, prec: nat)
    requires IsTerm(names, t) && t.op == Const(NEGATIVE_ZERO)
    ensures Print(names, t, prec) == LiteralToks(NEGATIVE_ZERO)
  {
  }

  lemma YieldsLexed(names: Names, toks: seq<Tok>, min: nat, rest: seq<Tok>, r: Option<Term>)
    requires Yields(names, toks, min, rest, r)
    ensures Lexed(toks + rest)
  {
  }

  lemma LooseTok(tok: Tok, prec: nat)
    requires Ends(tok, prec) && prec <= 8
    ensures tok != Caret && StopsAt(tok, UNARY_PREC)
    ensures StopsAt(tok, prec + 1) && Ends(tok, prec + 1) && Ends(tok, 8)
  {
  }

  lemma InfixTokEnds(op: Op)
    requires IsInfix(op)
    ensures Ends(InfixTok(op), LeftPrec(op)) && (InfixTok(op) == Caret <==> op.Pow?) && Precedence(op) <= 8
    ensures RightPrec(op) == if op.Pow? then 8 else Precedence(op) + 1
  {
  }

  lemma EndsMore(tok: Tok, prec: nat, more: nat)
    requires Ends(tok, prec) && prec <= more
    ensures Ends(tok, more)
  {
  }

  lemma StopsMore(tok: Tok, min: nat, more: nat)
    requires StopsAt(tok, min) && min <= more
    ensures StopsAt(tok, more)
  {
  }

  /** What may follow an operation may follow its right operand, and its own
      token may follow its left. */
  lemma EndsLater(tok: Tok, prec: nat, op: Op)
    requires Ends(tok, prec) && IsInfix(op) && prec <= Precedence(op)
    ensures Ends(tok, RightPrec(op)) && StopsAt(tok, RightPrec(op)) && tok != Caret && StopsAt(tok, UNARY_PREC)
    ensures Ends(InfixTok(op), LeftPrec(op)) && (InfixTok(op) == Caret <==> op.Pow?)
  {
    hide Ends, StopsAt, InfixTok, LeftPrec, RightPrec, Precedence;
    InfixTokEnds(op);
    LooseTok(tok, prec);
    EndsMore(tok, prec, RightPrec(op));
    StopsMore(tok, if op.Pow? then UNARY_PREC else prec + 1, RightPrec(op));
  }

  lemma PairReparsed(names: Names, t: Term)
    requires IsTerm(names, t) && |t.args| == 2
    ensures var l, r := Reparsed(names, t.args[0]), Reparsed(names, t.args[1]);
            ReparsedArgs(names, t, 0) == if l.None? || r.None? then None else Some([l.value, r.value])
  {
    hide Reparsed;
    var l, r := Reparsed(names, t.args[0]), Reparsed(names, t.args[1]);
    assert ReparsedArgs(names, t, 2) == Some([]);
    assert ReparsedArgs(names, t, 1) == if r.None? then None else Some([r.value] + []);
    assert l.Some? && r.Some? ==> [l.value] + ([r.value] + []) == [l.value, r.value];
  }

  /** The tokens of the arguments from `k` on, without the comma before. */
  function ArgToks(names: Names, t: Term, k: nat): seq<Tok>
    requires IsTerm(names, t) && k < |t.args|
  {
    Print(names, t.args[k], 0) + PrintArgs(names, t, k + 1)
  }

  lemma CommaBefore(names: Names, t: Term, k: nat)
    requires IsTerm(names, t) && k < |t.args|
    ensures PrintArgs(names, t, k) == (if k > 0 then [Comma] + ArgToks(names, t, k) else ArgToks(names, t, k))
  {
  }

  lemma {:induction false} ArgsRead(names: Names, t: Term, k: nat, rest: seq<Tok>)
    requires IsTerm(names, t) && k < |t.args| && Lexed(rest) && Lexed([RParen] + rest)
    ensures ArgsYield(names, ArgToks(names, t, k), [RParen] + rest, ReparsedArgs(names, t, k))
    decreases t, 0, |t.args| - k
  {
    hide Yields, Prefixes, Lexed, ArgsYield, Print, Reparsed;
    var toks := Print(names, t.args[k], 0);
    var r := Reparsed(names, t.args[k]);
    if k + 1 == |t.args| {
      PrintedReads(names, t.args[k], 0, 0, [RParen] + rest);
      LastArgReads(names, toks, [RParen] + rest, r);
      assert ArgToks(names, t, k) == toks && ReparsedArgs(names, t, k + 1) == Some([]);
      assert r.Some? ==> [r.value] + [] == [r.value];
    } else {
      var more := ArgToks(names, t, k + 1);
      var rs := ReparsedArgs(names, t, k + 1);
      ArgsRead(names, t, k + 1, rest);
      ArgsLexed(names, more, [RParen] + rest, rs);
      LexedCons(Comma, more + ([RParen] + rest));
      assert [Comma] + more + ([RParen] + rest) == [Comma] + (more + ([RParen] + rest));
      PrintedReads(names, t.args[k], 0, 0, [Comma] + more + ([RParen] + rest));
      NextArgReads(names, toks, more, [RParen] + rest, r, rs);
      CommaBefore(names, t, k + 1);
    }
  }

  lemma ArgsLexed(names: Names, toks: seq<Tok>, rest: seq<Tok>, r: Option<seq<Term>>)
    requires ArgsYield(names, toks, rest, r)
    ensures Lexed(toks + rest)
  {
  }

  lemma PrintStarts(names: Names, t: Term, prec: nat)
    requires IsTerm(names, t)
    ensures Print(names, t, prec) != [] && Print(names, t, prec)[0] != RParen
    decreases t
  {
    if IsInfix(t.op) {
      PrintStarts(names, t.args[0], LeftPrec(t.op));
    }
  }

  // ----- the round trip -----

  /** Printing a term and parsing the tokens gives its reading. */
  lemma PrintThenParse(names: Names, t: Term)
    requires IsTerm(names, t)
    ensures Lexed(Print(names, t, 0) + [Eof])
    ensures var p := Parse(names, Print(names, t, 0) + [Eof]);
            match Reparsed(names, t) case None => p.Failed? case Some(u) => p == Done(u, [Eof])
  {
    hide ParseExpr, Print, Absorb;
    PrintedReads(names, t, 0, 0, [Eof]);
    if Reparsed(names, t).Some? {
      Stops(names, Reparsed(names, t).value, [Eof], 0);
    }
  }

  /** A term comes back unchanged exactly when it is printable. */
  lemma RoundTripsExactly(names: Names, t: Term)
    requires IsTerm(names, t)
    ensures Lexed(Print(names, t, 0) + [Eof])
    ensures Parse(names, Print(names, t, 0) + [Eof]) == Done(t, [Eof]) <==> Printable(names, t)
  {
    hide Parse, Print, Reparsed;
    PrintThenParse(names, t);
    SurvivesExactly(names, t);
  }

  /** A negative zero under a power, which the printer leaves unbracketed. */
  lemma NegativeZeroUnderPower(names: Names)
    ensures var zero := Term(Const(NEGATIVE_ZERO), []);
            var t := Term(Pow, [zero, zero]);
            && IsTerm(names, t)
            && Lexed(Print(names, t, 0) + [Eof])
            && Parse(names, Print(names, t, 0) + [Eof]) ==
                 Done(Term(Neg, [Term(Pow, [Term(Const(POSITIVE_ZERO), []), zero])]), [Eof])
  {
    var zero := Term(Const(NEGATIVE_ZERO), []);
    var t := Term(Pow, [zero, zero]);
    assert IsTerm(names, zero);
    assert Reparsed(names, zero) == Some(zero);
    PairReparsed(names, t);
    PrintThenParse(names, t);
  }
}
