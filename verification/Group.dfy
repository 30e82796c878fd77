/** How infix operators group, said without binding powers: the parser against a
    layered reference. */
module Grouping {
  import opened Options
  import opened Lang
  import opened Terms
  import opened Syntax
  import opened RoundTrips

  /** The layers of left-associative operators, the loosest first. Powers are
      tighter than all of them and than a sign, and associate to the right. */
  const LAYERS: seq<set<Op>> := [{Or}, {And}, {Eq, Ne}, {Lt, Le, Gt, Ge}, {Add, Sub}, {Mul, Div}]

  /** Signs, then the tokens of something that is an operand on its own. */
  datatype Operand = Operand(signs: seq<Tok>, toks: seq<Tok>, term: Term)

  /** An operator and the operand to its right. */
  datatype Link = Link(op: Op, right: Operand)

  predicate IsSign(tok: Tok) {
    tok == Minus || tok == Plus || tok == Bang
  }

  /** The token does not belong to the operand before it. */
  predicate IsAfter(tok: Tok) {
    InfixOp(tok).Some? || tok == RParen || tok == Comma || tok == Eof
  }

  /** The tokens are read as the term, whatever comes after them. */
  ghost predicate IsOperand(names: Names, o: Operand) {
    && (forall i | 0 <= i < |o.signs| :: IsSign(o.signs[i]))
    && forall rest | Lexed(rest) && Lexed(o.toks + rest) && IsAfter(rest[0]) ::
      ParsePrefix(names, o.toks + rest, []) == Done(o.term, rest)
  }

  ghost predicate IsChain(names: Names, o: Operand, links: seq<Link>) {
    IsOperand(names, o) && forall i | 0 <= i < |links| :: IsInfix(links[i].op) && IsOperand(names, links[i].right)
  }

  /** The tokens of operands with operators between them. */
  function ChainToks(o: Operand, links: seq<Link>): seq<Tok>
    requires forall i | 0 <= i < |links| :: IsInfix(links[i].op)
    decreases |links|
  {
    o.signs + o.toks + if links == [] then [] else [InfixTok(links[0].op)] + ChainToks(links[0].right, links[1..])
  }

  /** The signs applied, the last one first. */
  function Signed(signs: seq<Tok>, t: Term): Term {
    if signs == [] then t
    else
      var inner := Signed(signs[1..], t);
      if signs[0] == Minus then Negated(inner) else if signs[0] == Bang then Term(Not, [inner]) else inner
  }

  predicate Uses(links: seq<Link>, layer: set<Op>) {
    exists i | 0 <= i < |links| :: links[i].op in layer
  }

  /** The last operator of the layer. */
  function LastOf(links: seq<Link>, layer: set<Op>): (k: nat)
    requires Uses(links, layer)
    ensures k < |links| && links[k].op in layer
    ensures forall i | k < i < |links| :: links[i].op !in layer
  {
    if links[|links| - 1].op in layer then |links| - 1 else LastOf(links[..|links| - 1], layer)
  }

  /** The term a chain stands for: split at the last operator of the loosest layer
      used; what has powers only is a power of the first operand, and its signs
      apply to that power. */
  function Grouped(o: Operand, links: seq<Link>, layer: nat): Term
    requires layer <= |LAYERS|
    decreases |links|, |LAYERS| - layer
  {
    if links == [] then Signed(o.signs, o.term)
    else if layer == |LAYERS| then
      Signed(o.signs, Term(Pow, [o.term, Grouped(links[0].right, links[1..], layer)]))
    else if Uses(links, LAYERS[layer]) then
      var k := LastOf(links, LAYERS[layer]);
      Term(links[k].op, [Grouped(o, links[..k], layer), Grouped(links[k].right, links[k + 1..], layer + 1)])
    else Grouped(o, links, layer + 1)
  }

  // ----- the parser against it -----

  /** The operator is of this layer or a tighter one. */
  predicate IsFrom(op: Op, layer: nat) {
    op.Pow? || exists j | layer <= j < |LAYERS| :: op in LAYERS[j]
  }

  predicate AllFrom(links: seq<Link>, layer: nat) {
    forall i | 0 <= i < |links| :: IsFrom(links[i].op, layer)
  }

  lemma {:induction false} LayerBinds(op: Op, j: nat)
    requires j < |LAYERS| && op in LAYERS[j]
    ensures IsInfix(op) && Precedence(op) == j + 1 && RightPrec(op) == j + 2
  {
  }

  lemma {:induction false} FromBinds(op: Op, layer: nat)
    requires IsFrom(op, layer) && layer <= |LAYERS|
    ensures IsInfix(op) && Precedence(op) > layer
  {
    if !op.Pow? {
      var j :| layer <= j < |LAYERS| && op in LAYERS[j];
      LayerBinds(op, j);
    }
  }

  lemma {:induction false} EveryInfixIsFrom(op: Op)
    requires IsInfix(op)
    ensures IsFrom(op, 0)
  {
    assert op.Or? ==> op in LAYERS[0];
    assert op.And? ==> op in LAYERS[1];
    assert op.Eq? || op.Ne? ==> op in LAYERS[2];
    assert op.Lt? || op.Le? || op.Gt? || op.Ge? ==> op in LAYERS[3];
    assert op.Add? || op.Sub? ==> op in LAYERS[4];
    assert op.Mul? || op.Div? ==> op in LAYERS[5];
  }

  /** The token after a chain is not absorbed by an operand in it. */
  predicate Fits(tok: Tok, o: Operand, links: seq<Link>) {
    IsAfter(tok) && (InfixOp(tok).Some? ==>
      && (links == [] && o.signs != [] ==> Precedence(InfixOp(tok).value) < UNARY_PREC)
      && forall i | 0 <= i < |links| :: Precedence(InfixOp(tok).value) < RightPrec(links[i].op))
  }

  lemma {:induction false} LexedTail(xs: seq<Tok>, ys: seq<Tok>)
    requires Lexed(xs + ys) && ys != []
    ensures Lexed(ys)
  {
    forall i | 0 <= i < |ys|
      ensures (ys[i] == Eof <==> i == |ys| - 1) && (ys[i].Num? ==> IsDouble(ys[i].value))
    {
      assert ys[i] == (xs + ys)[|xs| + i];
    }
  }

  lemma {:induction false} SplitToks(o: Operand, links: seq<Link>, k: nat)
    requires (forall i | 0 <= i < |links| :: IsInfix(links[i].op)) && k < |links|
    ensures ChainToks(o, links)
              == ChainToks(o, links[..k]) + [InfixTok(links[k].op)] + ChainToks(links[k].right, links[k + 1..])
    decreases k
  {
    if k > 0 {
      SplitToks(links[0].right, links[1..], k - 1);
      assert links[1..][..k - 1] == links[..k][1..] && links[1..][k..] == links[k + 1..];
      assert links[..k][0] == links[0];
    }
  }

  /** A sign before an operand that nothing after it extends. */
  lemma {:induction false} SignReads(names: Names, sign: Tok, toks: seq<Tok>, rest: seq<Tok>, t: Term)
    requires IsSign(sign) && Yields(names, toks, UNARY_PREC, rest, Some(t)) && StopsAt(rest[0], UNARY_PREC)
    ensures Prefixes(names, [sign] + toks, rest, Some(Signed([sign], t)))
  {
    hide ParseExpr, Absorb, Lexed, ParseIdent;
    assert Signed([], t) == t && [sign][1..] == [];
    if sign == Minus {
      MinusReads(names, toks, rest, Some(t));
    } else if sign == Bang {
      BangReads(names, toks, rest, Some(t));
    } else {
      LexedCons(Plus, toks + rest);
      assert [Plus] + toks + rest == [Plus] + (toks + rest);
      Stops(names, t, rest, UNARY_PREC);
    }
  }

  lemma {:induction false} SignedFirst(signs: seq<Tok>, t: Term)
    requires signs != []
    ensures Signed(signs, t) == Signed([signs[0]], Signed(signs[1..], t))
  {
    assert [signs[0]][1..] == [];
    assert Signed([], Signed(signs[1..], t)) == Signed(signs[1..], t);
  }

  lemma {:induction false} OperandReads(names: Names, o: Operand, rest: seq<Tok>)
    requires IsOperand(names, o) && Lexed(rest) && Lexed(o.signs + o.toks + rest) && Fits(rest[0], o, [])
    ensures Prefixes(names, o.signs + o.toks, rest, Some(Signed(o.signs, o.term)))
    decreases |o.signs|
  {
    hide ParsePrefix, Lexed;
    if o.signs == [] {
      assert o.signs + o.toks == o.toks;
    } else {
      var inner := o.(signs := o.signs[1..]);
      var toks := inner.signs + inner.toks;
      assert o.signs + o.toks == [o.signs[0]] + toks;
      assert [o.signs[0]] + toks + rest == [o.signs[0]] + (toks + rest);
      LexedTail([o.signs[0]], toks + rest);
      OperandReads(names, inner, rest);
      PrefixYields(names, toks, UNARY_PREC, rest, Some(Signed(inner.signs, o.term)));
      SignReads(names, o.signs[0], toks, rest, Signed(inner.signs, o.term));
      SignedFirst(o.signs, o.term);
    }
  }

  /** The binding power a chain of such operators may be read at. */
  function LoosestOf(layer: nat): nat {
    if layer >= |LAYERS| then 8 else layer + 1
  }

  /** The parser reads a chain as the term it stands for. */
  lemma {:induction false} ChainReads(names: Names, o: Operand, links: seq<Link>, layer: nat, min: nat, rest: seq<Tok>)
    requires IsChain(names, o, links) && layer <= |LAYERS| && AllFrom(links, layer) && min <= LoosestOf(layer)
    requires Lexed(rest) && Lexed(ChainToks(o, links) + rest) && Fits(rest[0], o, links)
    ensures Yields(names, ChainToks(o, links), min, rest, Some(Grouped(o, links, layer)))
    decreases |links|, |LAYERS| - layer, |o.signs|, 1
  {
    hide Yields, Prefixes, Lexed, IsOperand, Fits;
    if links == [] {
      assert ChainToks(o, links) == o.signs + o.toks;
      OperandReads(names, o, rest);
      PrefixYields(names, o.signs + o.toks, min, rest, Some(Signed(o.signs, o.term)));
    } else if layer == |LAYERS| {
      PowersRead(names, o, links, min, rest);
    } else if Uses(links, LAYERS[layer]) {
      LayerReads(names, o, links, layer, min, rest);
    } else {
      assert AllFrom(links, layer + 1);
      ChainReads(names, o, links, layer + 1, min, rest);
    }
  }

  /** What follows an operator, and what precedes it, is lexed. */
  lemma {:induction false} LexedAround(left: seq<Tok>, tok: Tok, right: seq<Tok>, rest: seq<Tok>)
    requires Lexed(left + [tok] + right + rest) && Lexed(rest)
    ensures left + [tok] + right + rest == left + ([tok] + right + rest)
    ensures Lexed([tok] + right + rest) && ([tok] + right + rest)[0] == tok && Lexed(right + rest)
    ensures Lexed(left + ([tok] + right + rest))
  {
    assert left + [tok] + right + rest == left + ([tok] + right + rest);
    LexedTail(left, [tok] + right + rest);
    assert [tok] + right + rest == [tok] + (right + rest);
    LexedTail([tok], right + rest);
  }

  lemma {:induction false} JoinReads(names: Names, op: Op, left: seq<Tok>, right: seq<Tok>, min: nat, rest: seq<Tok>,
                                     l: Term, r: Term)
    requires IsInfix(op) && min <= Precedence(op) && Lexed(rest)
    requires Yields(names, right, RightPrec(op), rest, Some(r)) && StopsAt(rest[0], RightPrec(op))
    requires Yields(names, left, min, [InfixTok(op)] + right + rest, Some(l))
    ensures Yields(names, left + [InfixTok(op)] + right, min, rest, Some(Term(op, [l, r])))
  {
    hide Yields, Lexed, StopsAt, Precedence;
    InfixReads(names, op, left, right, min, rest, Some(l), Some(r));
  }

  /** Powers only: the first operand to the power of the rest, signs last. */
  lemma {:induction false} PowersRead(names: Names, o: Operand, links: seq<Link>, min: nat, rest: seq<Tok>)
    requires IsChain(names, o, links) && links != [] && AllFrom(links, |LAYERS|) && min <= 8
    requires Lexed(rest) && Lexed(ChainToks(o, links) + rest) && Fits(rest[0], o, links)
    ensures Yields(names, ChainToks(o, links), min, rest, Some(Grouped(o, links, |LAYERS|)))
    decreases |links|, 0, |o.signs|, 0
  {
    assert rest != [] && links[0].op == Pow;
    FitsStops(rest[0], o, links);
    hide Yields, Prefixes, Lexed, IsOperand, ParseExpr, Absorb, Fits, StopsAt;
    var right, power := ChainToks(links[0].right, links[1..]), Grouped(links[0].right, links[1..], |LAYERS|);
    if o.signs != [] {
      SignedPowersRead(names, o, links, min, rest);
    } else {
      PowerIsPlain(o, links);
      hide Grouped, ChainToks;
      LexedAround(o.toks, Caret, right, rest);
      PowerBase(names, o, min, right, rest);
      ChainReads(names, links[0].right, links[1..], |LAYERS|, 8, rest);
      JoinReads(names, Pow, o.toks, right, min, rest, o.term, power);
    }
  }

  lemma {:induction false} PowerIsPlain(o: Operand, links: seq<Link>)
    requires (forall i | 0 <= i < |links| :: IsInfix(links[i].op)) && links != [] && links[0].op == Pow && o.signs == []
    ensures ChainToks(o, links) == o.toks + [Caret] + ChainToks(links[0].right, links[1..])
    ensures Grouped(o, links, |LAYERS|) == Term(Pow, [o.term, Grouped(links[0].right, links[1..], |LAYERS|)])
  {
    var right := ChainToks(links[0].right, links[1..]);
    assert ChainToks(o, links) == [] + o.toks + ([Caret] + right) == o.toks + [Caret] + right;
  }

  lemma {:induction false} SignedPowersRead(names: Names, o: Operand, links: seq<Link>, min: nat, rest: seq<Tok>)
    requires IsChain(names, o, links) && links != [] && AllFrom(links, |LAYERS|) && o.signs != []
    requires Lexed(rest) && Lexed(ChainToks(o, links) + rest) && Fits(rest[0], o, links)
    ensures Yields(names, ChainToks(o, links), min, rest, Some(Grouped(o, links, |LAYERS|)))
    decreases |links|, 0, |o.signs| - 1, 2
  {
    assert rest != [];
    FitsStops(rest[0], o, links);
    hide Yields, Prefixes, Lexed, IsOperand, ParseExpr, Absorb, Fits, StopsAt;
    var inner := o.(signs := o.signs[1..]);
    InnerIsOperand(names, o);
    var power := Term(Pow, [o.term, Grouped(links[0].right, links[1..], |LAYERS|)]);
    assert Grouped(o, links, |LAYERS|) == Signed(o.signs, power);
    assert Grouped(inner, links, |LAYERS|) == Signed(inner.signs, power);
    SignIsFirst(o, links, rest);
    assert Fits(rest[0], inner, links) by {
      FitsSame(rest[0], o, inner, links);
    }
    hide Grouped, ChainToks, Signed;
    ChainReads(names, inner, links, |LAYERS|, UNARY_PREC, rest);
    SignedFirst(o.signs, power);
    SignReads(names, o.signs[0], ChainToks(inner, links), rest, Grouped(inner, links, |LAYERS|));
    PrefixYields(names, ChainToks(o, links), min, rest, Some(Grouped(o, links, |LAYERS|)));
  }

  lemma {:induction false} FitsSame(tok: Tok, o: Operand, other: Operand, links: seq<Link>)
    requires Fits(tok, o, links) && links != []
    ensures Fits(tok, other, links)
  {
  }

  lemma {:induction false} PowerBase(names: Names, o: Operand, min: nat, right: seq<Tok>, rest: seq<Tok>)
    requires IsOperand(names, o) && o.signs == [] && Lexed(rest) && Lexed([Caret] + right + rest)
    requires Lexed(o.toks + ([Caret] + right + rest))
    ensures Yields(names, o.toks, min, [Caret] + right + rest, Some(o.term))
  {
    hide Lexed, ParsePrefix, ParseExpr;
    var after := [Caret] + right + rest;
    assert after[0] == Caret;
    assert Prefixes(names, o.toks, after, Some(o.term));
    PrefixYields(names, o.toks, min, after, Some(o.term));
  }

  lemma {:induction false} SignIsFirst(o: Operand, links: seq<Link>, rest: seq<Tok>)
    requires (forall i | 0 <= i < |links| :: IsInfix(links[i].op)) && o.signs != []
    requires Lexed(rest) && Lexed(ChainToks(o, links) + rest)
    ensures ChainToks(o, links) == [o.signs[0]] + ChainToks(o.(signs := o.signs[1..]), links)
    ensures Lexed(ChainToks(o.(signs := o.signs[1..]), links) + rest)
  {
    var toks := ChainToks(o.(signs := o.signs[1..]), links);
    assert ChainToks(o, links) + rest == [o.signs[0]] + (toks + rest);
    LexedTail([o.signs[0]], toks + rest);
  }

  lemma {:induction false} InnerIsOperand(names: Names, o: Operand)
    requires IsOperand(names, o) && o.signs != []
    ensures IsOperand(names, o.(signs := o.signs[1..])) && IsSign(o.signs[0])
  {
  }

  /** What fits after powers ends every operand in them. */
  lemma {:induction false} FitsStops(tok: Tok, o: Operand, links: seq<Link>)
    requires Fits(tok, o, links) && links != [] && AllFrom(links, |LAYERS|)
    ensures StopsAt(tok, UNARY_PREC) && StopsAt(tok, 8) && Fits(tok, links[0].right, links[1..])
  {
    assert links[0].op == Pow;
  }

  /** Split at the last operator of the loosest layer. */
  lemma {:induction false} LayerReads(names: Names, o: Operand, links: seq<Link>, layer: nat, min: nat, rest: seq<Tok>)
    requires IsChain(names, o, links) && layer < |LAYERS| && AllFrom(links, layer) && min <= layer + 1
    requires Uses(links, LAYERS[layer])
    requires Lexed(rest) && Lexed(ChainToks(o, links) + rest) && Fits(rest[0], o, links)
    ensures Yields(names, ChainToks(o, links), min, rest, Some(Grouped(o, links, layer)))
    decreases |links|, |LAYERS| - layer, |o.signs|, 0
  {
    assert rest != [];
    var k := LastOf(links, LAYERS[layer]);
    var op, next := links[k].op, links[k].right;
    var before, later := links[..k], links[k + 1..];
    LayerBinds(op, layer);
    SplitToks(o, links, k);
    SplitChain(names, o, links, layer, k);
    var l, r := Grouped(o, before, layer), Grouped(next, later, layer + 1);
    assert Grouped(o, links, layer) == Term(op, [l, r]);
    hide Yields, Prefixes, Lexed, IsOperand, Fits, ParseExpr, Absorb, StopsAt, Grouped, LastOf, ChainToks, IsChain,
         AllFrom;
    var left, right := ChainToks(o, before), ChainToks(next, later);
    LexedAround(left, InfixTok(op), right, rest);
    FitsBefore(o, links, layer, k);
    ChainReads(names, o, before, layer, min, [InfixTok(op)] + right + rest);
    FitsLater(rest[0], o, links, layer, k);
    ChainReads(names, next, later, layer + 1, layer + 2, rest);
    JoinReads(names, op, left, right, min, rest, l, r);
  }

  lemma {:induction false} SplitChain(names: Names, o: Operand, links: seq<Link>, layer: nat, k: nat)
    requires IsChain(names, o, links) && layer < |LAYERS| && AllFrom(links, layer)
    requires Uses(links, LAYERS[layer]) && k == LastOf(links, LAYERS[layer])
    ensures IsChain(names, o, links[..k]) && IsChain(names, links[k].right, links[k + 1..])
    ensures AllFrom(links[..k], layer) && AllFrom(links[k + 1..], layer + 1)
  {
    hide IsOperand;
  }

  lemma {:induction false} FitsBefore(o: Operand, links: seq<Link>, layer: nat, k: nat)
    requires layer < |LAYERS| && AllFrom(links, layer) && k < |links| && links[k].op in LAYERS[layer]
    ensures IsInfix(links[k].op) && Fits(InfixTok(links[k].op), o, links[..k])
  {
    LayerBinds(links[k].op, layer);
    forall i | 0 <= i < k
      ensures Precedence(links[k].op) < RightPrec(links[i].op)
    {
      FromBinds(links[i].op, layer);
    }
  }

  lemma {:induction false} FitsLater(tok: Tok, o: Operand, links: seq<Link>, layer: nat, k: nat)
    requires Fits(tok, o, links) && layer < |LAYERS| && k < |links| && links[k].op in LAYERS[layer]
    ensures Fits(tok, links[k].right, links[k + 1..]) && StopsAt(tok, layer + 2)
  {
    LayerBinds(links[k].op, layer);
  }

  // ----- what that means -----

  /** The whole input is read as the term. */
  ghost predicate ReadsAs(names: Names, toks: seq<Tok>, t: Term) {
    Lexed(toks + [Eof]) ==> Parse(names, toks + [Eof]) == Done(t, [Eof])
  }

  /** Any number of operands and operators. */
  lemma {:induction false} ChainIsGrouped(names: Names, o: Operand, links: seq<Link>)
    requires IsChain(names, o, links)
    ensures ReadsAs(names, ChainToks(o, links), Grouped(o, links, 0))
  {
    hide IsOperand, Grouped, ChainToks, ParseExpr;
    var toks := ChainToks(o, links);
    if Lexed(toks + [Eof]) {
      forall i | 0 <= i < |links|
        ensures IsFrom(links[i].op, 0)
      {
        EveryInfixIsFrom(links[i].op);
      }
      LexedTail(toks, [Eof]);
      ChainReads(names, o, links, 0, 0, [Eof]);
      Stops(names, Grouped(o, links, 0), [Eof], 0);
    }
  }

  /** In brackets a chain is an operand again. */
  lemma {:induction false} BracketsAreOperand(names: Names, o: Operand, links: seq<Link>)
    requires IsChain(names, o, links)
    ensures IsOperand(names, Operand([], [LParen] + ChainToks(o, links) + [RParen], Grouped(o, links, 0)))
  {
    hide Grouped, ChainToks, ParsePrefix;
    var toks := [LParen] + ChainToks(o, links) + [RParen];
    forall rest | Lexed(rest) && Lexed(toks + rest) && IsAfter(rest[0])
      ensures ParsePrefix(names, toks + rest, []) == Done(Grouped(o, links, 0), rest)
    {
      BracketedReads(names, o, links, rest);
    }
  }

  lemma {:induction false} BracketedReads(names: Names, o: Operand, links: seq<Link>, rest: seq<Tok>)
    requires IsChain(names, o, links) && Lexed(rest) && Lexed([LParen] + ChainToks(o, links) + [RParen] + rest)
    ensures ParsePrefix(names, [LParen] + ChainToks(o, links) + [RParen] + rest, []) == Done(Grouped(o, links, 0), rest)
  {
    hide IsOperand, Grouped, ChainToks, ParsePrefix, Lexed, ParseExpr;
    var toks := ChainToks(o, links);
    forall i | 0 <= i < |links|
      ensures IsFrom(links[i].op, 0)
    {
      EveryInfixIsFrom(links[i].op);
    }
    LexedCons(RParen, rest);
    assert [LParen] + toks + [RParen] + rest == [LParen] + (toks + ([RParen] + rest));
    LexedTail([LParen], toks + ([RParen] + rest));
    ChainReads(names, o, links, 0, 0, [RParen] + rest);
    BracketsRead(names, toks, rest, Some(Grouped(o, links, 0)));
  }

  lemma {:induction false} LiteralIsOperand(names: Names, c: Double)
    requires IsDouble(c)
    ensures IsOperand(names, Operand([], [Num(c)], Term(Const(c), [])))
  {
    forall rest | Lexed(rest) && Lexed([Num(c)] + rest) && IsAfter(rest[0])
      ensures ParsePrefix(names, [Num(c)] + rest, []) == Done(Term(Const(c), []), rest)
    {
      NumReads(names, Num(c), c, rest);
    }
  }

  lemma {:induction false} NameIsOperand(names: Names, name: string)
    requires !Reserved(name)
    ensures IsOperand(names, Operand([], [NameTok(name)], Term(Var(names.intern(name)), [])))
  {
    hide ParsePrefix, Reserved, NameTok;
    forall rest | Lexed(rest) && Lexed([NameTok(name)] + rest) && IsAfter(rest[0])
      ensures ParsePrefix(names, [NameTok(name)] + rest, []) == Done(Term(Var(names.intern(name)), []), rest)
    {
      NameReads(names, name, rest);
    }
  }

  // ----- calls -----

  /** What a call by each name applies. */
  const CALLS: map<string, Op> :=
    map["min" := Min, "max" := Max, "atan2" := Atan2, "neg" := Neg, "sqrt" := Sqrt, "ln" := Ln, "log" := Ln,
        "exp" := Exp, "sin" := Sin, "cos" := Cos, "tan" := Tan, "abs" := Abs, "sign" := Sign, "floor" := Floor,
        "ceil" := Ceil, "if" := If, "d" := Diff, "diff" := Diff, "pow" := Pow]

  /** How many arguments it takes. */
  function Takes(name: string): nat {
    if name == "if" then 3 else if name in {"min", "max", "atan2", "pow", "d", "diff"} then 2 else 1
  }

  /** What each name stands for that is no variable. */
  const CONSTANTS: map<string, Double> :=
    map["pi" := PI, "PI" := PI, "tau" := TAU, "TAU" := TAU, "inf" := INFINITY, "nan" := NOT_A_NUMBER]

  /** An argument: operands with operators between them. */
  datatype Arg = Arg(first: Operand, links: seq<Link>)

  ghost predicate AreArgs(names: Names, args: seq<Arg>) {
    forall i | 0 <= i < |args| :: IsChain(names, args[i].first, args[i].links)
  }

  function ArgToks(args: seq<Arg>): seq<Tok>
    requires forall i, j | 0 <= i < |args| && 0 <= j < |args[i].links| :: IsInfix(args[i].links[j].op)
  {
    if args == [] then []
    else
      ChainToks(args[0].first, args[0].links) + if |args| == 1 then [] else [Comma] + ArgToks(args[1..])
  }

  function ArgTerms(args: seq<Arg>): (terms: seq<Term>)
    ensures |terms| == |args|
  {
    if args == [] then [] else [Grouped(args[0].first, args[0].links, 0)] + ArgTerms(args[1..])
  }

  /** An expression is read up to what cannot continue it. */
  lemma {:induction false} ExprReads(names: Names, o: Operand, links: seq<Link>, rest: seq<Tok>)
    requires IsChain(names, o, links) && Lexed(rest) && Lexed(ChainToks(o, links) + rest)
    requires rest[0] == Comma || rest[0] == RParen
    ensures ParseExpr(names, ChainToks(o, links) + rest, 0, []) == Done(Grouped(o, links, 0), rest)
    ensures (ChainToks(o, links) + rest)[0] != RParen
  {
    hide IsOperand, Grouped, ChainToks, Lexed;
    forall i | 0 <= i < |links|
      ensures IsFrom(links[i].op, 0)
    {
      EveryInfixIsFrom(links[i].op);
    }
    ChainReads(names, o, links, 0, 0, rest);
    Stops(names, Grouped(o, links, 0), rest, 0);
  }

  lemma {:induction false} ArgsRead(names: Names, args: seq<Arg>, rest: seq<Tok>)
    requires AreArgs(names, args) && args != [] && Lexed(rest) && rest[0] == RParen && Lexed(ArgToks(args) + rest)
    ensures ParseArgs(names, ArgToks(args) + rest, []) == Args(ArgTerms(args), rest)
    ensures (ArgToks(args) + rest)[0] != RParen
    decreases |args|
  {
    hide ParseExpr, Absorb, ParsePrefix, ChainToks, Grouped, IsOperand, Lexed;
    var toks := ChainToks(args[0].first, args[0].links);
    if |args| == 1 {
      assert ArgToks(args) + rest == toks + rest;
      ExprReads(names, args[0].first, args[0].links, rest);
      OneTerm(args);
    } else {
      var more := ArgToks(args[1..]) + rest;
      assert ArgToks(args) + rest == toks + ([Comma] + more);
      LexedTail(toks, [Comma] + more);
      LexedTail([Comma], more);
      assert ([Comma] + more)[0] == Comma && ([Comma] + more)[1..] == more;
      ExprReads(names, args[0].first, args[0].links, [Comma] + more);
      ArgsRead(names, args[1..], rest);
    }
  }

  lemma {:induction false} OneTerm(args: seq<Arg>)
    requires |args| == 1
    ensures ArgTerms(args) == [Grouped(args[0].first, args[0].links, 0)]
  {
    hide Grouped;
    assert args[1..] == [];
  }

  lemma {:induction false} CallNames(name: string)
    requires name in CALLS
    ensures FromFnName(name) == Some(CALLS[name]) && name != "let" && name != "in" && CALLS[name].Arity() > 0
  {
  }

  /** A name, and the arguments in brackets with commas between them, is the operator
      of that name applied to them. */
  lemma {:induction false} CallIsOperand(names: Names, name: string, args: seq<Arg>)
    requires name in CALLS && AreArgs(names, args) && |args| == Takes(name)
    requires name == "d" || name == "diff" ==> ArgTerms(args)[0].op.Var?
    ensures IsOperand(names, Operand([], [Ident(name), LParen] + ArgToks(args) + [RParen],
                                     Term(CALLS[name], ArgTerms(args))))
  {
    hide ParsePrefix, ArgToks, ArgTerms;
    var toks := [Ident(name), LParen] + ArgToks(args) + [RParen];
    forall rest | Lexed(rest) && Lexed(toks + rest) && IsAfter(rest[0])
      ensures ParsePrefix(names, toks + rest, []) == Done(Term(CALLS[name], ArgTerms(args)), rest)
    {
      CallReads(names, name, args, rest);
    }
  }

  lemma {:induction false} CallReads(names: Names, name: string, args: seq<Arg>, rest: seq<Tok>)
    requires name in CALLS && AreArgs(names, args) && |args| == CALLS[name].Arity()
    requires CALLS[name].Diff? ==> ArgTerms(args)[0].op.Var?
    requires Lexed(rest) && Lexed([Ident(name), LParen] + ArgToks(args) + [RParen] + rest)
    ensures ParsePrefix(names, [Ident(name), LParen] + ArgToks(args) + [RParen] + rest, [])
              == Done(Term(CALLS[name], ArgTerms(args)), rest)
  {
    hide ArgToks, ArgTerms, ParseArgs, FromFnName, Lexed;
    CallNames(name);
    var inner := ArgToks(args) + ([RParen] + rest);
    var whole := [Ident(name), LParen] + ArgToks(args) + [RParen] + rest;
    assert whole == [Ident(name), LParen] + inner && whole[1..] == [LParen] + inner && whole[2..] == inner;
    LexedTail([Ident(name), LParen], inner);
    LexedTail([Ident(name)], [LParen] + inner);
    LexedCons(RParen, rest);
    ArgsRead(names, args, [RParen] + rest);
    assert ([RParen] + rest)[1..] == rest && whole[1..][1..] == inner;
    assert ParseCall(names, name, inner, []) == Done(Term(CALLS[name], ArgTerms(args)), rest);
    assert ParseIdent(names, name, whole[1..], []) == Done(Term(CALLS[name], ArgTerms(args)), rest);
  }

  lemma {:induction false} ConstantIsOperand(names: Names, name: string)
    requires name in CONSTANTS
    ensures IsOperand(names, Operand([], [Ident(name)], Term(Const(CONSTANTS[name]), [])))
  {
    forall rest | Lexed(rest) && Lexed([Ident(name)] + rest) && IsAfter(rest[0])
      ensures ParsePrefix(names, [Ident(name)] + rest, []) == Done(Term(Const(CONSTANTS[name]), []), rest)
    {
      assert ([Ident(name)] + rest)[1..] == rest;
    }
  }

  // ----- two operators -----

  /** Operators written without brackets: `p` is applied after `q`, wherever it
      stands. */
  predicate IsLooser(p: Op, q: Op) {
    && IsInfix(p) && IsInfix(q)
    && match p
       case Or => !q.Or?
       case And => !q.Or? && !q.And?
       case Eq => q.Lt? || q.Le? || q.Gt? || q.Ge? || q.Add? || q.Sub? || q.Mul? || q.Div? || q.Pow?
       case Ne => q.Lt? || q.Le? || q.Gt? || q.Ge? || q.Add? || q.Sub? || q.Mul? || q.Div? || q.Pow?
       case Lt => q.Add? || q.Sub? || q.Mul? || q.Div? || q.Pow?
       case Le => q.Add? || q.Sub? || q.Mul? || q.Div? || q.Pow?
       case Gt => q.Add? || q.Sub? || q.Mul? || q.Div? || q.Pow?
       case Ge => q.Add? || q.Sub? || q.Mul? || q.Div? || q.Pow?
       case Add => q.Mul? || q.Div? || q.Pow?
       case Sub => q.Mul? || q.Div? || q.Pow?
       case Mul => q.Pow?
       case Div => q.Pow?
       case _ => false
  }

  /** An operand without signs. */
  ghost predicate IsPlain(names: Names, o: Operand) {
    IsOperand(names, o) && o.signs == []
  }

  lemma {:induction false} LooserIsEarlier(p: Op, q: Op) returns (j: nat)
    requires IsLooser(p, q)
    ensures j < |LAYERS| && p in LAYERS[j] && forall i | 0 <= i <= j :: q !in LAYERS[i]
    ensures forall i | 0 <= i < j :: p !in LAYERS[i]
  {
    assert Precedence(p) < Precedence(q) && !p.Pow?;
    EveryInfixIsFrom(p);
    j :| 0 <= j < |LAYERS| && p in LAYERS[j];
    LayerBinds(p, j);
    forall i | 0 <= i < |LAYERS|
      ensures q in LAYERS[i] ==> i > j
      ensures p in LAYERS[i] ==> i == j
    {
      if q in LAYERS[i] {
        LayerBinds(q, i);
      }
      if p in LAYERS[i] {
        LayerBinds(p, i);
      }
    }
  }

  lemma {:induction false} SkipLayers(o: Operand, links: seq<Link>, i: nat, j: nat)
    requires i <= j <= |LAYERS| && forall k | i <= k < j :: !Uses(links, LAYERS[k])
    ensures Grouped(o, links, i) == Grouped(o, links, j)
    decreases j - i
  {
    if i < j && links != [] {
      SkipLayers(o, links, i + 1, j);
    }
  }

  lemma {:induction false} OneOperator(o: Operand, p: Op, x: Operand, layer: nat)
    requires IsInfix(p) && o.signs == [] && layer <= |LAYERS| && IsFrom(p, layer)
    ensures Grouped(o, [Link(p, x)], layer) == Term(p, [o.term, Signed(x.signs, x.term)])
  {
    var links := [Link(p, x)];
    if p.Pow? {
      forall k | layer <= k < |LAYERS|
        ensures !Uses(links, LAYERS[k])
      {
      }
      SkipLayers(o, links, layer, |LAYERS|);
    } else {
      var j :| layer <= j < |LAYERS| && p in LAYERS[j];
      LayerBinds(p, j);
      forall k | layer <= k < j
        ensures !Uses(links, LAYERS[k])
      {
        if Uses(links, LAYERS[k]) {
          LayerBinds(p, k);
        }
      }
      SkipLayers(o, links, layer, j);
      assert links[0].op in LAYERS[j];
      assert links[..0] == [] && links[1..] == [];
    }
  }

  function TwoToks(x: Operand, p: Op, y: Operand, q: Op, z: Operand): seq<Tok>
    requires IsInfix(p) && IsInfix(q)
  {
    x.signs + x.toks + [InfixTok(p)] + y.signs + y.toks + [InfixTok(q)] + z.signs + z.toks
  }

  lemma {:induction false} TwoToksAreChain(x: Operand, p: Op, y: Operand, q: Op, z: Operand)
    requires IsInfix(p) && IsInfix(q)
    ensures ChainToks(x, [Link(p, y), Link(q, z)]) == TwoToks(x, p, y, q, z)
  {
    var last := [Link(q, z)];
    assert last[1..] == [] && [Link(p, y), Link(q, z)][1..] == last;
    assert ChainToks(z, []) == z.signs + z.toks;
    assert ChainToks(y, last) == y.signs + y.toks + ([InfixTok(q)] + ChainToks(z, []));
  }

  lemma {:induction false} TwoAreGrouped(names: Names, x: Operand, p: Op, y: Operand, q: Op, z: Operand)
    requires IsInfix(p) && IsInfix(q) && IsOperand(names, x) && IsOperand(names, y) && IsOperand(names, z)
    ensures ReadsAs(names, TwoToks(x, p, y, q, z), Grouped(x, [Link(p, y), Link(q, z)], 0))
  {
    hide IsOperand, Grouped, ChainToks, ReadsAs, TwoToks;
    TwoToksAreChain(x, p, y, q, z);
    ChainIsGrouped(names, x, [Link(p, y), Link(q, z)]);
  }

  /** Of two operators the looser one is applied last, whichever comes first. */
  lemma {:induction false} LooserIsLast(names: Names, x: Operand, y: Operand, z: Operand, p: Op, q: Op)
    requires IsLooser(p, q) && IsPlain(names, x) && IsPlain(names, y) && IsPlain(names, z)
    ensures ReadsAs(names, x.toks + [InfixTok(p)] + y.toks + [InfixTok(q)] + z.toks,
                    Term(p, [x.term, Term(q, [y.term, z.term])]))
    ensures ReadsAs(names, x.toks + [InfixTok(q)] + y.toks + [InfixTok(p)] + z.toks,
                    Term(p, [Term(q, [x.term, y.term]), z.term]))
  {
    hide ReadsAs, IsOperand;
    TwoAreGrouped(names, x, p, y, q, z);
    TwoAreGrouped(names, x, q, y, p, z);
    PlainToks(x, p, y, q, z);
    PlainToks(x, q, y, p, z);
    LooserGroups(x, y, z, p, q);
  }

  lemma {:induction false} PlainToks(x: Operand, p: Op, y: Operand, q: Op, z: Operand)
    requires IsInfix(p) && IsInfix(q) && x.signs == y.signs == z.signs == []
    ensures TwoToks(x, p, y, q, z) == x.toks + [InfixTok(p)] + y.toks + [InfixTok(q)] + z.toks
  {
    assert [] + x.toks == x.toks;
    assert x.toks + [InfixTok(p)] + [] == x.toks + [InfixTok(p)];
    assert x.toks + [InfixTok(p)] + y.toks + [InfixTok(q)] + [] == x.toks + [InfixTok(p)] + y.toks + [InfixTok(q)];
  }

  lemma {:induction false} LooserGroups(x: Operand, y: Operand, z: Operand, p: Op, q: Op)
    requires IsLooser(p, q) && x.signs == y.signs == z.signs == []
    ensures Grouped(x, [Link(p, y), Link(q, z)], 0) == Term(p, [x.term, Term(q, [y.term, z.term])])
    ensures Grouped(x, [Link(q, y), Link(p, z)], 0) == Term(p, [Term(q, [x.term, y.term]), z.term])
  {
    var j := LooserIsEarlier(p, q);
    EveryInfixIsFrom(q);
    assert IsFrom(q, j) && IsFrom(q, j + 1);
    LayerSplits(x, Link(p, y), Link(q, z), j);
    LayerSplits(x, Link(q, y), Link(p, z), j);
    OneOperator(y, q, z, j + 1);
    OneOperator(x, q, y, j);
  }

  /** Two links, one of which at least is in the layer and none in a looser one. */
  lemma {:induction false} LayerSplits(x: Operand, first: Link, second: Link, j: nat)
    requires j < |LAYERS| && (first.op in LAYERS[j] || second.op in LAYERS[j])
    requires forall i | 0 <= i < j :: first.op !in LAYERS[i] && second.op !in LAYERS[i]
    ensures second.op in LAYERS[j] ==>
              Grouped(x, [first, second], 0)
              == Term(second.op, [Grouped(x, [first], j), Signed(second.right.signs, second.right.term)])
    ensures second.op !in LAYERS[j] ==>
              Grouped(x, [first, second], 0)
              == Term(first.op, [Signed(x.signs, x.term), Grouped(first.right, [second], j + 1)])
  {
    var links := [first, second];
    SkipLayers(x, links, 0, j);
    assert links[if first.op in LAYERS[j] then 0 else 1].op in LAYERS[j];
    var k := LastOf(links, LAYERS[j]);
    assert k == if second.op in LAYERS[j] then 1 else 0;
    assert links[..0] == [] && links[..1] == [first] && links[1..] == [second] && links[2..] == [];
  }

  /** Operators applied from the left where no bracket says otherwise. */
  predicate IsAlike(p: Op, q: Op) {
    || (p.Or? && q.Or?) || (p.And? && q.And?) || ((p.Eq? || p.Ne?) && (q.Eq? || q.Ne?))
    || ((p.Lt? || p.Le? || p.Gt? || p.Ge?) && (q.Lt? || q.Le? || q.Gt? || q.Ge?))
    || ((p.Add? || p.Sub?) && (q.Add? || q.Sub?)) || ((p.Mul? || p.Div?) && (q.Mul? || q.Div?))
  }

  lemma {:induction false} AlikeLayer(p: Op, q: Op) returns (j: nat)
    requires IsAlike(p, q)
    ensures IsInfix(p) && IsInfix(q) && j < |LAYERS| && p in LAYERS[j] && q in LAYERS[j] && IsFrom(p, j)
    ensures forall i | 0 <= i < j :: p !in LAYERS[i] && q !in LAYERS[i]
  {
    EveryInfixIsFrom(p);
    j :| 0 <= j < |LAYERS| && p in LAYERS[j];
    LayerBinds(p, j);
    LayerBinds(q, j);
    forall i | 0 <= i < j
      ensures p !in LAYERS[i] && q !in LAYERS[i]
    {
      if p in LAYERS[i] {
        LayerBinds(p, i);
      }
      if q in LAYERS[i] {
        LayerBinds(q, i);
      }
    }
  }

  lemma {:induction false} AlikeFromTheLeft(names: Names, x: Operand, y: Operand, z: Operand, p: Op, q: Op)
    requires IsAlike(p, q) && IsPlain(names, x) && IsPlain(names, y) && IsPlain(names, z)
    ensures ReadsAs(names, x.toks + [InfixTok(p)] + y.toks + [InfixTok(q)] + z.toks,
                    Term(q, [Term(p, [x.term, y.term]), z.term]))
  {
    hide ReadsAs, IsOperand;
    TwoAreGrouped(names, x, p, y, q, z);
    PlainToks(x, p, y, q, z);
    var j := AlikeLayer(p, q);
    LayerSplits(x, Link(p, y), Link(q, z), j);
    OneOperator(x, p, y, j);
  }

  lemma {:induction false} PowersFromTheRight(names: Names, x: Operand, y: Operand, z: Operand)
    requires IsPlain(names, x) && IsPlain(names, y) && IsPlain(names, z)
    ensures ReadsAs(names, x.toks + [Caret] + y.toks + [Caret] + z.toks,
                    Term(Pow, [x.term, Term(Pow, [y.term, z.term])]))
  {
    hide ReadsAs, IsOperand;
    TwoAreGrouped(names, x, Pow, y, Pow, z);
    PlainToks(x, Pow, y, Pow, z);
    var links := [Link(Pow, y), Link(Pow, z)];
    SkipLayers(x, links, 0, |LAYERS|);
    assert links[1..] == [Link(Pow, z)];
    OneOperator(y, Pow, z, |LAYERS|);
  }

  lemma {:induction false} WithSign(names: Names, o: Operand, sign: Tok)
    requires IsPlain(names, o) && IsSign(sign)
    ensures IsOperand(names, Operand([sign], o.toks, o.term))
  {
  }

  lemma {:induction false} OneToks(o: Operand, p: Op, x: Operand)
    requires IsInfix(p)
    ensures ChainToks(o, [Link(p, x)]) == o.signs + o.toks + [InfixTok(p)] + (x.signs + x.toks)
  {
    assert [Link(p, x)][1..] == [] && ChainToks(x, []) == x.signs + x.toks;
  }

  lemma {:induction false} OneIsGrouped(names: Names, o: Operand, p: Op, x: Operand)
    requires IsInfix(p) && IsOperand(names, o) && IsOperand(names, x)
    ensures !p.Pow? ==>
              ReadsAs(names, o.signs + o.toks + [InfixTok(p)] + (x.signs + x.toks),
                      Term(p, [Signed(o.signs, o.term), Signed(x.signs, x.term)]))
    ensures p.Pow? ==>
              ReadsAs(names, o.signs + o.toks + [InfixTok(p)] + (x.signs + x.toks),
                      Signed(o.signs, Term(p, [o.term, Signed(x.signs, x.term)])))
  {
    hide ReadsAs, IsOperand;
    var links := [Link(p, x)];
    OneToks(o, p, x);
    ChainIsGrouped(names, o, links);
    if p.Pow? {
      SkipLayers(o, links, 0, |LAYERS|);
      assert links[1..] == [];
    } else {
      EveryInfixIsFrom(p);
      var j :| 0 <= j < |LAYERS| && p in LAYERS[j];
      LayerBinds(p, j);
      forall k | 0 <= k < j
        ensures !Uses(links, LAYERS[k])
      {
        if Uses(links, LAYERS[k]) {
          LayerBinds(p, k);
        }
      }
      SkipLayers(o, links, 0, j);
      assert links[0].op in LAYERS[j] && links[..0] == [] && links[1..] == [];
    }
  }

  /** What each infix symbol stands for. */
  const SYMBOLS: map<Tok, Op> :=
    map[Plus := Add, Minus := Sub, Star := Mul, Slash := Div, Caret := Pow, Less := Lt, LessEq := Le, Greater := Gt,
        GreaterEq := Ge, EqEq := Eq, NotEq := Ne, AndAnd := And, OrOr := Or]

  /** A symbol between two operands is its operator on them, and so it is printed. */
  lemma {:induction false} SymbolIsOperator(names: Names, x: Operand, y: Operand, tok: Tok)
    requires tok in SYMBOLS && IsPlain(names, x) && IsPlain(names, y)
    ensures ReadsAs(names, x.toks + [tok] + y.toks, Term(SYMBOLS[tok], [x.term, y.term]))
    ensures forall op | IsInfix(op) && InfixTok(op) == tok :: op == SYMBOLS[tok]
  {
    hide ReadsAs, IsOperand;
    OneIsGrouped(names, x, SYMBOLS[tok], y);
    assert x.signs + x.toks == x.toks && y.signs + y.toks == y.toks;
    assert Signed([], x.term) == x.term && Signed([], y.term) == y.term;
  }

  /** A sign before an operator applies to the left operand alone, but to the whole
      of a power; after one, to the right operand. */
  lemma {:induction false} SignsBindInBetween(names: Names, sign: Tok, x: Operand, y: Operand, p: Op)
    requires IsSign(sign) && IsInfix(p) && IsPlain(names, x) && IsPlain(names, y)
    ensures !p.Pow? ==>
              ReadsAs(names, [sign] + x.toks + [InfixTok(p)] + y.toks, Term(p, [Signed([sign], x.term), y.term]))
    ensures ReadsAs(names, [sign] + x.toks + [Caret] + y.toks, Signed([sign], Term(Pow, [x.term, y.term])))
    ensures ReadsAs(names, x.toks + [InfixTok(p)] + ([sign] + y.toks), Term(p, [x.term, Signed([sign], y.term)]))
  {
    hide ReadsAs, IsOperand;
    var left, right := Operand([sign], x.toks, x.term), Operand([sign], y.toks, y.term);
    WithSign(names, x, sign);
    WithSign(names, y, sign);
    assert x.signs + x.toks == x.toks && y.signs + y.toks == y.toks;
    assert Signed([], x.term) == x.term && Signed([], y.term) == y.term;
    OneIsGrouped(names, left, p, y);
    OneIsGrouped(names, left, Pow, y);
    OneIsGrouped(names, x, p, right);
  }

  // ----- brackets in print -----

  /** A term that is an operand however it is printed. */
  ghost predicate IsLeaf(names: Names, t: Term) {
    && IsTerm(names, t) && !IsInfix(t.op) && (forall prec :: !NeedsBrackets(t, prec))
    && IsOperand(names, Operand([], Bare(names, t), t))
  }

  function Flat(names: Names, a: Term, p: Op, b: Term, q: Op, c: Term): seq<Tok>
    requires IsTerm(names, a) && IsTerm(names, b) && IsTerm(names, c) && IsInfix(p) && IsInfix(q)
  {
    Bare(names, a) + [InfixTok(p)] + Bare(names, b) + [InfixTok(q)] + Bare(names, c)
  }

  lemma {:induction false} FlatIsRead(names: Names, a: Term, p: Op, b: Term, q: Op, c: Term)
    requires IsLeaf(names, a) && IsLeaf(names, b) && IsLeaf(names, c) && IsInfix(p) && IsInfix(q)
    requires Lexed(Flat(names, a, p, b, q, c) + [Eof])
    ensures Parse(names, Flat(names, a, p, b, q, c) + [Eof])
         == Done(if IsLooser(q, p) || IsAlike(p, q) then Term(q, [Term(p, [a, b]), c])
                 else Term(p, [a, Term(q, [b, c])]), [Eof])
  {
    hide IsOperand, Parse, Bare, NeedsBrackets, Lexed;
    var x, y := Operand([], Bare(names, a), a), Operand([], Bare(names, b), b);
    var z := Operand([], Bare(names, c), c);
    if IsLooser(q, p) {
      LooserIsLast(names, x, y, z, q, p);
    } else if IsAlike(p, q) {
      AlikeFromTheLeft(names, x, y, z, p, q);
    } else if IsLooser(p, q) {
      LooserIsLast(names, x, y, z, p, q);
    } else {
      OnlyPowersAreLeft(p, q);
      PowersFromTheRight(names, x, y, z);
    }
  }

  lemma {:induction false} OnlyPowersAreLeft(p: Op, q: Op)
    requires IsInfix(p) && IsInfix(q) && !IsLooser(p, q) && !IsLooser(q, p) && !IsAlike(p, q)
    ensures p.Pow? && q.Pow?
  {
  }

  /** An operation to the left of another is printed without brackets exactly if
      it would be read back as it stands. */
  lemma {:induction false} LeftBracketsAreNeeded(names: Names, a: Term, b: Term, c: Term, p: Op, q: Op)
    requires IsLeaf(names, a) && IsLeaf(names, b) && IsLeaf(names, c) && IsInfix(p) && IsInfix(q)
    requires Lexed(Flat(names, a, p, b, q, c) + [Eof])
    ensures var t := Term(q, [Term(p, [a, b]), c]);
            IsTerm(names, t) && (Print(names, t, 0) == Flat(names, a, p, b, q, c)
                                 <==> Parse(names, Flat(names, a, p, b, q, c) + [Eof]) == Done(t, [Eof]))
  {
    hide IsOperand, Parse, Lexed;
    FlatIsRead(names, a, p, b, q, c);
    var u := Term(p, [a, b]);
    var t := Term(q, [u, c]);
    LeavesPrint(names, a, p, b);
    assert Print(names, c, RightPrec(q)) == Bare(names, c);
    assert Print(names, t, 0) == Print(names, u, LeftPrec(q)) + [InfixTok(q)] + Bare(names, c);
    LayersAgree(p, q);
    if NeedsBrackets(u, LeftPrec(q)) {
      assert |Print(names, t, 0)| == |Flat(names, a, p, b, q, c)| + 2;
    }
  }

  /** So is one to the right. */
  lemma {:induction false} RightBracketsAreNeeded(names: Names, a: Term, b: Term, c: Term, p: Op, q: Op)
    requires IsLeaf(names, a) && IsLeaf(names, b) && IsLeaf(names, c) && IsInfix(p) && IsInfix(q)
    requires Lexed(Flat(names, a, p, b, q, c) + [Eof])
    ensures var t := Term(p, [a, Term(q, [b, c])]);
            IsTerm(names, t) && (Print(names, t, 0) == Flat(names, a, p, b, q, c)
                                 <==> Parse(names, Flat(names, a, p, b, q, c) + [Eof]) == Done(t, [Eof]))
  {
    hide IsOperand, Parse, Lexed;
    FlatIsRead(names, a, p, b, q, c);
    var u := Term(q, [b, c]);
    var t := Term(p, [a, u]);
    LeavesPrint(names, b, q, c);
    assert Print(names, a, LeftPrec(p)) == Bare(names, a);
    assert Print(names, t, 0) == Bare(names, a) + [InfixTok(p)] + Print(names, u, RightPrec(p));
    LayersAgree(p, q);
    RightToks(Bare(names, a), InfixTok(p), Bare(names, b), InfixTok(q), Bare(names, c));
  }

  lemma {:induction false} RightToks(a: seq<Tok>, p: Tok, b: seq<Tok>, q: Tok, c: seq<Tok>)
    ensures a + [p] + (b + [q] + c) == a + [p] + b + [q] + c
    ensures a + [p] + Bracketed(b + [q] + c, true) != a + [p] + b + [q] + c
  {
    assert |a + [p] + Bracketed(b + [q] + c, true)| == |a + [p] + b + [q] + c| + 2;
  }

  lemma {:induction false} LeavesPrint(names: Names, a: Term, p: Op, b: Term)
    requires IsLeaf(names, a) && IsLeaf(names, b) && IsInfix(p)
    ensures var u := Term(p, [a, b]);
            IsTerm(names, u) && Bare(names, u) == Bare(names, a) + [InfixTok(p)] + Bare(names, b)
  {
    hide IsOperand;
    var u := Term(p, [a, b]);
    assert u.args[0] == a && u.args[1] == b;
    assert Print(names, a, LeftPrec(p)) == Bare(names, a) && Print(names, b, RightPrec(p)) == Bare(names, b);
  }

  /** The printer's binding powers against the layers. */
  lemma {:induction false} LayersAgree(p: Op, q: Op)
    requires IsInfix(p) && IsInfix(q)
    ensures Precedence(p) < LeftPrec(q) <==> !(IsLooser(q, p) || IsAlike(p, q))
    ensures Precedence(q) < RightPrec(p) <==> IsLooser(q, p) || IsAlike(p, q)
  {
  }

  /** A sign before a term. */
  predicate IsSigned(t: Term, sign: Tok, a: Term) {
    t.args == [a] && ((sign == Minus && t.op.Neg?) || (sign == Bang && t.op.Not?))
  }

  /** A sign under an operator, and an operator under a sign. To the right of a
      power it is bracketed though it need not be. */
  lemma {:induction false} SignBracketsAreNeeded(names: Names, sign: Tok, a: Term, b: Term, na: Term, nb: Term, p: Op)
    requires IsLeaf(names, a) && IsLeaf(names, b) && !a.op.Const? && !b.op.Const? && IsInfix(p)
    requires IsSigned(na, sign, a) && IsSigned(nb, sign, b)
    requires Lexed([sign] + Bare(names, a) + [InfixTok(p)] + Bare(names, b) + [Eof])
    requires Lexed(Bare(names, a) + [InfixTok(p)] + ([sign] + Bare(names, b)) + [Eof])
    ensures var t := Term(p, [na, b]);
            var flat := [sign] + Bare(names, a) + [InfixTok(p)] + Bare(names, b);
            IsTerm(names, t) && (Print(names, t, 0) == flat <==> Parse(names, flat + [Eof]) == Done(t, [Eof]))
    ensures var t := Term(p, [a, nb]);
            var flat := Bare(names, a) + [InfixTok(p)] + ([sign] + Bare(names, b));
            IsTerm(names, t) && Parse(names, flat + [Eof]) == Done(t, [Eof])
            && (Print(names, t, 0) == flat <==> !p.Pow?)
    ensures var t := Term(na.op, [Term(p, [a, b])]);
            var flat := [sign] + Bare(names, a) + [InfixTok(p)] + Bare(names, b);
            IsTerm(names, t) && (Print(names, t, 0) == flat <==> Parse(names, flat + [Eof]) == Done(t, [Eof]))
  {
    hide IsOperand, Parse, Lexed, FnName;
    var x, y := Operand([], Bare(names, a), a), Operand([], Bare(names, b), b);
    SignsBindInBetween(names, sign, x, y, p);
    SignIsTerm(names, sign, a, na);
    SignIsTerm(names, sign, b, nb);
    LeavesPrint(names, a, p, b);
    SignLeft(names, sign, a, b, na, p);
    SignRight(names, sign, a, b, nb, p);
    SignAbove(names, sign, a, b, na, p);
    assert p.Pow? ==> InfixTok(p) == Caret;
  }

  lemma {:induction false} SignIsTerm(names: Names, sign: Tok, a: Term, na: Term)
    requires IsLeaf(names, a) && IsSigned(na, sign, a) && !a.op.Const?
    ensures IsTerm(names, na) && Bare(names, na) == [sign] + Bare(names, a) && Signed([sign], a) == na
  {
    hide IsOperand;
    assert na.args[0] == a && Signed([sign][1..], a) == a;
    assert na == Term(na.op, [a]);
  }

  lemma {:induction false} SignLeft(names: Names, sign: Tok, a: Term, b: Term, na: Term, p: Op)
    requires IsLeaf(names, a) && IsLeaf(names, b) && !a.op.Const? && IsInfix(p) && IsSigned(na, sign, a)
    requires IsTerm(names, na) && Bare(names, na) == [sign] + Bare(names, a)
    ensures IsTerm(names, Term(p, [na, b]))
    ensures Print(names, Term(p, [na, b]), 0) == [sign] + Bare(names, a) + [InfixTok(p)] + Bare(names, b) <==> !p.Pow?
  {
    hide IsOperand;
    var t := Term(p, [na, b]);
    assert t.args[0] == na && t.args[1] == b;
    assert Print(names, b, RightPrec(p)) == Bare(names, b);
    assert Print(names, na, LeftPrec(p)) == Bracketed([sign] + Bare(names, a), p.Pow?);
    assert Print(names, t, 0) == Print(names, na, LeftPrec(p)) + [InfixTok(p)] + Print(names, b, RightPrec(p));
    if p.Pow? {
      assert |Print(names, t, 0)| == |[sign] + Bare(names, a) + [InfixTok(p)] + Bare(names, b)| + 2;
    }
  }

  lemma {:induction false} SignRight(names: Names, sign: Tok, a: Term, b: Term, nb: Term, p: Op)
    requires IsLeaf(names, a) && IsLeaf(names, b) && !b.op.Const? && IsInfix(p) && IsSigned(nb, sign, b)
    requires IsTerm(names, nb) && Bare(names, nb) == [sign] + Bare(names, b)
    ensures IsTerm(names, Term(p, [a, nb]))
    ensures Print(names, Term(p, [a, nb]), 0) == Bare(names, a) + [InfixTok(p)] + ([sign] + Bare(names, b)) <==> !p.Pow?
  {
    hide IsOperand;
    var t := Term(p, [a, nb]);
    assert t.args[0] == a && t.args[1] == nb;
    assert Print(names, a, LeftPrec(p)) == Bare(names, a);
    assert Print(names, nb, RightPrec(p)) == Bracketed([sign] + Bare(names, b), p.Pow?);
    assert Print(names, t, 0) == Print(names, a, LeftPrec(p)) + [InfixTok(p)] + Print(names, nb, RightPrec(p));
    if p.Pow? {
      assert |Print(names, t, 0)| == |Bare(names, a) + [InfixTok(p)] + ([sign] + Bare(names, b))| + 2;
    }
  }

  lemma {:induction false} SignAbove(names: Names, sign: Tok, a: Term, b: Term, na: Term, p: Op)
    requires IsLeaf(names, a) && IsLeaf(names, b) && IsInfix(p) && IsSigned(na, sign, a)
    requires var u := Term(p, [a, b]);
             IsTerm(names, u) && Bare(names, u) == Bare(names, a) + [InfixTok(p)] + Bare(names, b)
    ensures IsTerm(names, Term(na.op, [Term(p, [a, b])]))
    ensures Print(names, Term(na.op, [Term(p, [a, b])]), 0) == [sign] + Bare(names, a) + [InfixTok(p)] + Bare(names, b)
            <==> p.Pow?
  {
    hide IsOperand;
    var u := Term(p, [a, b]);
    var t := Term(na.op, [u]);
    assert t.args[0] == u;
    assert Print(names, t, 0) == [sign] + Print(names, u, UNARY_PREC);
    if p.Pow? {
      assert Print(names, t, 0) == [sign] + Bare(names, a) + [InfixTok(p)] + Bare(names, b);
    } else {
      assert |Print(names, t, 0)| == |[sign] + Bare(names, a) + [InfixTok(p)] + Bare(names, b)| + 2;
    }
  }
}
