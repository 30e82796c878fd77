/** The parser over a growing shared expression, and the infix printer. */
module Parsers {
  import opened Options
  import opened Lang
  import opened Expressions
  import opened Terms
  import opened Syntax
  import opened RoundTrips

  datatype Outcome = Built(id: Id) | Rejected(error: SyntaxError)

  /** A `let`-bound name, and the node it stands for. */
  datatype Bound = Bound(name: string, id: Id)

  /** Node `id` expands to the term, the order of commutative arguments aside. */
  ghost predicate Means(nodes: seq<ENode>, id: Id, t: Term) {
    Ordered(nodes) && id < |nodes| && Alike(Unfold(nodes, id), t)
  }

  ghost predicate AllMean(nodes: seq<ENode>, ids: seq<Id>, ts: seq<Term>) {
    |ids| == |ts| && forall k | 0 <= k < |ids| :: Means(nodes, ids[k], ts[k])
  }

  /** The names in scope stand for the terms they are bound to. */
  ghost predicate ScopeMeans(nodes: seq<ENode>, scope: seq<Bound>, env: seq<Binding>) {
    && |scope| == |env|
    && (forall k | 0 <= k < |scope| :: scope[k].name == env[k].name && Means(nodes, scope[k].id, env[k].term))
  }

  lemma MeansGrows(nodes: seq<ENode>, more: seq<ENode>, id: Id, t: Term)
    requires Means(nodes, id, t) && nodes <= more && Ordered(more)
    ensures Means(more, id, t)
  {
    UnfoldOfPrefix(nodes, more, id);
  }

  lemma AllMeanGrows(nodes: seq<ENode>, more: seq<ENode>, ids: seq<Id>, ts: seq<Term>)
    requires AllMean(nodes, ids, ts) && nodes <= more && Ordered(more)
    ensures AllMean(more, ids, ts)
  {
    hide Means;
    forall k | 0 <= k < |ids|
      ensures Means(more, ids[k], ts[k])
    {
      MeansGrows(nodes, more, ids[k], ts[k]);
    }
  }

  lemma ScopeGrows(nodes: seq<ENode>, more: seq<ENode>, scope: seq<Bound>, env: seq<Binding>)
    requires ScopeMeans(nodes, scope, env) && nodes <= more && Ordered(more)
    ensures ScopeMeans(more, scope, env)
  {
    hide Means;
    forall k | 0 <= k < |scope|
      ensures Means(more, scope[k].id, env[k].term)
    {
      MeansGrows(nodes, more, scope[k].id, env[k].term);
    }
  }

  /** Sorting the children of a commutative node is all that adding does. */
  lemma NodeMeans(nodes: seq<ENode>, id: Id, node: ENode, ts: seq<Term>)
    requires Ordered(nodes) && id < |nodes| && nodes[id] == Normalize(node) && AllMean(nodes, node.children, ts)
    ensures Means(nodes, id, Term(node.op, ts))
  {
    var t := Unfold(nodes, id);
    assert Below(nodes[id], id);
    if nodes[id] == node {
      forall k | 0 <= k < |t.args|
        ensures Alike(t.args[k], ts[k])
      {
        assert Means(nodes, node.children[k], ts[k]);
      }
    } else {
      assert Means(nodes, node.children[0], ts[0]) && Means(nodes, node.children[1], ts[1]);
      assert t.args[0] == Unfold(nodes, node.children[1]) && t.args[1] == Unfold(nodes, node.children[0]);
    }
  }

  lemma MeansOp(nodes: seq<ENode>, id: Id, t: Term)
    requires Means(nodes, id, t)
    ensures id < |nodes| && nodes[id].op == t.op
  {
  }

  /** The method's outcome is the specification's, the term built in the nodes. */
  ghost predicate Agrees(p: Parsed, r: Outcome, nodes: seq<ENode>, rest: seq<Tok>) {
    match p
    case Failed(e) => r == Rejected(e)
    case Done(t, ts) => r.Built? && Means(nodes, r.id, t) && rest == ts
  }

  class Parser {
    const names: Names
    const toks: seq<Tok>
    const expr: RecExpr
    var pos: nat
    var scope: seq<Bound>

    ghost predicate Valid()
      reads this, expr
    {
      Lexed(toks) && pos < |toks| && expr.Valid()
    }

    ghost function Rest(): (ts: seq<Tok>)
      requires Lexed(toks) && pos < |toks|
      reads this
      ensures Lexed(ts) && |ts| == |toks| - pos && ts[0] == toks[pos]
    {
      toks[pos..]
    }

    constructor (names: Names, toks: seq<Tok>)
      requires Lexed(toks)
      ensures Valid() && fresh(expr) && Rest() == toks && scope == [] && expr.nodes == []
      ensures this.names == names
    {
      this.names, this.toks := names, toks;
      expr := new RecExpr();
      pos, scope := 0, [];
    }

    /** Add an operation on nodes that stand for the terms. */
    method Build(op: Op, ids: seq<Id>, ghost ts: seq<Term>) returns (id: Id)
      requires expr.Valid() && AllMean(expr.nodes, ids, ts)
      modifies expr
      ensures expr.Valid() && old(expr.nodes) <= expr.nodes && Means(expr.nodes, id, Term(op, ts))
    {
      SharedIsOrdered(expr.nodes);
      assert Below(ENode(op, ids), |expr.nodes|) by {
        forall k | 0 <= k < |ids|
          ensures ids[k] < |expr.nodes|
        {
          assert Means(expr.nodes, ids[k], ts[k]);
        }
      }
      ghost var before := expr.nodes;
      id := expr.Add(ENode(op, ids));
      SharedIsOrdered(expr.nodes);
      AllMeanGrows(before, expr.nodes, ids, ts);
      NodeMeans(expr.nodes, id, ENode(op, ids), ts);
    }

    method Peek() returns (tok: Tok)
      requires Valid()
      ensures tok == Rest()[0]
    {
      tok := toks[pos];
    }

    /** Step past a token; the end marker stays. */
    method Bump() returns (tok: Tok)
      requires Valid()
      modifies this`pos
      ensures Valid() && tok == old(Rest()[0])
      ensures Rest() == if tok == Eof then old(Rest()) else old(Rest())[1..]
    {
      tok := toks[pos];
      if pos + 1 < |toks| {
        pos := pos + 1;
      }
    }

    /** Pratt loop: a prefix, then the infix operators that bind at least as
        tightly as `min`. */
    method ParseExpr(min: nat, ghost env: seq<Binding>) returns (r: Outcome)
      requires Valid() && ScopeMeans(expr.nodes, scope, env)
      modifies this`pos, this`scope, expr
      ensures Valid() && old(expr.nodes) <= expr.nodes && (r.Built? ==> scope == old(scope))
      ensures Agrees(Syntax.ParseExpr(names, old(Rest()), min, env), r, expr.nodes, Rest())
      decreases |toks| - pos, 3
    {
      hide Means, ScopeMeans, Lexed, MaximallyShared, Syntax.ParsePrefix, Precedence, Ordered;
      ghost var whole := Syntax.ParseExpr(names, Rest(), min, env);
      ghost var prefix := Syntax.ParsePrefix(names, Rest(), env);
      ghost var nodes0, scope0 := expr.nodes, scope;
      r := ParsePrefix(env);
      if r.Rejected? {
        return;
      }
      SharedIsOrdered(expr.nodes);
      ScopeGrows(nodes0, expr.nodes, scope, env);
      ghost var lhs := prefix.term;
      while true
        invariant Valid() && nodes0 <= expr.nodes && scope == scope0 && ScopeMeans(expr.nodes, scope, env)
        invariant r.Built? && Means(expr.nodes, r.id, lhs)
        invariant pos > old(pos) && whole == Syntax.Absorb(names, lhs, Rest(), min, env)
        decreases |toks| - pos
      {
        var tok := Peek();
        var op := InfixOp(tok);
        if op.None? || Precedence(op.value) < min {
          return;
        }
        ghost var nodes1 := expr.nodes;
        r, lhs := AbsorbOne(op.value, r.id, lhs, env);
        if r.Rejected? {
          return;
        }
        SharedIsOrdered(expr.nodes);
        ScopeGrows(nodes1, expr.nodes, scope, env);
      }
    }

    /** Step past an operator, read its right operand and join the two. */
    method AbsorbOne(op: Op, id: Id, ghost lhs: Term, ghost env: seq<Binding>) returns (r: Outcome, ghost t: Term)
      requires Valid() && Rest()[0] != Eof && ScopeMeans(expr.nodes, scope, env) && Means(expr.nodes, id, lhs)
      modifies this`pos, this`scope, expr
      ensures Valid() && old(expr.nodes) <= expr.nodes && (r.Built? ==> scope == old(scope))
      ensures match Syntax.ParseExpr(names, old(Rest())[1..], RightPrec(op), env)
              case Failed(e) => r == Rejected(e)
              case Done(u, rest) =>
                r.Built? && t == Term(op, [lhs, u]) && Means(expr.nodes, r.id, t) && Rest() == rest
      decreases |toks| - pos, 0
    {
      hide Means, ScopeMeans, Lexed, MaximallyShared, Ordered, RightPrec;
      var _ := Bump();
      ghost var nodes0 := expr.nodes;
      ghost var p := Syntax.ParseExpr(names, Rest(), RightPrec(op), env);
      r := ParseExpr(RightPrec(op), env);
      t := Term(op, []);
      if r.Built? {
        SharedIsOrdered(expr.nodes);
        MeansGrows(nodes0, expr.nodes, id, lhs);
        PairMeans(expr.nodes, id, r.id, lhs, p.term);
        t := Term(op, [lhs, p.term]);
        var joined := Build(op, [id, r.id], [lhs, p.term]);
        r := Built(joined);
      }
    }

    /** Step past a unary operator and read its operand. */
    method ParseOperand(ghost env: seq<Binding>) returns (r: Outcome, ghost t: Term)
      requires Valid() && Rest()[0] != Eof && ScopeMeans(expr.nodes, scope, env)
      modifies this`pos, this`scope, expr
      ensures Valid() && old(expr.nodes) <= expr.nodes && (r.Built? ==> scope == old(scope))
      ensures Agrees(Syntax.ParseExpr(names, old(Rest())[1..], UNARY_PREC, env), r, expr.nodes, Rest())
      ensures r.Built? ==> Syntax.ParseExpr(names, old(Rest())[1..], UNARY_PREC, env) == Done(t, Rest())
      ensures r.Built? ==> Means(expr.nodes, r.id, t)
      decreases |toks| - pos, 0
    {
      var _ := Bump();
      ghost var p := Syntax.ParseExpr(names, Rest(), UNARY_PREC, env);
      r := ParseExpr(UNARY_PREC, env);
      t := if p.Done? then p.term else Term(Neg, []);
    }

    /** Minus on a literal is folded into the literal. */
    method BuildNegated(id: Id, ghost t: Term) returns (negated: Id)
      requires expr.Valid() && Means(expr.nodes, id, t)
      modifies expr
      ensures expr.Valid() && old(expr.nodes) <= expr.nodes && Means(expr.nodes, negated, Negated(t))
    {
      MeansOp(expr.nodes, id, t);
      if expr.nodes[id].op.Const? {
        negated := Leaf(Const(Negate(expr.nodes[id].op.c)));
      } else {
        OneMeans(expr.nodes, id, t);
        negated := Build(Neg, [id], [t]);
      }
    }

    /** A minus, plus or negation and its operand. */
    method ParseUnary(ghost env: seq<Binding>) returns (r: Outcome)
      requires Valid() && (Rest()[0] == Minus || Rest()[0] == Plus || Rest()[0] == Bang)
      requires ScopeMeans(expr.nodes, scope, env)
      modifies this`pos, this`scope, expr
      ensures Valid() && old(expr.nodes) <= expr.nodes && (r.Built? ==> scope == old(scope))
      ensures Agrees(Syntax.ParsePrefix(names, old(Rest()), env), r, expr.nodes, Rest())
      decreases |toks| - pos, 1
    {
      hide Means, ScopeMeans, Lexed, MaximallyShared, Syntax.ParseExpr, Syntax.ParseIdent, Ordered;
      var tok := Peek();
      ghost var t;
      r, t := ParseOperand(env);
      if r.Rejected? || tok == Plus {
        return;
      }
      var id;
      if tok == Minus {
        id := BuildNegated(r.id, t);
      } else {
        OneMeans(expr.nodes, r.id, t);
        id := Build(Not, [r.id], [t]);
      }
      r := Built(id);
    }

    method ParseBracketed(ghost env: seq<Binding>) returns (r: Outcome)
      requires Valid() && Rest()[0] == LParen && ScopeMeans(expr.nodes, scope, env)
      modifies this`pos, this`scope, expr
      ensures Valid() && old(expr.nodes) <= expr.nodes && (r.Built? ==> scope == old(scope))
      ensures Agrees(Syntax.ParsePrefix(names, old(Rest()), env), r, expr.nodes, Rest())
      decreases |toks| - pos, 1
    {
      hide Means, ScopeMeans, Lexed, MaximallyShared, Syntax.ParseExpr, Syntax.ParseIdent, Ordered;
      var _ := Bump();
      r := ParseExpr(0, env);
      if r.Built? {
        var close := Peek();
        if close != RParen {
          return Rejected(Expected(RParen, close));
        }
        var _ := Bump();
      }
    }

    method ParsePrefix(ghost env: seq<Binding>) returns (r: Outcome)
      requires Valid() && ScopeMeans(expr.nodes, scope, env)
      modifies this`pos, this`scope, expr
      ensures Valid() && old(expr.nodes) <= expr.nodes && (r.Built? ==> scope == old(scope))
      ensures Agrees(Syntax.ParsePrefix(names, old(Rest()), env), r, expr.nodes, Rest())
      decreases |toks| - pos, 2
    {
      hide Means, ScopeMeans, Lexed, MaximallyShared, Syntax.ParseExpr, Syntax.ParseIdent, Ordered;
      var tok := Peek();
      match tok {
        case Num(c) =>
          var _ := Bump();
          var id := Leaf(Const(c));
          r := Built(id);
        case PatVar(name) =>
          var _ := Bump();
          var id := Leaf(Var(names.intern(name)));
          r := Built(id);
        case Ident(name) =>
          var _ := Bump();
          r := ParseIdent(name, env);
        case LParen =>
          r := ParseBracketed(env);
        case Eof =>
          r := Rejected(UnexpectedEnd);
        case Minus =>
          r := ParseUnary(env);
        case Plus =>
          r := ParseUnary(env);
        case Bang =>
          r := ParseUnary(env);
        case _ =>
          r := Rejected(Unexpected(tok));
      }
    }

    method Leaf(op: Op) returns (id: Id)
      requires expr.Valid()
      modifies expr
      ensures expr.Valid() && old(expr.nodes) <= expr.nodes && Means(expr.nodes, id, Term(op, []))
    {
      id := Build(op, [], []);
    }

    /** The innermost binding of a name. */
    method Resolve(name: string, ghost env: seq<Binding>) returns (id: Option<Id>)
      requires expr.Valid() && ScopeMeans(expr.nodes, scope, env)
      ensures id.Some? <==> LookUp(env, name).Some?
      ensures id.Some? ==> Means(expr.nodes, id.value, LookUp(env, name).value)
    {
      hide Means;
      var k := |scope|;
      assert env[..k] == env;
      while k > 0
        invariant k <= |scope| && LookUp(env, name) == LookUp(env[..k], name)
      {
        k := k - 1;
        assert env[..k + 1][..k] == env[..k];
        if scope[k].name == name {
          return Some(scope[k].id);
        }
      }
      id := None;
    }

    /** After a name: a binding, a call, a bound name, a constant, a variable. */
    method ParseIdent(name: string, ghost env: seq<Binding>) returns (r: Outcome)
      requires Valid() && ScopeMeans(expr.nodes, scope, env)
      modifies this`pos, this`scope, expr
      ensures Valid() && old(expr.nodes) <= expr.nodes && (r.Built? ==> scope == old(scope))
      ensures Agrees(Syntax.ParseIdent(names, name, old(Rest()), env), r, expr.nodes, Rest())
      decreases |toks| - pos, 4
    {
      hide Means, ScopeMeans, Lexed, MaximallyShared, Syntax.ParseCall, Syntax.ParseLet, Ordered;
      if name == "let" {
        r := ParseLet(env);
        return;
      }
      if name == "in" {
        return Rejected(StrayIn);
      }
      var tok := Peek();
      if tok == LParen {
        var _ := Bump();
        r := ParseCall(name, env);
        return;
      }
      var bound := Resolve(name, env);
      if bound.Some? {
        return Built(bound.value);
      }
      var id;
      if NamedConstant(name).Some? {
        id := Leaf(Const(NamedConstant(name).value));
      } else {
        id := Leaf(Var(names.intern(name)));
      }
      r := Built(id);
    }

    method ParseCall(name: string, ghost env: seq<Binding>) returns (r: Outcome)
      requires Valid() && ScopeMeans(expr.nodes, scope, env)
      modifies this`pos, this`scope, expr
      ensures Valid() && old(expr.nodes) <= expr.nodes && (r.Built? ==> scope == old(scope))
      ensures Agrees(Syntax.ParseCall(names, name, old(Rest()), env), r, expr.nodes, Rest())
      decreases |toks| - pos, 5
    {
      hide Means, ScopeMeans, Lexed, MaximallyShared, Syntax.ParseArgs, FromFnName, Ordered;
      var op := FromFnName(name);
      if op.None? {
        return Rejected(UnknownFunction(name));
      }
      var ids: seq<Id> := [];
      ghost var ts: seq<Term> := [];
      var tok := Peek();
      if tok != RParen {
        ghost var p := Syntax.ParseArgs(names, Rest(), env);
        var error;
        ids, error := ParseArgs(env);
        if error.Some? {
          return Rejected(error.value);
        }
        ts := p.terms;
      }
      r := CloseCall(op.value, ids, ts);
    }

    /** After the arguments: the bracket, then their number and kind. */
    method CloseCall(op: Op, ids: seq<Id>, ghost ts: seq<Term>) returns (r: Outcome)
      requires Valid() && AllMean(expr.nodes, ids, ts)
      modifies this`pos, expr
      ensures Valid() && old(expr.nodes) <= expr.nodes
      ensures Agrees(Syntax.CloseCall(op, Args(ts, old(Rest()))), r, expr.nodes, Rest())
    {
      hide Means, Lexed, MaximallyShared, Ordered;
      var close := Peek();
      if close != RParen {
        return Rejected(Expected(RParen, close));
      }
      var _ := Bump();
      if |ids| != op.Arity() {
        return Rejected(WrongArity(op, |ids|));
      }
      if op.Diff? {
        MeansOp(expr.nodes, ids[0], ts[0]);
        if !expr.nodes[ids[0]].op.Var? {
          return Rejected(NotAVariable);
        }
      }
      var id := Build(op, ids, ts);
      r := Built(id);
    }

    /** One or more expressions with commas between. */
    method ParseArgs(ghost env: seq<Binding>) returns (ids: seq<Id>, error: Option<SyntaxError>)
      requires Valid() && ScopeMeans(expr.nodes, scope, env)
      modifies this`pos, this`scope, expr
      ensures Valid() && old(expr.nodes) <= expr.nodes && (error.None? ==> scope == old(scope))
      ensures match Syntax.ParseArgs(names, old(Rest()), env)
              case ArgsFailed(e) => error == Some(e)
              case Args(ts, rest) => error.None? && AllMean(expr.nodes, ids, ts) && Rest() == rest
      decreases |toks| - pos, 4
    {
      hide Means, ScopeMeans, Lexed, MaximallyShared, Syntax.ParseExpr, Ordered;
      ghost var whole := Syntax.ParseArgs(names, Rest(), env);
      ghost var nodes0, scope0, pos0 := expr.nodes, scope, pos;
      ghost var ts: seq<Term> := [];
      ids := [];
      while true
        invariant Valid() && nodes0 <= expr.nodes && scope == scope0 && ScopeMeans(expr.nodes, scope, env)
        invariant AllMean(expr.nodes, ids, ts) && pos >= pos0
        invariant whole == Prepended(ts, Syntax.ParseArgs(names, Rest(), env))
        decreases |toks| - pos
      {
        ghost var nodes1 := expr.nodes;
        ghost var p := Syntax.ParseExpr(names, Rest(), 0, env);
        var arg := ParseExpr(0, env);
        if arg.Rejected? {
          return ids, Some(arg.error);
        }
        SharedIsOrdered(expr.nodes);
        ScopeGrows(nodes1, expr.nodes, scope, env);
        AllMeanGrows(nodes1, expr.nodes, ids, ts);
        AllMeanNext(expr.nodes, ids, ts, arg.id, p.term);
        ids := ids + [arg.id];
        ghost var before := ts;
        ts := ts + [p.term];
        var tok := Peek();
        if tok != Comma {
          return ids, None;
        }
        var _ := Bump();
        PrependedNext(before, p.term, Syntax.ParseArgs(names, Rest(), env));
      }
    }

    /** Inlined at once: the name stands for the node of what it is bound to. */
    method ParseLet(ghost env: seq<Binding>) returns (r: Outcome)
      requires Valid() && ScopeMeans(expr.nodes, scope, env)
      modifies this`pos, this`scope, expr
      ensures Valid() && old(expr.nodes) <= expr.nodes && (r.Built? ==> scope == old(scope))
      ensures Agrees(Syntax.ParseLet(names, old(Rest()), env), r, expr.nodes, Rest())
      decreases |toks| - pos, 3
    {
      hide Means, ScopeMeans, MaximallyShared, Syntax.ParseBinding, Ordered, Lexed;
      var name := Peek();
      if !name.Ident? {
        return Rejected(ExpectedName(name));
      }
      var _ := Bump();
      var eq := Peek();
      if eq != Equals {
        return Rejected(Expected(Equals, eq));
      }
      var _ := Bump();
      assert Rest() == old(Rest())[2..];
      r := ParseBinding(name.name, env);
    }

    method ParseBinding(name: string, ghost env: seq<Binding>) returns (r: Outcome)
      requires Valid() && ScopeMeans(expr.nodes, scope, env)
      modifies this`pos, this`scope, expr
      ensures Valid() && old(expr.nodes) <= expr.nodes && (r.Built? ==> scope == old(scope))
      ensures Agrees(Syntax.ParseBinding(names, name, old(Rest()), env), r, expr.nodes, Rest())
      decreases |toks| - pos, 5
    {
      hide Means, ScopeMeans, MaximallyShared, Syntax.ParseExpr, Ordered, Lexed;
      ghost var nodes0 := expr.nodes;
      ghost var p := Syntax.ParseExpr(names, Rest(), 0, env);
      r := ParseExpr(0, env);
      if r.Rejected? {
        return;
      }
      var word := Peek();
      if !word.Ident? {
        return Rejected(ExpectedName(word));
      }
      var _ := Bump();
      if word.name != "in" {
        return Rejected(ExpectedIn(word));
      }
      SharedIsOrdered(expr.nodes);
      ScopeGrows(nodes0, expr.nodes, scope, env);
      r := ParseBody(name, r.id, p.term, env);
    }

    /** The body of a binding, the name in scope for it alone. */
    method ParseBody(name: string, id: Id, ghost t: Term, ghost env: seq<Binding>) returns (r: Outcome)
      requires Valid() && ScopeMeans(expr.nodes, scope, env) && Means(expr.nodes, id, t)
      modifies this`pos, this`scope, expr
      ensures Valid() && old(expr.nodes) <= expr.nodes && (r.Built? ==> scope == old(scope))
      ensures Agrees(Syntax.ParseExpr(names, old(Rest()), 0, env + [Binding(name, t)]), r, expr.nodes, Rest())
      decreases |toks| - pos, 4
    {
      hide Means, ScopeMeans, MaximallyShared, Syntax.ParseExpr, Ordered, Lexed;
      ScopeNext(expr.nodes, scope, env, Bound(name, id), Binding(name, t));
      scope := scope + [Bound(name, id)];
      r := ParseExpr(0, env + [Binding(name, t)]);
      if r.Built? {
        scope := scope[..|scope| - 1];
      }
    }
  }

  /** Arguments read before a list of them. */
  ghost function Prepended(ts: seq<Term>, p: ParsedArgs): ParsedArgs {
    if p.ArgsFailed? then p else Args(ts + p.terms, p.rest)
  }

  lemma PrependedNext(ts: seq<Term>, t: Term, p: ParsedArgs)
    ensures Prepended(ts + [t], p) == Prepended(ts, Prepended([t], p))
  {
    assert p.Args? ==> ts + [t] + p.terms == ts + ([t] + p.terms);
  }

  lemma AllMeanNext(nodes: seq<ENode>, ids: seq<Id>, ts: seq<Term>, id: Id, t: Term)
    requires AllMean(nodes, ids, ts) && Means(nodes, id, t)
    ensures AllMean(nodes, ids + [id], ts + [t])
  {
  }

  lemma ScopeNext(nodes: seq<ENode>, scope: seq<Bound>, env: seq<Binding>, bound: Bound, binding: Binding)
    requires ScopeMeans(nodes, scope, env) && bound.name == binding.name && Means(nodes, bound.id, binding.term)
    ensures ScopeMeans(nodes, scope + [bound], env + [binding])
  {
  }

  lemma PairMeans(nodes: seq<ENode>, a: Id, b: Id, t: Term, u: Term)
    requires Means(nodes, a, t) && Means(nodes, b, u)
    ensures AllMean(nodes, [a, b], [t, u])
  {
  }

  lemma OneMeans(nodes: seq<ENode>, a: Id, t: Term)
    requires Means(nodes, a, t)
    ensures AllMean(nodes, [a], [t])
  {
  }

  // ----- whole inputs -----

  /** Parse one expression and nothing after it, keeping what its root reaches. */
  method Parse(names: Names, toks: seq<Tok>) returns (out: RecExpr, error: Option<SyntaxError>)
    requires Lexed(toks)
    ensures fresh(out) && out.Valid()
    ensures match Syntax.Parse(names, toks)
            case Failed(e) => error == Some(e)
            case Done(t, _) => error.None? && out.nodes != [] && Means(out.nodes, |out.nodes| - 1, t)
  {
    hide Syntax.ParseExpr, MaximallyShared, Unfold, Alike;
    var p := new Parser(names, toks);
    out := p.expr;
    SharedIsOrdered(p.expr.nodes);
    var r := p.ParseExpr(0, []);
    if r.Rejected? {
      return out, Some(r.error);
    }
    var tok := p.Peek();
    if tok != Eof {
      return out, Some(Expected(Eof, tok));
    }
    out := p.expr.Compact(r.id);
    SharedIsOrdered(out.nodes);
    error := None;
  }

  /** The node fits what the printer expects of its operator. */
  lemma NodeIsTerm(names: Names, nodes: seq<ENode>, id: Id)
    requires Ordered(nodes) && id < |nodes| && IsTerm(names, Unfold(nodes, id))
    ensures Below(nodes[id], id) && |nodes[id].children| == nodes[id].op.Arity()
    ensures forall k | 0 <= k < |nodes[id].children| :: IsTerm(names, Unfold(nodes, nodes[id].children[k]))
  {
    var t := Unfold(nodes, id);
    forall k | 0 <= k < |nodes[id].children|
      ensures IsTerm(names, Unfold(nodes, nodes[id].children[k]))
    {
      assert t.args[k] == Unfold(nodes, nodes[id].children[k]);
    }
  }

  /** Append a node in infix form, bracketed if it binds more loosely than its
      position asks. */
  method WriteInfix(names: Names, nodes: seq<ENode>, id: Id, parentPrec: nat, out0: seq<Tok>) returns (out: seq<Tok>)
    requires Ordered(nodes) && id < |nodes| && IsTerm(names, Unfold(nodes, id))
    ensures out == out0 + Print(names, Unfold(nodes, id), parentPrec)
    decreases id, 1
  {
    hide Unfold, IsTerm, Print, LiteralToks, FnName, NameTok, Ordered;
    var n := nodes[id];
    ghost var t := Unfold(nodes, id);
    UnfoldIsNode(nodes, id);
    PrintIsBracketed(names, t, parentPrec);
    NodeIsTerm(names, nodes, id);
    var paren := if n.op.Const? then IsNegative(n.op.c) && parentPrec > 0
                 else if n.op.Neg? || n.op.Not? then UNARY_PREC < parentPrec
                 else IsInfix(n.op) && Precedence(n.op) < parentPrec;
    out := out0 + if paren then [LParen] else [];
    if n.op.Const? {
      out := out + LiteralToks(n.op.c);
    } else if n.op.Var? {
      out := out + [NameTok(names.text(n.op.s))];
    } else if n.op.Neg? || n.op.Not? {
      out := out + [if n.op.Neg? then Minus else Bang];
      out := WriteInfix(names, nodes, n.children[0], UNARY_PREC, out);
    } else if IsInfix(n.op) {
      out := WriteInfix(names, nodes, n.children[0], LeftPrec(n.op), out);
      out := out + [InfixTok(n.op)];
      out := WriteInfix(names, nodes, n.children[1], RightPrec(n.op), out);
    } else {
      out := WriteCall(names, nodes, id, out);
    }
    assert out == out0 + (if paren then [LParen] else []) + Bare(names, t);
    out := out + if paren then [RParen] else [];
  }

  method WriteCall(names: Names, nodes: seq<ENode>, id: Id, out0: seq<Tok>) returns (out: seq<Tok>)
    requires Ordered(nodes) && id < |nodes| && IsTerm(names, Unfold(nodes, id)) && IsCall(nodes[id].op)
    ensures out == out0 + ([Ident(FnName(nodes[id].op)), LParen] + PrintArgs(names, Unfold(nodes, id), 0) + [RParen])
    decreases id, 0
  {
    hide Unfold, IsTerm, Print, FnName, Ordered;
    var n := nodes[id];
    ghost var t := Unfold(nodes, id);
    UnfoldIsNode(nodes, id);
    NodeIsTerm(names, nodes, id);
    out := out0 + [Ident(FnName(n.op)), LParen];
    ghost var all := out + PrintArgs(names, t, 0);
    for k := 0 to |n.children|
      invariant all == out + PrintArgs(names, t, k)
    {
      if k > 0 {
        out := out + [Comma];
      }
      assert all == out + (Print(names, t.args[k], 0) + PrintArgs(names, t, k + 1));
      out := WriteInfix(names, nodes, n.children[k], 0, out);
    }
    assert all == out;
    out := out + [RParen];
  }

  lemma UnfoldIsNode(nodes: seq<ENode>, id: Id)
    requires Ordered(nodes) && id < |nodes|
    ensures var t := Unfold(nodes, id);
            && Below(nodes[id], id) && t.op == nodes[id].op && |t.args| == |nodes[id].children|
            && (forall k | 0 <= k < |t.args| :: t.args[k] == Unfold(nodes, nodes[id].children[k]))
  {
  }

  lemma PrintIsBracketed(names: Names, t: Term, prec: nat)
    requires IsTerm(names, t)
    ensures Print(names, t, prec) == Bracketed(Bare(names, t), NeedsBrackets(t, prec))
    ensures t.op.Const? ==> IsDouble(t.op.c)
    ensures |t.args| == t.op.Arity() && forall k | 0 <= k < |t.args| :: IsTerm(names, t.args[k])
  {
  }

  method Pretty(names: Names, e: RecExpr) returns (toks: seq<Tok>)
    requires e.Valid() && e.nodes != [] && Ordered(e.nodes) && IsTerm(names, Unfold(e.nodes, |e.nodes| - 1))
    ensures toks == Print(names, Unfold(e.nodes, |e.nodes| - 1), 0)
  {
    toks := WriteInfix(names, e.nodes, |e.nodes| - 1, 0, []);
  }

  /** Print an expression and parse the tokens: a printable tree comes back, the
      order of commutative arguments aside. */
  method PrintAndParse(names: Names, e: RecExpr) returns (out: RecExpr, error: Option<SyntaxError>)
    requires e.Valid() && e.nodes != [] && Ordered(e.nodes) && IsTerm(names, Unfold(e.nodes, |e.nodes| - 1))
    ensures Printable(names, Unfold(e.nodes, |e.nodes| - 1)) ==>
              error.None? && out.Valid() && out.nodes != []
              && Means(out.nodes, |out.nodes| - 1, Unfold(e.nodes, |e.nodes| - 1))
  {
    hide Print, Printable, Unfold, IsTerm, Syntax.Parse, Means, MaximallyShared;
    ghost var t := Unfold(e.nodes, |e.nodes| - 1);
    RoundTripsExactly(names, t);
    var toks := Pretty(names, e);
    out, error := Parse(names, toks + [Eof]);
  }
}
