/** The side conditions of rules: what each asks of the graph, and what its
    answer says of values. */
module Conditions {
  import opened Options
  import opened Lang
  import opened Graphs
  import opened Meanings
  import opened Histories
  import opened Terms
  import opened Extraction
  import opened Patterns
  import opened EGraphs
  import opened Differentiation

  /** On the fact of the class matched and the facts of the classes the variables
      are bound to; on whether one class can vary with the variable another holds;
      on two classes being different; on two conditions. */
  datatype Condition =
    | OnFacts(test: (Fact, map<Sym, Fact>) -> bool)
    | IsIndependent(body: Sym, x: Sym)
    | IsDependent(body: Sym, x: Sym)
    | IsDistinct(a: Sym, b: Sym)
    | Both(first: Condition, second: Condition)

  /** The condition holds of a match in the graph. */
  ghost predicate HoldsOf(g: Graph, cond: Condition, d: Fact, facts: map<Sym, Fact>, s: Subst) {
    match cond
    case OnFacts(test) => test(d, facts)
    case IsIndependent(body, x) => body in s && x in s && Independent(g, s[body], s[x])
    case IsDependent(body, x) => body in s && x in s && Dependent(g, s[body], s[x])
    case IsDistinct(a, b) =>
      a in s && b in s && s[a] < |g.root| && s[b] < |g.root| && g.root[s[a]] != g.root[s[b]]
    case Both(first, second) => HoldsOf(g, first, d, facts, s) && HoldsOf(g, second, d, facts, s)
  }

  /** The value is that of a variable. */
  ghost predicate IsVariable(sem: Semantics, x: Value, v: Sym) {
    sem.eval(Var(v), []) == x
  }

  /** The value is that of a term without the variable. */
  ghost predicate HasTermWithout(sem: Semantics, body: Value, v: Sym) {
    exists t :: Lacks(v, t) && TermValue(sem, t) == body
  }

  /** What a condition that holds says of the values of its variables. A body that
      provably cannot vary is the value of a term without the variable; that a body
      may vary, or that two classes are not merged yet, says nothing of the body
      or of the two. */
  ghost predicate Grants(sem: Semantics, cond: Condition, d: Fact, facts: map<Sym, Fact>, values: map<Sym, Value>) {
    match cond
    case OnFacts(test) => test(d, facts)
    case IsIndependent(body, x) =>
      && body in values && x in values
      && exists v :: IsVariable(sem, values[x], v) && HasTermWithout(sem, values[body], v)
    case IsDependent(body, x) => body in values && x in values && exists v :: IsVariable(sem, values[x], v)
    case IsDistinct(a, b) => a in values && b in values
    case Both(first, second) => Grants(sem, first, d, facts, values) && Grants(sem, second, d, facts, values)
  }

  /** A class holding a variable denotes its value. */
  lemma VariableDenotes(sem: Semantics, meaning: seq<Value>, g: Graph, x: Id, v: Sym)
    requires Meaningful(sem, meaning, g) && HoldsVar(g, x, v)
    ensures x < |meaning| && IsVariable(sem, meaning[x], v)
  {
    var n :| Has(g, g.root[x], n) && n.op == Var(v);
    HasIsBelow(g, g.root[x], n);
    assert Denotes(sem, meaning, n) == meaning[g.root[x]] == meaning[x];
    assert Arguments(meaning, n.children) == [];
  }

  /** Whatever a condition answers in a graph of equal values is true of the
      values. */
  lemma {:induction false} HeldIsGranted(sem: Semantics, analysis: Analysis, meaning: seq<Value>, g: Graph,
                                         cond: Condition, d: Fact, facts: map<Sym, Fact>, s: Subst)
    requires Respects(sem, analysis) && Meaningful(sem, meaning, g) && HoldsOf(g, cond, d, facts, s)
    requires forall v | v in s :: s[v] < |meaning|
    ensures Grants(sem, cond, d, facts, Assigned(meaning, s))
    decreases cond
  {
    hide Meaningful, Respects, HasWitness;
    match cond {
      case OnFacts(_) =>
      case IsIndependent(body, x) =>
        var v :| HoldsVar(g, s[x], v);
        VariableDenotes(sem, meaning, g, s[x], v);
        WitnessDenotes(sem, analysis, meaning, g, s[body], v);
        assert IsVariable(sem, Assigned(meaning, s)[x], v) && HasTermWithout(sem, Assigned(meaning, s)[body], v);
      case IsDependent(body, x) =>
        var v :| HoldsVar(g, s[x], v);
        VariableDenotes(sem, meaning, g, s[x], v);
        assert IsVariable(sem, Assigned(meaning, s)[x], v);
      case IsDistinct(_, _) =>
      case Both(first, second) =>
        HeldIsGranted(sem, analysis, meaning, g, first, d, facts, s);
        HeldIsGranted(sem, analysis, meaning, g, second, d, facts, s);
    }
  }

  lemma WitnessDenotes(sem: Semantics, analysis: Analysis, meaning: seq<Value>, g: Graph, c: Id, v: Sym)
    requires Respects(sem, analysis) && Meaningful(sem, meaning, g) && HasWitness(g, c, v)
    ensures c < |meaning| && HasTermWithout(sem, meaning[c], v)
  {
    var t :| Represents(g, c, t) && Lacks(v, t);
    RepresentsDenotes(sem, analysis, meaning, g, c, t);
  }

  function Bound(s: Subst, v: Sym): Option<Id> {
    if v in s then Some(s[v]) else None
  }

  /** Ask the graph. */
  method Test(e: EGraph, cond: Condition, d: Fact, facts: map<Sym, Fact>, s: Subst) returns (yes: bool)
    requires e.Core() && forall v | v in s :: s[v] < |e.unionfind.root|
    ensures yes <==> HoldsOf(e.View(), cond, d, facts, s)
    decreases cond
  {
    hide Independent, Dependent, Bookkept, Recounted;
    match cond {
      case OnFacts(test) => yes := test(d, facts);
      case IsIndependent(body, x) => yes := IndependentOf(e, Bound(s, body), Bound(s, x));
      case IsDependent(body, x) => yes := DependsOn(e, Bound(s, body), Bound(s, x));
      case IsDistinct(a, b) =>
        yes := false;
        if a in s && b in s {
          var left := e.Find(s[a]);
          var right := e.Find(s[b]);
          yes := left != right;
        }
      case Both(first, second) =>
        yes := Test(e, first, d, facts, s);
        if yes {
          yes := Test(e, second, d, facts, s);
        }
    }
  }
}
