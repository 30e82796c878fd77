/** An interpretation of the ids, and why the graph never merges ids that
    denote different values. */
module Meanings {
  import opened Options
  import opened Lang
  import opened Graphs

  /** What a term denotes. Left abstract: a double, or a function of the
      environment when derivatives are to have a meaning. */
  type Value(==, !new)

  /** What operators compute, which facts are true of which values, and the
      operators for which the analysis is vouched for. */
  datatype Semantics = Semantics(eval: (Op, seq<Value>) -> Value, holds: (Fact, Value) -> bool, knows: Op -> bool)

  /** An e-class analysis: the fact of one node from those of its children, and
      the combination of two facts about one value. */
  datatype Analysis = Analysis(make: (Op, seq<Fact>) -> Fact, merge: (Fact, Fact) -> Fact)

  /** A node as it should be, of an operator vouched for. */
  predicate Vouched(sem: Semantics, node: ENode) {
    sem.knows(node.op) && |node.children| == node.op.Arity()
  }

  ghost predicate AllHold(sem: Semantics, facts: seq<Fact>, values: seq<Value>) {
    && |facts| == |values|
    && (forall k | 0 <= k < |facts| :: sem.holds(facts[k], values[k]))
  }

  /** Of the operators vouched for, commutative ones commute and facts are
      computed soundly; facts about one value combine soundly, and a constant
      one pins the value to a literal that is vouched for. */
  ghost predicate Respects(sem: Semantics, analysis: Analysis) {
    && (forall op: Op, a: Value, b: Value | op.IsCommutative() && sem.knows(op) ::
          sem.eval(op, [a, b]) == sem.eval(op, [b, a]))
    && (forall op: Op, facts: seq<Fact>, values: seq<Value>
          | sem.knows(op) && |facts| == op.Arity() && AllHold(sem, facts, values) ::
          sem.holds(analysis.make(op, facts), sem.eval(op, values)))
    && (forall f: Fact, h: Fact, v: Value | sem.holds(f, v) && sem.holds(h, v) :: sem.holds(analysis.merge(f, h), v))
    && (forall f: Fact, v: Value | sem.holds(f, v) && f.constant.Some? ::
          sem.knows(Const(f.constant.value)) && v == sem.eval(Const(f.constant.value), []))
  }

  function Arguments(meaning: seq<Value>, children: seq<Id>): (args: seq<Value>)
    requires forall k | 0 <= k < |children| :: children[k] < |meaning|
    ensures |args| == |children|
    ensures forall k | 0 <= k < |children| :: args[k] == meaning[children[k]]
  {
    seq(|children|, k requires 0 <= k < |children| => meaning[children[k]])
  }

  /** The value of a node whose children denote what `meaning` says. */
  function Denotes(sem: Semantics, meaning: seq<Value>, node: ENode): Value
    requires Below(node, |meaning|)
  {
    sem.eval(node.op, Arguments(meaning, node.children))
  }

  /** Merged ids denote one value, every node of a class evaluates to it and is
      vouched for. */
  ghost predicate Meaningful(sem: Semantics, meaning: seq<Value>, g: Graph) {
    && WellFormed(g)
    && |meaning| == |g.root|
    && (forall i | 0 <= i < |g.root| :: g.root[i] < |g.root| && meaning[g.root[i]] == meaning[i])
    && (forall c: Id, node | Has(g, c, node) && Below(node, |g.root|) && c < |g.root| ::
          Vouched(sem, node) && Denotes(sem, meaning, node) == meaning[c])
  }

  /** The fact of every class is true of its value. */
  ghost predicate Factual(sem: Semantics, meaning: seq<Value>, g: Graph) {
    forall c: Id | c < |g.classes| && c < |meaning| && g.classes[c].Some? ::
      sem.holds(g.classes[c].value.data, meaning[c])
  }

  /** Congruent nodes, argument swaps included, denote one value. */
  lemma CongruentDenotes(sem: Semantics, analysis: Analysis, meaning: seq<Value>, part: seq<nat>, a: ENode, b: ENode)
    requires Respects(sem, analysis) && |part| == |meaning|
    requires forall i, j | 0 <= i < |part| && 0 <= j < |part| && part[i] == part[j] :: meaning[i] == meaning[j]
    requires Below(a, |part|) && Below(b, |part|) && Canon(part, a) == Canon(part, b) && Vouched(sem, a)
    ensures Denotes(sem, meaning, a) == Denotes(sem, meaning, b)
  {
    CanonDecidesCongruence(part, a, b);
    var va, vb := Arguments(meaning, a.children), Arguments(meaning, b.children);
    if forall k | 0 <= k < |a.children| :: part[a.children[k]] == part[b.children[k]] {
      assert va == vb;
    } else {
      assert va == [va[0], va[1]] && vb == [va[1], va[0]];
    }
  }

  lemma SameClassSameMeaning(sem: Semantics, meaning: seq<Value>, g: Graph)
    requires Meaningful(sem, meaning, g)
    ensures forall i, j | 0 <= i < |g.root| && 0 <= j < |g.root| && g.root[i] == g.root[j] :: meaning[i] == meaning[j]
  {
    forall i, j | 0 <= i < |g.root| && 0 <= j < |g.root| && g.root[i] == g.root[j]
      ensures meaning[i] == meaning[j]
    {
      assert meaning[g.root[i]] == meaning[i] && meaning[g.root[j]] == meaning[j];
    }
  }

  /** A class owning a canonical form denotes the value of the form. */
  lemma OwnerDenotes(sem: Semantics, analysis: Analysis, meaning: seq<Value>, g: Graph, c: Id, node: ENode)
    requires Respects(sem, analysis) && Meaningful(sem, meaning, g)
    requires Below(node, |g.root|) && Owns(g, c, Canon(g.root, node))
    ensures c < |g.root| && Vouched(sem, node) && meaning[c] == Denotes(sem, meaning, node)
  {
    var own :| Has(g, c, own) && Below(own, |g.root|) && Canon(g.root, own) == Canon(g.root, node);
    SameClassSameMeaning(sem, meaning, g);
    CongruentDenotes(sem, analysis, meaning, g.root, own, node);
  }

  lemma JoinMeaningful(sem: Semantics, meaning: seq<Value>, g: Graph, ra: Id, rb: Id, data: Fact)
    requires Meaningful(sem, meaning, g) && Joinable(g, ra, rb) && meaning[ra] == meaning[rb]
    ensures Meaningful(sem, meaning, Joined(g, ra, rb, data))
  {
    var j := Joined(g, ra, rb, data);
    JoinWellFormed(g, ra, rb, data);
    forall c: Id, node | Has(j, c, node) && Below(node, |g.root|) && c < |g.root|
      ensures Vouched(sem, node) && Denotes(sem, meaning, node) == meaning[c]
    {
      JoinHas(g, ra, rb, data, c, node);
    }
  }

  lemma JoinFactual(sem: Semantics, analysis: Analysis, meaning: seq<Value>, g: Graph, ra: Id, rb: Id)
    requires Respects(sem, analysis) && Factual(sem, meaning, g) && Joinable(g, ra, rb)
    requires |meaning| == |g.root| && meaning[ra] == meaning[rb]
    ensures Factual(sem, meaning, Joined(g, ra, rb, analysis.merge(g.classes[ra].value.data, g.classes[rb].value.data)))
  {
  }

  lemma DenotesExtends(sem: Semantics, meaning: seq<Value>, more: seq<Value>, node: ENode)
    requires Below(node, |meaning|)
    ensures Denotes(sem, meaning + more, node) == Denotes(sem, meaning, node)
  {
    assert Arguments(meaning + more, node.children) == Arguments(meaning, node.children);
  }

  lemma AddMeaningful(sem: Semantics, meaning: seq<Value>, g: Graph, after: Graph, node: ENode, fact: Fact)
    requires Meaningful(sem, meaning, g) && Addable(g, after, node, fact) && WellFormed(after) && Vouched(sem, node)
    ensures Meaningful(sem, meaning + [Denotes(sem, meaning, node)], after)
  {
    var v := Denotes(sem, meaning, node);
    forall i | 0 <= i < |after.root|
      ensures after.root[i] < |after.root| && (meaning + [v])[after.root[i]] == (meaning + [v])[i]
    {
      if i < |g.root| {
        assert Slot(g, i);
      }
    }
    forall c: Id, m | Has(after, c, m) && Below(m, |after.root|) && c < |after.root|
      ensures Vouched(sem, m) && Denotes(sem, meaning + [v], m) == (meaning + [v])[c]
    {
      AddHas(g, after, node, fact, c, m);
      if Has(g, c, m) {
        HasIsBelow(g, c, m);
      }
      DenotesExtends(sem, meaning, [v], m);
    }
  }

  lemma AddFactual(sem: Semantics, meaning: seq<Value>, g: Graph, after: Graph, node: ENode, fact: Fact, v: Value)
    requires Factual(sem, meaning, g) && |meaning| == |g.root| && WellFormed(g) && Added(g, after, node, fact)
    requires sem.holds(fact, v)
    ensures Factual(sem, meaning + [v], after)
  {
    var n := |g.root|;
    forall c: Id | c < |after.classes| && c < n + 1 && after.classes[c].Some?
      ensures sem.holds(after.classes[c].value.data, (meaning + [v])[c])
    {
      assert PushedAt(g.root, (g.classes + [Some(EClass(n, [node], fact, []))])[c], after.classes[c],
                      Parent(node, n), |node.children|, c);
    }
  }
}
