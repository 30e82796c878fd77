/** The whole stack: add an expression, saturate, extract. */
module Saturation {
  import opened Lang
  import opened UnionFinds
  import opened Expressions
  import opened Graphs
  import opened Congruences
  import opened Meanings
  import opened Steps
  import opened Histories
  import opened Reindexing
  import opened Terms
  import opened Rewriting
  import opened EGraphs
  import opened Extraction
  import opened Closures
  import opened Runners

  /** The node with its children mapped to the ids they were given. */
  function Mapped(nodes: seq<ENode>, ids: seq<Id>, i: nat): ENode
    requires Ordered(nodes) && i < |nodes| && i <= |ids|
  {
    MapChildren(ids, nodes[i])
  }

  /** Every node so far has been added, over the ids its children were given. */
  ghost predicate AllAdded(nodes: seq<ENode>, ids: seq<Id>, log: seq<Entry>)
    requires Ordered(nodes)
  {
    |ids| <= |nodes| && forall i | 0 <= i < |ids| :: Entry(Mapped(nodes, ids, i), ids[i]) in log
  }

  lemma AddedSoFar(nodes: seq<ENode>, ids: seq<Id>, id: Id, log: seq<Entry>, more: seq<Entry>)
    requires Ordered(nodes) && AllAdded(nodes, ids, log) && |ids| < |nodes|
    requires log <= more && Entry(Mapped(nodes, ids, |ids|), id) in more
    ensures AllAdded(nodes, ids + [id], more)
  {
    forall i | 0 <= i < |ids| + 1
      ensures Entry(Mapped(nodes, ids + [id], i), (ids + [id])[i]) in more
    {
      assert Mapped(nodes, ids + [id], i) == Mapped(nodes, ids, i);
    }
  }

  /** Every node added denotes the value of its subterm. */
  ghost predicate AllDenote(sem: Semantics, nodes: seq<ENode>, ids: seq<Id>, meaning: seq<Value>)
    requires Ordered(nodes)
  {
    |ids| <= |nodes| && forall i | 0 <= i < |ids| ::
      ids[i] < |meaning| && meaning[ids[i]] == TermValue(sem, Unfold(nodes, i))
  }

  lemma DenotesSoFar(sem: Semantics, nodes: seq<ENode>, ids: seq<Id>, id: Id, meaning: seq<Value>, more: seq<Value>)
    requires Ordered(nodes) && AllDenote(sem, nodes, ids, meaning) && |ids| < |nodes| && meaning <= more && id < |more|
    requires Below(Mapped(nodes, ids, |ids|), |meaning|) && more[id] == Denotes(sem, meaning, Mapped(nodes, ids, |ids|))
    ensures AllDenote(sem, nodes, ids + [id], more)
  {
    var n := |ids|;
    assert Below(nodes[n], n);
    var t := Unfold(nodes, n);
    assert TermValues(sem, t.args) == Arguments(meaning, Mapped(nodes, ids, n).children);
  }

  /** Every operator of the expression is vouched for. */
  predicate NodesVouched(sem: Semantics, nodes: seq<ENode>) {
    forall i | 0 <= i < |nodes| :: sem.knows(nodes[i].op)
  }

  lemma VouchedSoFar(sem: Semantics, nodes: seq<ENode>, i: nat)
    requires i < |nodes|
    ensures NodesVouched(sem, nodes[..i + 1]) <==> NodesVouched(sem, nodes[..i]) && sem.knows(nodes[i].op)
  {
    assert nodes[..i + 1] == nodes[..i] + [nodes[i]];
  }

  /** Add every node of an expression, returning the id of its root. */
  method AddExpr(e: EGraph, nodes: seq<ENode>) returns (ids: seq<Id>)
    requires e.Valid() && Topological(nodes) && nodes != []
    modifies e, e.unionfind
    ensures e.Valid() && |ids| == |nodes| && AllAdded(nodes, ids, e.log)
    ensures forall i | 0 <= i < |ids| :: ids[i] < |e.unionfind.root|
    ensures Extends(old(e.Account()), e.Account(), NodesVouched(e.sem, nodes))
    ensures e.faithful == (old(e.faithful) && NodesVouched(e.sem, nodes))
    ensures Respects(e.sem, e.analysis) && e.faithful ==> AllDenote(e.sem, nodes, ids, e.meaning)
  {
    hide Forest, Recounted, Settled, Bookkept, Rebuilt, Extends, Respects, Denotes, AllAdded, AllDenote, Canon, Owns,
         WellFormed, Unfold;
    ghost var start := e.Account();
    ExtendsItself(start, false);
    ids := [];
    NothingAdded(e.sem, nodes, e.log, e.meaning);
    for i := 0 to |nodes|
      invariant e.Valid() && |ids| == i && (forall j | 0 <= j < i :: ids[j] < |e.unionfind.root|)
      invariant AllAdded(nodes, ids, e.log)
      invariant Extends(start, e.Account(), false)
      invariant e.faithful == (old(e.faithful) && NodesVouched(e.sem, nodes[..i]))
      invariant Respects(e.sem, e.analysis) && e.faithful ==> AllDenote(e.sem, nodes, ids, e.meaning)
    {
      assert Below(nodes[i], i) && |nodes[i].children| == nodes[i].op.Arity();
      ghost var before, g := e.Account(), e.View();
      var node := MapChildren(ids, nodes[i]);
      var id := e.Add(node);
      AddExtends(e.sem, before, e.Account(), node, id, false);
      ExtendsTransitive(start, before, e.Account(), false);
      VouchedSoFar(e.sem, nodes, i);
      AddedSoFar(nodes, ids, id, before.log, e.log);
      if Respects(e.sem, e.analysis) && e.faithful {
        DenotesSoFar(e.sem, nodes, ids, id, before.meaning, e.meaning);
      }
      ids := ids + [id];
    }
    assert nodes[..|nodes|] == nodes;
    ExtendsIfFaithful(start, e.Account(), NodesVouched(e.sem, nodes));
  }

  lemma ExtendsIfFaithful(a: Ledger, b: Ledger, sound: bool)
    requires Extends(a, b, false) && (sound && a.faithful ==> b.faithful)
    ensures Extends(a, b, sound)
  {
  }

  lemma NothingAdded(sem: Semantics, nodes: seq<ENode>, log: seq<Entry>, meaning: seq<Value>)
    requires Ordered(nodes)
    ensures AllAdded(nodes, [], log) && AllDenote(sem, nodes, [], meaning)
  {
  }

  /** A class a record places a term in still holds the term. */
  lemma {:induction false} AddedIsRepresented(g: Graph, log: seq<Entry>, asserted: seq<Equation>, nodes: seq<ENode>,
                                              ids: seq<Id>, i: nat)
    requires Recorded(g, log, asserted) && Ordered(nodes) && AllAdded(nodes, ids, log) && i < |ids|
    ensures Represents(g, ids[i], Unfold(nodes, i))
    decreases i
  {
    var node := Mapped(nodes, ids, i);
    var t := Unfold(nodes, i);
    assert Below(nodes[i], i);
    assert Entry(node, ids[i]) in log;
    var own :| Has(g, g.root[ids[i]], own) && Below(own, |g.root|) && Canon(g.root, own) == Canon(g.root, node);
    forall k | 0 <= k < |t.args|
      ensures Represents(g, node.children[k], t.args[k])
    {
      AddedIsRepresented(g, log, asserted, nodes, ids, nodes[i].children[k]);
    }
    CongruentRepresents(g, ids[i], own, node, t);
  }

  /** A congruent node reads the same terms. */
  lemma CongruentRepresents(g: Graph, c: Id, own: ENode, node: ENode, t: Term)
    requires WellFormed(g) && c < |g.root| && Has(g, g.root[c], own) && Below(own, |g.root|) && Below(node, |g.root|)
    requires Canon(g.root, own) == Canon(g.root, node) && node.op == t.op && |node.children| == |t.args|
    requires forall k | 0 <= k < |t.args| :: Represents(g, node.children[k], t.args[k])
    ensures Represents(g, c, t)
  {
    CanonDecidesCongruence(g.root, own, node);
    var m := if forall k | 0 <= k < |own.children| :: g.root[own.children[k]] == g.root[node.children[k]] then own
             else Flip(own);
    forall k | 0 <= k < |t.args|
      ensures Represents(g, m.children[k], t.args[k])
    {
      assert g.root[m.children[k]] == g.root[node.children[k]];
      RepresentsRoot(g, node.children[k], m.children[k], t.args[k]);
    }
    assert Fits(g, m, t);
  }

  lemma RepresentsRoot(g: Graph, c: Id, d: Id, t: Term)
    requires Represents(g, c, t) && d < |g.root| && g.root[c] == g.root[d]
    ensures Represents(g, d, t)
  {
    var n, m := NodeFor(g, c, t);
  }

  lemma StillAdded(nodes: seq<ENode>, ids: seq<Id>, log: seq<Entry>, more: seq<Entry>)
    requires Ordered(nodes) && AllAdded(nodes, ids, log) && log <= more
    ensures AllAdded(nodes, ids, more)
  {
  }

  lemma StillDenotes(sem: Semantics, nodes: seq<ENode>, ids: seq<Id>, meaning: seq<Value>, more: seq<Value>, i: nat)
    requires Ordered(nodes) && AllDenote(sem, nodes, ids, meaning) && meaning <= more && i < |ids|
    ensures ids[i] < |more| && more[ids[i]] == TermValue(sem, Unfold(nodes, i))
  {
  }

  lemma WhatExtends(a: Ledger, b: Ledger, sound: bool)
    requires Extends(a, b, sound)
    ensures a.log <= b.log && a.meaning <= b.meaning && Grows(a.root, b.root)
    ensures sound && a.faithful ==> b.faithful
    ensures Proper(a.log) ==> Proper(b.log)
  {
  }

  /** The best term of a class that an expression was put in means what the
      expression meant, and costs no more. */
  lemma BestMeansTheSame(sem: Semantics, analysis: Analysis, faithful: bool, meaning: seq<Value>, g: Graph,
                         pending: set<Id>,
                         log: seq<Entry>, asserted: seq<Equation>, price: Price, nodes: seq<ENode>, ids: seq<Id>,
                         cost: nat, best: seq<ENode>)
    requires Settled(sem, analysis, faithful, meaning, g, pending, log, asserted)
    requires Ordered(nodes) && nodes != [] && |ids| == |nodes| && AllAdded(nodes, ids, log)
    requires IsBest(price, g, ids[|ids| - 1], cost, best)
    ensures Ordered(best) && best != [] && cost == TermCost(price, Unfold(best, |best| - 1))
    ensures cost <= TermCost(price, Unfold(nodes, |nodes| - 1))
    ensures Respects(sem, analysis) && faithful ==>
              ids[|ids| - 1] < |meaning| && TermValue(sem, Unfold(best, |best| - 1)) == meaning[ids[|ids| - 1]]
  {
    hide Respects, Steps.Settled, Meaningful, Recorded, AllAdded, TermValue, TermCost;
    SettledMeans(sem, analysis, faithful, meaning, g, pending, log, asserted);
    var c := ids[|ids| - 1];
    AddedIsRepresented(g, log, asserted, nodes, ids, |nodes| - 1);
    if Respects(sem, analysis) && faithful {
      RepresentsDenotes(sem, analysis, meaning, g, c, Unfold(best, |best| - 1));
    }
  }

  /** Add an expression, run the rules, and extract the cheapest equal term. If the
      rules are sound, and they and the expression stay within the operators
      vouched for, the result means what the input meant, however the run
      stopped; it never costs more. */
  method Simplify(runner: Runner, rules: seq<Rule>, price: Price, nodes: seq<ENode>) returns (cost: nat, best: RecExpr)
    requires runner.egraph.Valid() && runner.scheduler.Valid() && GoodRules(rules) && Proper(runner.egraph.log)
    requires Topological(nodes) && nodes != [] && Fair(price)
    modifies runner, runner.egraph, runner.egraph.unionfind, runner.scheduler
    ensures best.Valid() && best.nodes != [] && cost == TermCost(price, Unfold(best.nodes, |best.nodes| - 1))
    ensures cost <= TermCost(price, Unfold(nodes, |nodes| - 1))
    ensures runner.RunIsSound(rules) && NodesVouched(runner.egraph.sem, nodes) && old(runner.egraph.faithful) ==>
              TermValue(runner.egraph.sem, Unfold(best.nodes, |best.nodes| - 1))
              == TermValue(runner.egraph.sem, Unfold(nodes, |nodes| - 1))
  {
    hide Forest, Recounted, Settled, Bookkept, Rebuilt, Extends, Respects, AllAdded, AllDenote, Proper, SoundRules,
         FitsClosed, GoodRule, IsBest, Represents, Unfold, MaximallyShared, Fair, Constantless;
    var e := runner.egraph;
    ghost var start := e.Account();
    ghost var sound := runner.RunIsSound(rules);
    var ids := AddExpr(e, nodes);
    ghost var between := e.Account();
    WhatExtends(start, between, NodesVouched(e.sem, nodes));
    ghost var passes, first;
    passes, first := runner.Run(rules);
    ghost var after := e.Account();
    WhatExtends(between, after, sound);
    StillAdded(nodes, ids, between.log, after.log);
    if Respects(e.sem, e.analysis) && between.faithful {
      StillDenotes(e.sem, nodes, ids, between.meaning, after.meaning, |ids| - 1);
    }
    var c := ids[|ids| - 1];
    ghost var g := e.View();
    AddedIsThere(e.sem, e.analysis, e.faithful, e.meaning, g, PendingSet(e.pending), e.log, e.asserted, nodes, ids, c);
    var found := TryFindBest(e, price, c);
    assert e.View() == g;
    best := found.value.1;
    cost := found.value.0;
    BestMeansTheSame(e.sem, e.analysis, e.faithful, e.meaning, g, PendingSet(e.pending), e.log, e.asserted, price,
                     nodes, ids, cost, best.nodes);
  }

  lemma AddedIsThere(sem: Semantics, analysis: Analysis, faithful: bool, meaning: seq<Value>, g: Graph,
                     pending: set<Id>,
                     log: seq<Entry>, asserted: seq<Equation>, nodes: seq<ENode>, ids: seq<Id>, c: Id)
    requires Settled(sem, analysis, faithful, meaning, g, pending, log, asserted)
    requires Ordered(nodes) && nodes != [] && |ids| == |nodes| && AllAdded(nodes, ids, log) && c == ids[|ids| - 1]
    ensures c < |g.root| && exists t :: Represents(g, c, t)
  {
    hide Steps.Settled, Recorded, AllAdded;
    SettledMeans(sem, analysis, faithful, meaning, g, pending, log, asserted);
    AddedIsRepresented(g, log, asserted, nodes, ids, |nodes| - 1);
  }
}
