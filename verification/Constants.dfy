/** Constant folding in an e-graph with the shipped analysis: no class known to
    be constant is left without its literal. */
module ConstantFolding {
  import opened Options
  import opened Lang
  import opened Graphs
  import opened Meanings
  import opened UnionFinds
  import opened Steps
  import opened Histories
  import opened Reindexing
  import opened Propagation
  import opened Foldings
  import opened EGraphs
  import opened Intervals
  import opened MathFacts

  /** With nothing left to look at, every class known to be constant holds the
      literal. */
  lemma NoConstantIsForgotten(e: EGraph, c: Id)
    requires e.Valid() && e.analysisPending == [] && e.unfolded == [] && Constant(e.View(), c).Some?
    ensures HoldsLiteral(e.View(), c, Constant(e.View(), c).value)
  {
    hide Settled, Recounted, Rebuilt, Forest;
    assert e.Awaited() == [];
    AllAreFolded(e.View(), c);
  }

  /** A class is known to be constant if one of its nodes says so. */
  lemma {:induction false} OneNodeSuffices(lib: Library, ar: Arithmetic, assumed: Sym -> Interval,
                                           foldTranscendental: bool, g: Graph, nodes: seq<ENode>, j: nat, i: nat)
    requires WellFormed(g) && j < i <= |nodes| && forall n | n in nodes :: Below(n, |g.root|)
    requires FactFor(MathAnalysis(lib, ar, assumed, foldTranscendental), g, nodes[j]).constant.Some?
    ensures NodesFact(MathAnalysis(lib, ar, assumed, foldTranscendental), g, nodes, i).constant.Some?
    decreases i
  {
    hide Make, FactOf, Meet, Canon, WellFormed;
    CanonIsBelow(g, nodes[i - 1]);
    if j < i - 1 {
      OneNodeSuffices(lib, ar, assumed, foldTranscendental, g, nodes, j, i - 1);
    }
  }

  /** What is known of a class a node was looked up in, if it is up to date. */
  lemma OwnerIsConstant(lib: Library, ar: Arithmetic, assumed: Sym -> Interval, foldTranscendental: bool, g: Graph,
                        c: Id, node: ENode)
    requires WellFormed(g) && Below(node, |g.root|) && IsClass(g, c) && Owns(g, c, Canon(g.root, node))
    requires FactFor(MathAnalysis(lib, ar, assumed, foldTranscendental), g, node).constant.Some?
    requires Stable(MathAnalysis(lib, ar, assumed, foldTranscendental), g, c)
    ensures Constant(g, c).Some?
  {
    ClassAt(g, c);
    assert Slot(g, c);
    var own :| Has(g, c, own) && Below(own, |g.root|) && Canon(g.root, own) == Canon(g.root, node);
    var nodes := g.classes[c].value.nodes;
    var j :| 0 <= j < |nodes| && nodes[j] == own;
    OneNodeSuffices(lib, ar, assumed, foldTranscendental, g, nodes, j, |nodes|);
  }

  /** The constants of the children, and of the node, which the source evaluates. */
  ghost predicate Evaluable(ar: Arithmetic, foldTranscendental: bool, g: Graph, node: ENode, cs: seq<Double>) {
    && WellFormed(g) && Below(node, |g.root|) && |node.children| == node.op.Arity() == |cs|
    && !node.op.Const? && !node.op.Var? && !node.op.Diff?
    && (IsTranscendental(node.op) ==> foldTranscendental)
    && (forall k | 0 <= k < |cs| ::
          && Canon(g.root, node).children[k] < |g.root|
          && FactAt(g, Canon(g.root, node).children[k]).constant == Some(cs[k]))
    && ar.ext(ar.eval(Const(ar.fold(node.op, cs)), [])).Fin?
  }

  lemma EvaluableIsKnown(lib: Library, ar: Arithmetic, assumed: Sym -> Interval, foldTranscendental: bool, g: Graph,
                         node: ENode, cs: seq<Double>)
    requires Evaluable(ar, foldTranscendental, g, node, cs)
    ensures WellFormed(g) && Below(node, |g.root|)
    ensures FactFor(MathAnalysis(lib, ar, assumed, foldTranscendental), g, node).constant == Some(ar.fold(node.op, cs))
  {
    hide Make;
    CanonIsBelow(g, node);
    var data := ChildFacts(g, Canon(g.root, node));
    ConstantIsExact(lib, ar, assumed, foldTranscendental, node.op, data, ar.fold(node.op, cs));
  }

  /** An operator on known constants, added to a graph where nothing is left to do,
      is folded by the next rebuild: its class holds the literal of the value. If
      the node was there already, and its class is up to date, that class has a
      known constant and holds it. */
  method AddAndRebuild(e: EGraph, node: ENode, ghost lib: Library, ghost ar: Arithmetic,
                       ghost assumed: Sym -> Interval, ghost foldTranscendental: bool, ghost cs: seq<Double>)
    returns (id: Id)
    requires e.Valid() && e.clean && e.analysisPending == [] && e.unfolded == []
    requires e.analysis == MathAnalysis(lib, ar, assumed, foldTranscendental)
    requires Evaluable(ar, foldTranscendental, e.View(), node, cs)
    modifies e, e.unionfind
    ensures e.Valid() && e.clean && id < |e.unionfind.root|
    ensures old(Canon(e.unionfind.root, node) !in e.memo) ==>
              HoldsLiteral(e.View(), e.unionfind.root[id], ar.fold(node.op, cs))
    ensures old(Canon(e.unionfind.root, node) in e.memo) ==>
              && id < old(|e.unionfind.root|) && old(e.unionfind.root)[id] == id
              && (old(WellFormed(e.View()) && Stable(e.analysis, e.View(), id)) ==>
                    && old(Constant(e.View(), id)).Some?
                    && HoldsLiteral(e.View(), e.unionfind.root[id], old(Constant(e.View(), id)).value))
  {
    hide Settled, Recounted, Rebuilt, Forest, Bookkept, HoldsLiteral, Later, Evaluable, Stable, FactFor, Make,
         WellFormed, FactAt, SameClasses, Advances, Owns, Canon, Respects, Constant, ReadyToFold, Enlarged;
    ghost var g := e.View();
    EvaluableIsKnown(lib, ar, assumed, foldTranscendental, g, node, cs);
    ghost var hit := Canon(g.root, node) in g.memo;
    CleanIsDone(g, e.pending, e.byOp);
    id := e.Add(node);
    if hit && Stable(e.analysis, g, id) {
      OwnerIsConstant(lib, ar, assumed, foldTranscendental, g, id, node);
      NoConstantIsForgotten(e, id);
    }
    ghost var h := e.View();
    var _, _ := e.Rebuild();
    LaterIsGrown(h, e.View());
    if hit && Stable(e.analysis, g, id) {
      LiteralLasts(h, e.View(), id, Constant(g, id).value);
    }
  }
}
