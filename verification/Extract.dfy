/** Choosing the cheapest term of a class: the fixpoint over classes, and the
    expression built from it. */
module Extraction {
  import opened Options
  import opened Lang
  import opened Expressions
  import opened Graphs
  import opened Meanings
  import opened Terms
  import opened UnionFinds
  import opened EGraphs

  // ----- the terms of a class -----

  /** The class of `c` contains a node for the term, commutative arguments in
      either order. */
  ghost predicate Represents(g: Graph, c: Id, t: Term)
    decreases t, 1
  {
    c < |g.root| && exists n :: Has(g, g.root[c], n) && (Fits(g, n, t) || Fits(g, Flip(n), t))
  }

  /** The children of the node represent the arguments of the term. */
  ghost predicate Fits(g: Graph, n: ENode, t: Term)
    decreases t, 0
  {
    n.op == t.op && |n.children| == |t.args| && forall k | 0 <= k < |t.args| :: Represents(g, n.children[k], t.args[k])
  }

  /** The node of the class a term was read from, and its children as the term
      orders them. */
  lemma NodeFor(g: Graph, c: Id, t: Term) returns (n: ENode, m: ENode)
    requires Represents(g, c, t)
    ensures c < |g.root| && Has(g, g.root[c], n) && (m == n || m == Flip(n)) && Fits(g, m, t)
  {
    n :| Has(g, g.root[c], n) && (Fits(g, n, t) || Fits(g, Flip(n), t));
    if Fits(g, n, t) {
      m := n;
    } else {
      m := Flip(n);
    }
  }

  /** Every term of a class denotes what the class does. */
  lemma {:induction false} RepresentsDenotes(sem: Semantics, analysis: Analysis, meaning: seq<Value>, g: Graph,
                                             c: Id, t: Term)
    requires Respects(sem, analysis) && Meaningful(sem, meaning, g) && Represents(g, c, t)
    ensures c < |g.root| && TermValue(sem, t) == meaning[c]
    decreases t
  {
    var n, m := NodeFor(g, c, t);
    HasIsBelow(g, g.root[c], n);
    FlipDenotes(sem, analysis, meaning, n);
    forall k | 0 <= k < |t.args|
      ensures m.children[k] < |g.root| && TermValue(sem, t.args[k]) == meaning[m.children[k]]
    {
      RepresentsDenotes(sem, analysis, meaning, g, m.children[k], t.args[k]);
    }
    assert Below(m, |meaning|);
    assert TermValues(sem, t.args) == Arguments(meaning, m.children);
    assert Denotes(sem, meaning, n) == meaning[g.root[c]];
  }

  // ----- prices -----

  /** A chosen node, and the cost of the term it roots. */
  datatype Choice = Choice(cost: nat, node: ENode)

  type Selection = map<Id, Choice>

  predicate Priced(g: Graph, free: set<Id>, best: Selection, c: Id) {
    c < |g.root| && (g.root[c] in free || g.root[c] in best)
  }

  function CostIn(g: Graph, free: set<Id>, best: Selection, c: Id): nat
    requires Priced(g, free, best, c)
  {
    if g.root[c] in free then 0 else best[g.root[c]].cost
  }

  predicate Known(g: Graph, free: set<Id>, best: Selection, n: ENode) {
    forall k | 0 <= k < |n.children| :: Priced(g, free, best, n.children[k])
  }

  function CostsIn(g: Graph, free: set<Id>, best: Selection, n: ENode): (costs: seq<nat>)
    requires Known(g, free, best, n)
    ensures |costs| == |n.children| && forall k | 0 <= k < |costs| :: costs[k] == CostIn(g, free, best, n.children[k])
  {
    seq(|n.children|, k requires 0 <= k < |n.children| => CostIn(g, free, best, n.children[k]))
  }

  function NodePrice(price: Price, g: Graph, free: set<Id>, best: Selection, n: ENode): nat
    requires Known(g, free, best, n)
  {
    price(n.op, CostsIn(g, free, best, n))
  }

  /** The choice is a node of the class, worth no more than was asked for it. */
  ghost predicate Supported(price: Price, g: Graph, free: set<Id>, best: Selection, c: Id)
    requires c in best
  {
    && Has(g, c, best[c].node) && Known(g, free, best, best[c].node)
    && NodePrice(price, g, free, best, best[c].node) <= best[c].cost
  }

  /** The price of the class is that of one of its terms. */
  ghost predicate Attained(price: Price, g: Graph, best: Selection, c: Id)
    requires c in best
  {
    exists t :: Represents(g, c, t) && TermCost(price, t) == best[c].cost
  }

  /** No node of the class is cheaper than its price. */
  ghost predicate Cheapest(price: Price, g: Graph, free: set<Id>, best: Selection, c: Id) {
    forall n | Has(g, c, n) && Known(g, free, best, n) ::
      c in best && best[c].cost <= NodePrice(price, g, free, best, n)
  }

  /** Every choice so far is supported, and attained unless something is free. */
  ghost predicate Sane(price: Price, g: Graph, free: set<Id>, best: Selection) {
    && (forall c | c in best :: c < |g.root| && g.root[c] == c)
    && (forall c | c in best :: Supported(price, g, free, best, c))
    && (free == {} ==> forall c | c in best :: Attained(price, g, best, c))
  }

  /** Sane, and nothing cheaper is to be had. */
  ghost predicate Solved(price: Price, g: Graph, free: set<Id>, best: Selection) {
    && Sane(price, g, free, best)
    && (forall c: Id | c < |g.root| :: Cheapest(price, g, free, best, c))
  }

  /** Prices only fall. */
  predicate Lower(best: Selection, next: Selection) {
    forall c | c in best :: c in next && next[c].cost <= best[c].cost
  }

  lemma PricesFall(price: Price, g: Graph, free: set<Id>, best: Selection, next: Selection, n: ENode)
    requires Fair(price) && Lower(best, next) && Known(g, free, best, n)
    ensures Known(g, free, next, n) && NodePrice(price, g, free, next, n) <= NodePrice(price, g, free, best, n)
  {
    assert forall k | 0 <= k < |n.children| :: Priced(g, free, best, n.children[k]);
    assert NoMore(CostsIn(g, free, next, n), CostsIn(g, free, best, n));
  }

  lemma ChildTerm(price: Price, g: Graph, best: Selection, c: Id) returns (t: Term)
    requires Priced(g, {}, best, c) && g.root[c] < |g.root| && g.root[g.root[c]] == g.root[c]
    requires Attained(price, g, best, g.root[c])
    ensures Represents(g, c, t) && TermCost(price, t) == CostIn(g, {}, best, c)
  {
    t :| Represents(g, g.root[c], t) && TermCost(price, t) == best[g.root[c]].cost;
  }

  /** Terms for the children of a node, each attaining its price. */
  lemma ChildTerms(price: Price, g: Graph, best: Selection, n: ENode, k: nat) returns (ts: seq<Term>)
    requires Known(g, {}, best, n) && k <= |n.children|
    requires forall c | c in best :: c < |g.root| && g.root[c] == c
    requires forall c | c in best :: Attained(price, g, best, c)
    ensures |ts| == k
    ensures forall j | 0 <= j < k :: Represents(g, n.children[j], ts[j])
    ensures forall j | 0 <= j < k :: TermCost(price, ts[j]) == CostIn(g, {}, best, n.children[j])
  {
    hide Represents, TermCost, Attained;
    if k == 0 {
      ts := [];
    } else {
      ts := ChildTerms(price, g, best, n, k - 1);
      assert Priced(g, {}, best, n.children[k - 1]);
      var t := ChildTerm(price, g, best, n.children[k - 1]);
      ts := ts + [t];
    }
  }

  lemma NodeIsAttained(price: Price, g: Graph, best: Selection, c: Id, n: ENode) returns (t: Term)
    requires Sane(price, g, {}, best) && c < |g.root| && g.root[c] == c && Has(g, c, n) && Known(g, {}, best, n)
    ensures Represents(g, c, t) && TermCost(price, t) == NodePrice(price, g, {}, best, n)
  {
    hide Supported;
    var ts := ChildTerms(price, g, best, n, |n.children|);
    t := Term(n.op, ts);
    assert Fits(g, n, t);
    assert TermCosts(price, ts) == CostsIn(g, {}, best, n);
  }

  /** Choosing a cheaper node, or a first one, keeps the selection sane. */
  lemma ChooseKeeps(price: Price, g: Graph, free: set<Id>, best: Selection, c: Id, n: ENode)
    requires Fair(price) && Sane(price, g, free, best) && c < |g.root| && g.root[c] == c
    requires Has(g, c, n) && Known(g, free, best, n)
    requires c in best ==> NodePrice(price, g, free, best, n) < best[c].cost
    ensures var next := best[c := Choice(NodePrice(price, g, free, best, n), n)];
            Lower(best, next) && Sane(price, g, free, next)
  {
    var next := best[c := Choice(NodePrice(price, g, free, best, n), n)];
    assert Lower(best, next);
    forall d | d in next
      ensures Supported(price, g, free, next, d)
    {
      assert d in best ==> Supported(price, g, free, best, d);
      PricesFall(price, g, free, best, next, if d == c then n else best[d].node);
    }
    if free == {} {
      var t := NodeIsAttained(price, g, best, c, n);
      forall d | d in next
        ensures Attained(price, g, next, d)
      {
        assert d == c ==> Represents(g, d, t);
        assert d != c ==> Attained(price, g, best, d);
      }
    }
  }

  // ----- the fixpoint -----

  function Total(best: Selection, n: nat): nat {
    if n == 0 then 0 else Total(best, n - 1) + if n - 1 in best then best[n - 1].cost else 0
  }

  lemma {:induction false} TotalFalls(best: Selection, next: Selection, n: nat)
    requires best.Keys == next.Keys && Lower(best, next)
    ensures Total(next, n) <= Total(best, n)
    ensures (exists c | 0 <= c < n :: c in best && next[c].cost < best[c].cost) ==> Total(next, n) < Total(best, n)
  {
    if n > 0 {
      TotalFalls(best, next, n - 1);
    }
  }

  lemma FewPrices(g: Graph, best: Selection)
    requires forall c | c in best :: c < |g.root|
    ensures |best| <= |g.root|
  {
    assert best.Keys <= Ids(|g.root|);
    IdsCount(|g.root|);
    SubsetCount(best.Keys, Ids(|g.root|));
  }

  lemma {:induction false} IdsCount(n: nat)
    ensures |Ids(n)| == n
  {
    if n > 0 {
      IdsCount(n - 1);
    }
  }

  lemma {:induction false} SubsetCount<T>(a: set<T>, b: set<T>)
    requires a <= b
    ensures |a| <= |b| && (a != b ==> |a| < |b|)
  {
    if a == {} {
      if b != {} {
        var x :| x in b;
        assert b == (b - {x}) + {x};
      }
    } else {
      var x :| x in a;
      SubsetCount(a - {x}, b - {x});
    }
  }

  /** A pass that changed something leaves less to do. */
  ghost predicate Progress(best: Selection, next: Selection, n: nat) {
    || (best.Keys < next.Keys)
    || (best.Keys == next.Keys && Total(next, n) < Total(best, n))
  }

  lemma ChooseProgresses(best: Selection, c: Id, choice: Choice, n: nat)
    requires c < n && (c in best ==> choice.cost < best[c].cost)
    ensures Progress(best, best[c := choice], n)
  {
    var next := best[c := choice];
    if c in best {
      assert next.Keys == best.Keys;
      TotalFalls(best, next, n);
    } else {
      assert c in next.Keys && c !in best.Keys;
    }
  }

  lemma ProgressIsTransitive(a: Selection, b: Selection, c: Selection, n: nat)
    requires (a == b || Progress(a, b, n)) && (b == c || Progress(b, c, n))
    ensures a == c || Progress(a, c, n)
    ensures a != b || b != c ==> Progress(a, c, n)
  {
  }

  /** Cost of a node, if all its children have one. */
  method PriceNode(e: EGraph, price: Price, free: set<Id>, best: Selection, n: ENode) returns (cost: Option<nat>)
    requires e.unionfind.Valid() && Below(n, |e.unionfind.root|)
    ensures cost.Some? <==> Known(e.View(), free, best, n)
    ensures cost.Some? ==> cost.value == NodePrice(price, e.View(), free, best, n)
  {
    var costs: seq<nat> := [];
    for k := 0 to |n.children|
      invariant |costs| == k
      invariant forall j | 0 <= j < k :: Priced(e.View(), free, best, n.children[j])
                                         && costs[j] == CostIn(e.View(), free, best, n.children[j])
    {
      var c := e.Find(n.children[k]);
      if c !in free && c !in best {
        assert !Priced(e.View(), free, best, n.children[k]);
        return None;
      }
      costs := costs + [if c in free then 0 else best[c].cost];
    }
    assert costs == CostsIn(e.View(), free, best, n);
    cost := Some(price(n.op, costs));
  }

  /** The cheapest known node among the first `i`. */
  ghost predicate BestOf(price: Price, g: Graph, free: set<Id>, best: Selection, nodes: seq<ENode>, i: nat,
                         found: Option<Choice>) {
    && i <= |nodes|
    && (found.Some? ==> found.value.node in nodes && Known(g, free, best, found.value.node)
                        && found.value.cost == NodePrice(price, g, free, best, found.value.node))
    && (forall j | 0 <= j < i :: Known(g, free, best, nodes[j]) ==>
          found.Some? && found.value.cost <= NodePrice(price, g, free, best, nodes[j]))
  }

  method CheapestNode(e: EGraph, price: Price, free: set<Id>, best: Selection, nodes: seq<ENode>)
    returns (found: Option<Choice>)
    requires e.unionfind.Valid() && forall n | n in nodes :: Below(n, |e.unionfind.root|)
    ensures BestOf(price, e.View(), free, best, nodes, |nodes|, found)
  {
    hide Known, NodePrice;
    found := None;
    for i := 0 to |nodes|
      invariant BestOf(price, e.View(), free, best, nodes, i, found)
    {
      assert nodes[i] in nodes;
      var c := PriceNode(e, price, free, best, nodes[i]);
      if c.Some? && (found.None? || c.value < found.value.cost) {
        found := Some(Choice(c.value, nodes[i]));
      }
    }
  }

  /** A class whose price is no more than its cheapest node's is done. */
  lemma ClassIsCheapest(price: Price, g: Graph, free: set<Id>, best: Selection, c: Id, found: Option<Choice>)
    requires c < |g.classes| && g.classes[c].Some?
    requires BestOf(price, g, free, best, g.classes[c].value.nodes, |g.classes[c].value.nodes|, found)
    requires found.Some? ==> c in best && best[c].cost <= found.value.cost
    ensures Cheapest(price, g, free, best, c)
  {
    var nodes := g.classes[c].value.nodes;
    forall n | Has(g, c, n) && Known(g, free, best, n)
      ensures c in best && best[c].cost <= NodePrice(price, g, free, best, n)
    {
      var j :| 0 <= j < |nodes| && nodes[j] == n;
    }
  }

  /** One pass over the classes. */
  method Pass(e: EGraph, price: Price, free: set<Id>, best0: Selection) returns (best: Selection, changed: bool)
    requires e.Core() && Fair(price) && Sane(price, e.View(), free, best0)
    ensures Sane(price, e.View(), free, best)
    ensures changed ==> Progress(best0, best, |e.unionfind.root|)
    ensures !changed ==>
              best == best0 && forall c: Id | c < |e.unionfind.root| :: Cheapest(price, e.View(), free, best, c)
  {
    hide Fair, Sane, BestOf, NodePrice, Cheapest, Forest, NodeTotal, Occupied, Known, Progress;
    ghost var g := e.View();
    best, changed := best0, false;
    for id := 0 to |e.classes|
      invariant Sane(price, g, free, best)
      invariant changed ==> Progress(best0, best, |g.root|)
      invariant !changed ==> best == best0 && forall c: Id | c < id :: Cheapest(price, g, free, best, c)
    {
      assert Slot(g, id);
      if e.classes[id].Some? {
        var found := CheapestNode(e, price, free, best, e.classes[id].value.nodes);
        if found.Some? && !(id in best && best[id].cost <= found.value.cost) {
          FoundKeeps(price, g, free, best, id, found.value);
          ProgressIsTransitive(best0, best, best[id := found.value], |g.root|);
          best := best[id := found.value];
          changed := true;
        } else {
          ClassIsCheapest(price, g, free, best, id, found);
        }
      } else {
        NoClassIsCheapest(price, g, free, best, id);
      }
    }
  }

  lemma NoClassIsCheapest(price: Price, g: Graph, free: set<Id>, best: Selection, c: Id)
    requires c < |g.classes| && g.classes[c].None?
    ensures Cheapest(price, g, free, best, c)
  {
  }

  lemma FoundKeeps(price: Price, g: Graph, free: set<Id>, best: Selection, c: Id, choice: Choice)
    requires Fair(price) && Sane(price, g, free, best) && c < |g.root| && g.root[c] == c
    requires c < |g.classes| && g.classes[c].Some?
    requires BestOf(price, g, free, best, g.classes[c].value.nodes, |g.classes[c].value.nodes|, Some(choice))
    requires !(c in best && best[c].cost <= choice.cost)
    ensures Sane(price, g, free, best[c := choice]) && Progress(best, best[c := choice], |g.root|)
  {
    hide Supported, Attained;
    assert Has(g, c, choice.node);
    ChooseKeeps(price, g, free, best, c, choice.node);
    ChooseProgresses(best, c, choice, |g.root|);
  }

  lemma ProgressDecreases(g: Graph, best: Selection, next: Selection)
    requires (forall c | c in next :: c < |g.root|) && Progress(best, next, |g.root|)
    ensures |next| <= |g.root| && |best| <= |next|
    ensures |best| < |next| || (|best| == |next| && Total(next, |g.root|) < Total(best, |g.root|))
  {
    FewPrices(g, next);
    SubsetCount(best.Keys, next.Keys);
  }

  /** Price every class by iterating to a fixpoint. Every pass but the last
      prices a class or lowers a price. Classes in `free` cost nothing to use. */
  method Solve(e: EGraph, price: Price, free: set<Id>) returns (best: Selection)
    requires e.Core() && Fair(price)
    ensures Solved(price, e.View(), free, best)
  {
    hide Fair, Forest, NodeTotal, Occupied, Supported, Attained, Cheapest, Bookkept;
    best := map[];
    while true
      invariant Sane(price, e.View(), free, best)
      decreases |e.unionfind.root| - |best|, Total(best, |e.unionfind.root|)
    {
      ghost var before := best;
      var changed;
      best, changed := Pass(e, price, free, best);
      if !changed {
        return;
      }
      ProgressDecreases(e.View(), before, best);
    }
  }

  // ----- what the fixpoint means -----

  /** No term of a class is cheaper than its price: a class holding a finite
      term is priced, and at most at the cost of that term. */
  lemma {:induction false} PriceIsLeast(price: Price, g: Graph, best: Selection, c: Id, t: Term)
    requires Fair(price) && WellFormed(g) && Solved(price, g, {}, best) && Represents(g, c, t)
    ensures c < |g.root| && g.root[c] in best && best[g.root[c]].cost <= TermCost(price, t)
    decreases t
  {
    hide Supported, Attained, Fair, NodePrice;
    var n, m := NodeFor(g, c, t);
    HasIsBelow(g, g.root[c], n);
    forall k | 0 <= k < |t.args|
      ensures Priced(g, {}, best, m.children[k]) && CostIn(g, {}, best, m.children[k]) <= TermCost(price, t.args[k])
    {
      PriceIsLeast(price, g, best, m.children[k], t.args[k]);
    }
    ArrangedPrice(price, g, best, n, m, t);
    assert Cheapest(price, g, {}, best, g.root[c]);
  }

  lemma ArrangedPrice(price: Price, g: Graph, best: Selection, n: ENode, m: ENode, t: Term)
    requires Fair(price) && (m == n || m == Flip(n)) && m.op == t.op && |m.children| == |t.args|
    requires forall k | 0 <= k < |t.args| ::
               Priced(g, {}, best, m.children[k]) && CostIn(g, {}, best, m.children[k]) <= TermCost(price, t.args[k])
    ensures Known(g, {}, best, n) && NodePrice(price, g, {}, best, n) <= TermCost(price, t)
  {
    assert Known(g, {}, best, m);
    assert Flip(Flip(n)) == n;
    FlipPrice(price, g, {}, best, m);
    assert NoMore(CostsIn(g, {}, best, m), TermCosts(price, t.args));
  }

  lemma FlipPrice(price: Price, g: Graph, free: set<Id>, best: Selection, n: ENode)
    requires Fair(price)
    ensures Known(g, free, best, n) ==>
              Known(g, free, best, Flip(n))
              && NodePrice(price, g, free, best, Flip(n)) == NodePrice(price, g, free, best, n)
  {
    if Known(g, free, best, n) && Flip(n) != n {
      assert Priced(g, free, best, n.children[0]) && Priced(g, free, best, n.children[1]);
      var a := CostsIn(g, free, best, n);
      assert a == [a[0], a[1]] && CostsIn(g, free, best, Flip(n)) == [a[1], a[0]];
    }
  }

  /** A class is priced exactly when it holds a finite term, at the least cost of
      any of its terms. */
  lemma PricesAreOptimal(price: Price, g: Graph, best: Selection, c: Id)
    requires Fair(price) && WellFormed(g) && Solved(price, g, {}, best) && c < |g.root|
    ensures g.root[c] in best <==> exists t :: Represents(g, c, t)
    ensures g.root[c] in best ==> exists t :: Represents(g, c, t) && TermCost(price, t) == best[g.root[c]].cost
    ensures g.root[c] in best ==> forall t | Represents(g, c, t) :: best[g.root[c]].cost <= TermCost(price, t)
  {
    forall t | Represents(g, c, t)
      ensures g.root[c] in best && best[g.root[c]].cost <= TermCost(price, t)
    {
      PriceIsLeast(price, g, best, c, t);
    }
    if g.root[c] in best {
      assert Slot(g, c) && Attained(price, g, best, g.root[c]);
      var t :| Represents(g, g.root[c], t) && TermCost(price, t) == best[g.root[c]].cost;
      assert Represents(g, c, t);
    }
  }

  /** The choice of a class is priced by exactly its own formula, from children
      that are strictly cheaper: the choices form no cycle. */
  ghost predicate Descending(price: Price, g: Graph, best: Selection) {
    forall c | c in best ::
      && c < |g.root| && Has(g, c, best[c].node) && Known(g, {}, best, best[c].node)
      && NodePrice(price, g, {}, best, best[c].node) == best[c].cost
      && (forall k | 0 <= k < |best[c].node.children| :: CostIn(g, {}, best, best[c].node.children[k]) < best[c].cost)
  }

  lemma SolvedDescends(price: Price, g: Graph, best: Selection)
    requires Fair(price) && Solved(price, g, {}, best)
    ensures Descending(price, g, best)
  {
    forall c | c in best
      ensures c < |g.root| && Has(g, c, best[c].node) && Known(g, {}, best, best[c].node)
      ensures NodePrice(price, g, {}, best, best[c].node) == best[c].cost
      ensures forall k | 0 <= k < |best[c].node.children| ::
                CostIn(g, {}, best, best[c].node.children[k]) < best[c].cost
    {
      assert Supported(price, g, {}, best, c) && Cheapest(price, g, {}, best, c);
      var costs := CostsIn(g, {}, best, best[c].node);
      assert forall k | 0 <= k < |costs| :: price(best[c].node.op, costs) > costs[k];
    }
  }

  // ----- building -----

  /** Every choice belongs to its class. */
  ghost predicate Grounded(g: Graph, best: Selection) {
    forall c | c in best :: c < |g.root| && Has(g, c, best[c].node) && Below(best[c].node, |g.root|)
  }

  /** The term made of the choices from a class on, commutative arguments in either
      order. */
  ghost predicate Chosen(g: Graph, best: Selection, c: Id, t: Term)
    decreases t, 1
  {
    && c < |g.root| && g.root[c] in best
    && (Picks(g, best, best[g.root[c]].node, t) || Picks(g, best, Flip(best[g.root[c]].node), t))
  }

  ghost predicate Picks(g: Graph, best: Selection, n: ENode, t: Term)
    decreases t, 0
  {
    n.op == t.op && |n.children| == |t.args| && forall k | 0 <= k < |t.args| ::
      Chosen(g, best, n.children[k], t.args[k])
  }

  /** The choices from the class on make no finite term: they run into a cycle, or a
      class without a choice. */
  ghost predicate Barren(g: Graph, best: Selection, c: Id) {
    forall t :: !Chosen(g, best, c, t)
  }

  lemma {:induction false} ChosenIsRepresented(g: Graph, best: Selection, c: Id, t: Term)
    requires Grounded(g, best) && Chosen(g, best, c, t)
    ensures Represents(g, c, t)
    decreases t
  {
    var n := best[g.root[c]].node;
    var m := if Picks(g, best, n, t) then n else Flip(n);
    forall k | 0 <= k < |t.args|
      ensures Represents(g, m.children[k], t.args[k])
    {
      ChosenIsRepresented(g, best, m.children[k], t.args[k]);
    }
    assert Fits(g, m, t);
  }

  /** A class and its representative make the same choices. */
  lemma SameChoices(g: Graph, best: Selection, c: Id, d: Id, t: Term)
    requires c < |g.root| && d < |g.root| && g.root[c] == g.root[d] && Chosen(g, best, c, t)
    ensures Chosen(g, best, d, t)
  {
  }

  /** One class chose a node over the other. */
  predicate ChoseOver(g: Graph, best: Selection, x: Id, y: Id) {
    x in best && exists k | 0 <= k < |best[x].node.children| ::
                   best[x].node.children[k] < |g.root| && g.root[best[x].node.children[k]] == y
  }

  /** A term chosen for a class holds one chosen for each class it chose over. */
  lemma ChosenBelow(g: Graph, best: Selection, x: Id, y: Id, t: Term) returns (u: Term)
    requires Chosen(g, best, x, t) && g.root[x] == x && ChoseOver(g, best, x, y) && y < |g.root| && g.root[y] == y
    ensures u < t && Chosen(g, best, y, u)
  {
    var n := best[x].node;
    var k :| 0 <= k < |n.children| && n.children[k] < |g.root| && g.root[n.children[k]] == y;
    if Picks(g, best, n, t) {
      u := t.args[k];
      SameChoices(g, best, n.children[k], y, u);
    } else {
      var j := if Flip(n) == n then k else 1 - k;
      u := t.args[j];
      assert Flip(n).children[j] == n.children[k];
      SameChoices(g, best, n.children[k], y, u);
    }
  }

  /** Node `id` stands for the term chosen from class `c` on; if the selection is the
      optimal one, a cheapest. */
  ghost predicate Built(price: Price, g: Graph, best: Selection, optimal: bool, nodes: seq<ENode>, c: Id, id: Id) {
    && Ordered(nodes) && id < |nodes| && Chosen(g, best, c, Unfold(nodes, id))
    && (optimal ==> c in best && TermCost(price, Unfold(nodes, id)) == best[c].cost)
  }

  ghost predicate AllBuilt(price: Price, g: Graph, best: Selection, optimal: bool, nodes: seq<ENode>, memo: map<Id,
                           Id>) {
    forall c | c in memo :: Built(price, g, best, optimal, nodes, c, memo[c])
  }

  /** The classes entered but not finished, each named once and each having chosen
      over the next, the last over `c`; under the optimal selection all of them
      cost more than `c`. */
  ghost predicate Above(g: Graph, best: Selection, optimal: bool, stack: seq<Id>, c: Id) {
    && (forall i | 0 <= i < |stack| :: stack[i] < |g.root| && g.root[stack[i]] == stack[i])
    && (forall i, j | 0 <= i < j < |stack| :: stack[i] != stack[j])
    && c < |g.root| && g.root[c] == c && (forall i | 0 <= i < |stack| :: IsLinked(g, best, stack, c, i))
    && (optimal ==> c in best && forall i | 0 <= i < |stack| :: stack[i] in best && best[stack[i]].cost > best[c].cost)
  }

  ghost predicate IsLinked(g: Graph, best: Selection, stack: seq<Id>, c: Id, i: nat)
    requires i < |stack|
  {
    ChoseOver(g, best, stack[i], if i + 1 < |stack| then stack[i + 1] else c)
  }

  lemma StackIsShort(g: Graph, best: Selection, optimal: bool, stack: seq<Id>, c: Id)
    requires Above(g, best, optimal, stack, c)
    ensures |stack| <= |g.root|
  {
    var s := set x | x in stack;
    DistinctCount(stack, s);
    assert s <= Ids(|g.root|);
    IdsCount(|g.root|);
    SubsetCount(s, Ids(|g.root|));
  }

  lemma {:induction false} DistinctCount(ids: seq<Id>, s: set<Id>)
    requires (forall i, j | 0 <= i < j < |ids| :: ids[i] != ids[j]) && forall x :: x in s <==> x in ids
    ensures |s| == |ids|
  {
    if ids == [] {
      assert s == {};
    } else {
      var init := ids[..|ids| - 1];
      var last := ids[|ids| - 1];
      assert ids == init + [last] && last in ids && last !in init;
      DistinctCount(init, s - {last});
    }
  }

  lemma BuiltInLonger(price: Price, g: Graph, best: Selection, optimal: bool, nodes: seq<ENode>, more: seq<ENode>,
                      c: Id, id: Id)
    requires Built(price, g, best, optimal, nodes, c, id) && nodes <= more && Ordered(more)
    ensures Built(price, g, best, optimal, more, c, id)
  {
    UnfoldOfPrefix(nodes, more, id);
  }

  lemma AllBuiltInLonger(price: Price, g: Graph, best: Selection, optimal: bool, nodes: seq<ENode>, more: seq<ENode>,
                         memo: map<Id, Id>)
    requires AllBuilt(price, g, best, optimal, nodes, memo) && nodes <= more && Ordered(more)
    ensures AllBuilt(price, g, best, optimal, more, memo)
  {
    hide Built;
    forall c | c in memo
      ensures Built(price, g, best, optimal, more, c, memo[c])
    {
      BuiltInLonger(price, g, best, optimal, nodes, more, c, memo[c]);
    }
  }

  /** The chosen node over the terms built for its children stands for a term of
      the class. */
  lemma NodeIsBuilt(price: Price, g: Graph, best: Selection, optimal: bool, nodes: seq<ENode>, c: Id, kids: seq<Id>,
                    id: Id)
    requires WellFormed(g) && Grounded(g, best) && c in best && |kids| == |best[c].node.children| && g.root[c] == c
    requires optimal ==> Fair(price) && Descending(price, g, best)
    requires forall k | 0 <= k < |kids| ::
               Built(price, g, best, optimal, nodes, g.root[best[c].node.children[k]], kids[k])
    requires Ordered(nodes) && id < |nodes| && nodes[id] == Normalize(ENode(best[c].node.op, kids))
    ensures Built(price, g, best, optimal, nodes, c, id)
  {
    var n := best[c].node;
    var plain := Term(n.op, seq(|kids|, k requires 0 <= k < |kids| => Unfold(nodes, kids[k])));
    var t := Unfold(nodes, id);
    forall k | 0 <= k < |kids|
      ensures Chosen(g, best, n.children[k], plain.args[k])
    {
      assert Slot(g, n.children[k]);
      assert Built(price, g, best, optimal, nodes, g.root[n.children[k]], kids[k]);
      SameChoices(g, best, g.root[n.children[k]], n.children[k], plain.args[k]);
    }
    assert Picks(g, best, n, plain);
    Normalized(g, best, nodes, n, kids, id, plain);
    if optimal {
      forall k | 0 <= k < |kids|
        ensures TermCosts(price, plain.args)[k] == CostsIn(g, {}, best, n)[k]
      {
        assert Built(price, g, best, optimal, nodes, g.root[n.children[k]], kids[k]);
      }
      assert TermCosts(price, plain.args) == CostsIn(g, {}, best, n);
      AlikeCosts(price, plain, t);
    }
  }

  lemma {:induction false} AlikeItself(t: Term)
    ensures Alike(t, t)
    decreases t
  {
    forall k | 0 <= k < |t.args|
      ensures Alike(t.args[k], t.args[k])
    {
      AlikeItself(t.args[k]);
    }
  }

  /** Sorting the arguments of a commutative node built for `n` keeps its term the
      chosen one. */
  lemma Normalized(g: Graph, best: Selection, nodes: seq<ENode>, n: ENode, kids: seq<Id>, id: Id, plain: Term)
    requires Ordered(nodes) && id < |nodes| && nodes[id] == Normalize(ENode(n.op, kids))
    requires |kids| == |n.children| == |plain.args| && plain.op == n.op
    requires forall k | 0 <= k < |kids| :: kids[k] < |nodes| && plain.args[k] == Unfold(nodes, kids[k])
    requires Picks(g, best, n, plain)
    ensures Picks(g, best, n, Unfold(nodes, id)) || Picks(g, best, Flip(n), Unfold(nodes, id))
    ensures Alike(plain, Unfold(nodes, id))
  {
    var t := Unfold(nodes, id);
    forall k | 0 <= k < |kids|
      ensures Alike(plain.args[k], plain.args[k])
    {
      AlikeItself(plain.args[k]);
    }
    if nodes[id].children == kids {
      assert t.args == plain.args;
    } else {
      assert t.args == [plain.args[1], plain.args[0]];
      assert Picks(g, best, Flip(n), t);
    }
  }

  /** Build the term a selection roots at a class, or report that there is no finite
      one. Under an optimal selection there always is. */
  method BuildInto(e: EGraph, price: Price, best: Selection, ghost optimal: bool, class0: Id, expr: RecExpr,
                   memo0: map<Id, Id>, stack: seq<Id>) returns (id: Option<Id>, memo: map<Id, Id>)
    requires e.Core() && expr.Valid() && class0 < |e.unionfind.root| && Grounded(e.View(), best)
    requires optimal ==> Fair(price) && Descending(price, e.View(), best)
    requires AllBuilt(price, e.View(), best, optimal, expr.nodes, memo0)
    requires Above(e.View(), best, optimal, stack, e.unionfind.root[class0])
    modifies expr
    ensures expr.Valid() && old(expr.nodes) <= expr.nodes
    ensures optimal ==> id.Some?
    ensures id.Some? ==> AllBuilt(price, e.View(), best, optimal, expr.nodes, memo)
    ensures id.Some? ==> Built(price, e.View(), best, optimal, expr.nodes, e.unionfind.root[class0], id.value)
    ensures id.None? ==> Barren(e.View(), best, class0)
    decreases |e.unionfind.root| - |stack|, 0, 0
  {
    hide Forest, NodeTotal, Occupied, Bookkept, Built, AllBuilt, Descending, Fair, Above, MaximallyShared, WellFormed;
    ghost var g := e.View();
    GraphIsWellFormed(g, e.pending, e.Awaited(), e.classCount, e.nodeCount);
    RootsInRange(g);
    var c := e.Find(class0);
    memo := memo0;
    if c in memo {
      MemoIsBuilt(price, g, best, optimal, expr.nodes, memo, c);
      return Some(memo[c]), memo;
    }
    if c in stack {
      StackedIsCyclic(g, best, optimal, stack, c);
      RootIsBarren(g, best, class0);
      return None, memo;
    }
    if c !in best {
      EnteredIsPriced(g, best, optimal, stack, c);
      return None, memo;
    }
    var n := best[c].node;
    PushKeeps(price, g, best, optimal, stack, c);
    var kids;
    kids, memo := BuildChildren(e, price, best, optimal, n, c, expr, memo, stack + [c]);
    if kids.None? {
      KidIsBarren(g, best, class0, n);
      return None, memo;
    }
    ghost var before := expr.nodes;
    var node := ENode(n.op, kids.value);
    KidsAreBelow(price, g, best, optimal, expr.nodes, n, kids.value);
    var made := expr.Add(node);
    SharedIsOrdered(expr.nodes);
    NodeIsBuiltNext(price, g, best, optimal, before, expr.nodes, c, kids.value, made);
    AllBuiltInLonger(price, g, best, optimal, before, expr.nodes, memo);
    MemoGrows(price, g, best, optimal, expr.nodes, memo, c, made);
    memo := memo[c := made];
    id := Some(made);
  }

  /** Build the children of a chosen node, left to right. */
  method BuildChildren(e: EGraph, price: Price, best: Selection, ghost optimal: bool, n: ENode, ghost c: Id,
                       expr: RecExpr,
                       memo0: map<Id, Id>, stack: seq<Id>) returns (kids: Option<seq<Id>>, memo: map<Id, Id>)
    requires e.Core() && expr.Valid() && Grounded(e.View(), best) && Below(n, |e.unionfind.root|)
    requires optimal ==> Fair(price) && Descending(price, e.View(), best)
    requires AllBuilt(price, e.View(), best, optimal, expr.nodes, memo0)
    requires forall k | 0 <= k < |n.children| :: Above(e.View(), best, optimal, stack, e.unionfind.root[n.children[k]])
    modifies expr
    ensures expr.Valid() && old(expr.nodes) <= expr.nodes
    ensures optimal ==> kids.Some?
    ensures kids.Some? ==> AllBuilt(price, e.View(), best, optimal, expr.nodes, memo)
    ensures kids.Some? ==> |kids.value| == |n.children|
    ensures kids.Some? ==> forall k | 0 <= k < |n.children| ::
              Built(price, e.View(), best, optimal, expr.nodes, e.unionfind.root[n.children[k]], kids.value[k])
    ensures kids.None? ==> exists k :: 0 <= k < |n.children| && Barren(e.View(), best, n.children[k])
    decreases |e.unionfind.root| - |stack|, 1
  {
    hide Forest, NodeTotal, Occupied, Bookkept, Built, AllBuilt, Descending, Fair, Above, MaximallyShared,
         WellFormed, Grounded;
    ghost var g := e.View();
    memo := memo0;
    var ids: seq<Id> := [];
    for i := 0 to |n.children|
      invariant expr.Valid() && old(expr.nodes) <= expr.nodes && |ids| == i
      invariant AllBuilt(price, g, best, optimal, expr.nodes, memo)
      invariant forall k | 0 <= k < i :: Built(price, g, best, optimal, expr.nodes, g.root[n.children[k]], ids[k])
    {
      ghost var before := expr.nodes;
      StackIsShort(g, best, optimal, stack, g.root[n.children[i]]);
      var kid;
      kid, memo := BuildInto(e, price, best, optimal, n.children[i], expr, memo, stack);
      if kid.None? {
        return None, memo;
      }
      SharedIsOrdered(expr.nodes);
      forall k | 0 <= k < i
        ensures Built(price, g, best, optimal, expr.nodes, g.root[n.children[k]], ids[k])
      {
        BuiltInLonger(price, g, best, optimal, before, expr.nodes, g.root[n.children[k]], ids[k]);
      }
      ids := ids + [kid.value];
    }
    kids := Some(ids);
  }

  lemma MemoIsBuilt(price: Price, g: Graph, best: Selection, optimal: bool, nodes: seq<ENode>, memo: map<Id, Id>, c: Id)
    requires AllBuilt(price, g, best, optimal, nodes, memo) && c in memo
    ensures Built(price, g, best, optimal, nodes, c, memo[c])
  {
  }

  lemma MemoGrows(price: Price, g: Graph, best: Selection, optimal: bool, nodes: seq<ENode>, memo: map<Id, Id>,
                  c: Id, id: Id)
    requires AllBuilt(price, g, best, optimal, nodes, memo) && Built(price, g, best, optimal, nodes, c, id)
    ensures AllBuilt(price, g, best, optimal, nodes, memo[c := id])
  {
  }

  /** A class entered twice has no finite term; under an optimal selection none is. */
  lemma StackedIsCyclic(g: Graph, best: Selection, optimal: bool, stack: seq<Id>, c: Id)
    requires Above(g, best, optimal, stack, c) && c in stack
    ensures !optimal && Barren(g, best, c)
  {
    var i :| 0 <= i < |stack| && stack[i] == c;
    forall t
      ensures !Chosen(g, best, c, t)
    {
      CycleIsBarren(g, best, stack, c, i, i, t);
    }
  }

  lemma {:induction false} CycleIsBarren(g: Graph, best: Selection, stack: seq<Id>, c: Id, i: nat, j: nat, t: Term)
    requires Above(g, best, false, stack, c) && i <= j < |stack| && stack[i] == c
    ensures !Chosen(g, best, stack[j], t)
    decreases t
  {
    if Chosen(g, best, stack[j], t) {
      assert IsLinked(g, best, stack, c, j);
      var next := if j + 1 < |stack| then j + 1 else i;
      var u := ChosenBelow(g, best, stack[j], stack[next], t);
      CycleIsBarren(g, best, stack, c, i, next, u);
      assert false;
    }
  }

  lemma RootIsBarren(g: Graph, best: Selection, c: Id)
    requires c < |g.root| && g.root[c] < |g.root| && g.root[g.root[c]] == g.root[c] && Barren(g, best, g.root[c])
    ensures Barren(g, best, c)
  {
    forall t
      ensures !Chosen(g, best, c, t)
    {
      if Chosen(g, best, c, t) {
        SameChoices(g, best, c, g.root[c], t);
      }
    }
  }

  lemma KidIsBarren(g: Graph, best: Selection, c: Id, n: ENode)
    requires WellFormed(g) && c < |g.root| && g.root[c] in best && best[g.root[c]].node == n && Below(n, |g.root|)
    requires exists k :: 0 <= k < |n.children| && Barren(g, best, n.children[k])
    ensures Barren(g, best, c)
  {
    var k :| 0 <= k < |n.children| && Barren(g, best, n.children[k]);
    var d := n.children[k];
    assert Slot(g, c) && Slot(g, d);
    forall t
      ensures !Chosen(g, best, c, t)
    {
      if Chosen(g, best, c, t) {
        SameChoices(g, best, c, g.root[c], t);
        var u := ChosenBelow(g, best, g.root[c], g.root[d], t);
        SameChoices(g, best, g.root[d], d, u);
        assert false;
      }
    }
  }

  lemma EnteredIsPriced(g: Graph, best: Selection, optimal: bool, stack: seq<Id>, c: Id)
    requires Above(g, best, optimal, stack, c)
    ensures optimal ==> c in best
  {
  }

  /** Entering a class leaves its children below everything entered. */
  lemma PushKeeps(price: Price, g: Graph, best: Selection, optimal: bool, stack: seq<Id>, c: Id)
    requires WellFormed(g) && Grounded(g, best) && Above(g, best, optimal, stack, c) && c !in stack && c in best
    requires optimal ==> Fair(price) && Descending(price, g, best)
    ensures Below(best[c].node, |g.root|) && |stack| < |g.root|
    ensures forall k | 0 <= k < |best[c].node.children| ::
              Above(g, best, optimal, stack + [c], g.root[best[c].node.children[k]])
  {
    var n := best[c].node;
    StackIsShort(g, best, false, stack, c);
    var more := stack + [c];
    OneMoreOnStack(g, best, stack, c);
    forall k | 0 <= k < |n.children|
      ensures Above(g, best, optimal, more, g.root[n.children[k]])
    {
      var d := g.root[n.children[k]];
      assert Slot(g, n.children[k]) && ChoseOver(g, best, c, d);
      forall i | 0 <= i < |more|
        ensures IsLinked(g, best, more, d, i)
      {
        assert i < |stack| ==> IsLinked(g, best, stack, c, i);
      }
      if optimal {
        assert Priced(g, {}, best, n.children[k]);
      }
    }
  }

  lemma OneMoreOnStack(g: Graph, best: Selection, stack: seq<Id>, c: Id)
    requires Above(g, best, false, stack, c) && c !in stack
    ensures |stack| < |g.root|
  {
    var more := stack + [c];
    var s := set x | x in more;
    DistinctCount(more, s);
    assert s <= Ids(|g.root|);
    IdsCount(|g.root|);
    SubsetCount(s, Ids(|g.root|));
  }

  lemma KidsAreBelow(price: Price, g: Graph, best: Selection, optimal: bool, nodes: seq<ENode>, n: ENode, kids: seq<Id>)
    requires |kids| == |n.children| && Below(n, |g.root|)
    requires forall k | 0 <= k < |kids| :: Built(price, g, best, optimal, nodes, g.root[n.children[k]], kids[k])
    ensures Below(ENode(n.op, kids), |nodes|)
  {
    forall k | 0 <= k < |kids|
      ensures kids[k] < |nodes|
    {
      assert Built(price, g, best, optimal, nodes, g.root[n.children[k]], kids[k]);
    }
  }

  lemma NodeIsBuiltNext(price: Price, g: Graph, best: Selection, optimal: bool, before: seq<ENode>, nodes: seq<ENode>,
                        c: Id, kids: seq<Id>, id: Id)
    requires WellFormed(g) && Grounded(g, best) && c in best && |kids| == |best[c].node.children| && g.root[c] == c
    requires optimal ==> Fair(price) && Descending(price, g, best)
    requires forall k | 0 <= k < |kids| ::
               Built(price, g, best, optimal, before, g.root[best[c].node.children[k]], kids[k])
    requires before <= nodes && Ordered(nodes) && id < |nodes| && nodes[id] == Normalize(ENode(best[c].node.op, kids))
    ensures Built(price, g, best, optimal, nodes, c, id)
  {
    forall k | 0 <= k < |kids|
      ensures Built(price, g, best, optimal, nodes, g.root[best[c].node.children[k]], kids[k])
    {
      BuiltInLonger(price, g, best, optimal, before, nodes, g.root[best[c].node.children[k]], kids[k]);
    }
    NodeIsBuilt(price, g, best, optimal, nodes, c, kids, id);
  }

  /** The last node stands for the term chosen from the class on, which is one of its
      terms; under an optimal selection a cheapest. */
  ghost predicate Extracted(price: Price, g: Graph, best: Selection, optimal: bool, nodes: seq<ENode>, c: Id) {
    && MaximallyShared(nodes) && nodes != []
    && Represents(g, c, Unfold(nodes, |nodes| - 1)) && Chosen(g, best, c, Unfold(nodes, |nodes| - 1))
    && (optimal ==>
          c < |g.root| && g.root[c] in best && TermCost(price, Unfold(nodes, |nodes| - 1)) == best[g.root[c]].cost)
  }

  lemma CompactIsExtracted(price: Price, g: Graph, best: Selection, optimal: bool, nodes: seq<ENode>, id: Id,
                           out: seq<ENode>, c: Id)
    requires WellFormed(g) && Grounded(g, best) && c < |g.root|
    requires Built(price, g, best, optimal, nodes, g.root[c], id)
    requires MaximallyShared(out) && out != [] && Unfold(out, |out| - 1) == Unfold(nodes, id)
    ensures Extracted(price, g, best, optimal, out, c)
  {
    assert Slot(g, c);
    SameChoices(g, best, g.root[c], c, Unfold(nodes, id));
    ChosenIsRepresented(g, best, c, Unfold(nodes, id));
  }

  method BuildFrom(e: EGraph, price: Price, best: Selection, ghost optimal: bool, c: Id) returns (expr: Option<RecExpr>)
    requires e.Core() && c < |e.unionfind.root| && Grounded(e.View(), best)
    requires optimal ==> Fair(price) && Descending(price, e.View(), best) && e.unionfind.root[c] in best
    ensures optimal ==> expr.Some?
    ensures expr.Some? ==> fresh(expr.value) && expr.value.Valid()
    ensures expr.Some? ==> Extracted(price, e.View(), best, optimal, expr.value.nodes, c)
    ensures expr.None? ==> Barren(e.View(), best, c)
  {
    hide Forest, NodeTotal, Occupied, Bookkept, Built, Descending, Fair, MaximallyShared, WellFormed, Grounded,
         Extracted;
    GraphIsWellFormed(e.View(), e.pending, e.Awaited(), e.classCount, e.nodeCount);
    RootsInRange(e.View());
    var whole := new RecExpr();
    var id, memo := BuildInto(e, price, best, optimal, c, whole, map[], []);
    if id.None? {
      return None;
    }
    BuiltIsBelow(price, e.View(), best, optimal, whole.nodes, e.unionfind.root[c], id.value);
    var out := whole.Compact(id.value);
    CompactIsExtracted(price, e.View(), best, optimal, whole.nodes, id.value, out.nodes, c);
    expr := Some(out);
  }

  lemma BuiltIsBelow(price: Price, g: Graph, best: Selection, optimal: bool, nodes: seq<ENode>, c: Id, id: Id)
    requires Built(price, g, best, optimal, nodes, c, id)
    ensures id < |nodes| && Ordered(nodes)
  {
  }

  /** A cheapest term of the class, if it holds a finite one. */
  ghost predicate IsBest(price: Price, g: Graph, c: Id, cost: nat, nodes: seq<ENode>) {
    && MaximallyShared(nodes) && nodes != []
    && Represents(g, c, Unfold(nodes, |nodes| - 1))
    && TermCost(price, Unfold(nodes, |nodes| - 1)) == cost
    && (forall t | Represents(g, c, t) :: cost <= TermCost(price, t))
  }

  lemma ExtractedIsBest(price: Price, g: Graph, best: Selection, nodes: seq<ENode>, c: Id)
    requires Fair(price) && WellFormed(g) && Solved(price, g, {}, best) && c < |g.root| && g.root[c] in best
    requires Extracted(price, g, best, true, nodes, c)
    ensures IsBest(price, g, c, best[g.root[c]].cost, nodes)
  {
    hide Fair, WellFormed, Solved, MaximallyShared, Represents;
    PricesAreOptimal(price, g, best, c);
  }

  lemma SolvedIsGrounded(price: Price, g: Graph, free: set<Id>, best: Selection)
    requires WellFormed(g) && Solved(price, g, free, best)
    ensures Grounded(g, best)
  {
    forall c | c in best
      ensures c < |g.root| && Has(g, c, best[c].node) && Below(best[c].node, |g.root|)
    {
      assert Supported(price, g, free, best, c);
      HasIsBelow(g, c, best[c].node);
    }
  }

  /** The cheapest term of a class by tree cost. */
  method TryFindBest(e: EGraph, price: Price, c: Id) returns (found: Option<(nat, RecExpr)>)
    requires e.Core() && Fair(price) && c < |e.unionfind.root|
    ensures found.Some? <==> exists t :: Represents(e.View(), c, t)
    ensures found.Some? ==> found.value.1.Valid() && IsBest(price, e.View(), c, found.value.0, found.value.1.nodes)
  {
    hide Forest, NodeTotal, Occupied, Bookkept, Fair, MaximallyShared, WellFormed, Represents, Solved, Descending,
         Grounded, IsBest, Extracted;
    ghost var g := e.View();
    GraphIsWellFormed(g, e.pending, e.Awaited(), e.classCount, e.nodeCount);
    var best := Solve(e, price, {});
    SolvedIsGrounded(price, g, {}, best);
    SolvedDescends(price, g, best);
    PricesAreOptimal(price, g, best, c);
    var root := e.Find(c);
    if root !in best {
      return None;
    }
    var expr := BuildFrom(e, price, best, true, c);
    ExtractedIsBest(price, g, best, expr.value.nodes, c);
    found := Some((best[root].cost, expr.value));
  }

  // ----- counting shared subterms once -----

  function Zeros(n: nat): (z: seq<nat>)
    ensures |z| == n
  {
    seq(n, _ => 0)
  }

  /** The cost of the nodes of `s` among the first `n`, each counted once and
      without its children. */
  function NodesCost(price: Price, nodes: seq<ENode>, s: set<Id>, n: nat): nat
    requires n <= |nodes|
  {
    if n == 0 then 0
    else NodesCost(price, nodes, s, n - 1)
         + if n - 1 in s then price(nodes[n - 1].op, Zeros(|nodes[n - 1].children|)) else 0
  }

  lemma {:induction false} NothingBetween(price: Price, nodes: seq<ENode>, s: set<Id>, m: nat, n: nat)
    requires m <= n <= |nodes| && forall x | m <= x < n :: x !in s
    ensures NodesCost(price, nodes, s, n) == NodesCost(price, nodes, s, m)
    decreases n
  {
    if m < n {
      NothingBetween(price, nodes, s, m, n - 1);
    }
  }

  /** What the term costs when a subterm used twice is paid for once. */
  function SharedCost(price: Price, nodes: seq<ENode>): nat
    requires Ordered(nodes) && nodes != []
  {
    NodesCost(price, nodes, Reach(nodes, |nodes| - 1), |nodes|)
  }

  method DagCost(price: Price, nodes: seq<ENode>) returns (cost: nat)
    requires Ordered(nodes) && nodes != []
    ensures cost == SharedCost(price, nodes)
  {
    hide Reach;
    var order := Reachable(nodes, |nodes| - 1);
    ghost var s := Reach(nodes, |nodes| - 1);
    ReachIsBelow(nodes, |nodes| - 1);
    cost := 0;
    ghost var counted := 0;
    for i := 0 to |order|
      invariant counted <= |nodes| && cost == NodesCost(price, nodes, s, counted)
      invariant forall j | i <= j < |order| :: counted <= order[j]
      invariant forall j | 0 <= j < i :: order[j] < counted
    {
      var id := order[i];
      assert id in order && id in s;
      forall x | counted <= x < id
        ensures x !in s
      {
        forall j | 0 <= j < |order|
          ensures order[j] != x
        {
        }
      }
      NothingBetween(price, nodes, s, counted, id);
      cost := cost + price(nodes[id].op, Zeros(|nodes[id].children|));
      counted := id + 1;
    }
    assert order[|order| - 1] in order;
  }

  /** A set of classes that holds the children of every choice it holds. */
  ghost predicate ChoiceClosed(g: Graph, best: Selection, s: set<Id>) {
    forall c, k | c in s && c in best && 0 <= k < |best[c].node.children| && best[c].node.children[k] < |g.root| ::
      g.root[best[c].node.children[k]] in s
  }

  /** The classes a selection uses below a root: the least closed set. */
  method Materialized(e: EGraph, best: Selection, c: Id) returns (seen: set<Id>)
    requires e.Core() && c < |e.unionfind.root| && Grounded(e.View(), best)
    ensures e.unionfind.root[c] in seen && ChoiceClosed(e.View(), best, seen)
    ensures forall s | e.unionfind.root[c] in s && ChoiceClosed(e.View(), best, s) :: seen <= s
  {
    hide Forest, NodeTotal, Occupied, Bookkept, WellFormed;
    ghost var g := e.View();
    GraphIsWellFormed(g, e.pending, e.Awaited(), e.classCount, e.nodeCount);
    RootsInRange(g);
    var r := e.Find(c);
    var stack := [r];
    seen := {};
    ghost var all := Ids(|g.root|);
    while stack != []
      invariant r in seen || r in stack
      invariant seen <= all && forall x | x in stack :: x in all
      invariant forall x, k | x in seen && x in best && 0 <= k < |best[x].node.children| ::
                  g.root[best[x].node.children[k]] in seen || g.root[best[x].node.children[k]] in stack
      invariant forall s | r in s && ChoiceClosed(g, best, s) :: seen <= s && forall x | x in stack :: x in s
      decreases all - seen, |stack|
    {
      var x := stack[|stack| - 1];
      assert x in stack;
      ghost var before := stack;
      stack := stack[..|stack| - 1];
      assert before == stack + [x];
      if x !in seen {
        seen := seen + {x};
        if x in best {
          var children := Finds(e, best[x].node);
          stack := stack + children;
        }
      }
    }
  }

  method Finds(e: EGraph, n: ENode) returns (roots: seq<Id>)
    requires e.unionfind.Valid() && Below(n, |e.unionfind.root|)
    ensures |roots| == |n.children| && forall k | 0 <= k < |roots| :: roots[k] == e.unionfind.root[n.children[k]]
  {
    roots := [];
    for k := 0 to |n.children|
      invariant |roots| == k && forall j | 0 <= j < k :: roots[j] == e.unionfind.root[n.children[j]]
    {
      var r := e.Find(n.children[k]);
      roots := roots + [r];
    }
  }

  lemma ExtractedIsOrdered(price: Price, g: Graph, best: Selection, optimal: bool, nodes: seq<ENode>, c: Id)
    requires Extracted(price, g, best, optimal, nodes, c)
    ensures Ordered(nodes) && nodes != [] && Represents(g, c, Unfold(nodes, |nodes| - 1))
  {
  }

  /** A term of the class with its shared cost, no worse than `first`. */
  ghost predicate SharedAnswer(price: Price, g: Graph, c: Id, first: seq<ENode>, cost: nat, nodes: seq<ENode>) {
    && Ordered(nodes) && nodes != [] && Ordered(first) && first != []
    && Represents(g, c, Unfold(nodes, |nodes| - 1))
    && cost == SharedCost(price, nodes) <= SharedCost(price, first)
  }

  lemma FirstIsShared(price: Price, g: Graph, best: Selection, c: Id, first: seq<ENode>)
    requires Extracted(price, g, best, true, first, c)
    ensures Ordered(first) && first != [] && SharedAnswer(price, g, c, first, SharedCost(price, first), first)
  {
  }

  lemma NextIsShared(price: Price, g: Graph, best: Selection, c: Id, first: seq<ENode>, cost: nat, nodes: seq<ENode>,
                     lower: nat)
    requires Extracted(price, g, best, false, nodes, c)
    requires Ordered(first) && first != [] && Ordered(nodes) && nodes != []
    requires lower == SharedCost(price, nodes) < cost <= SharedCost(price, first)
    ensures SharedAnswer(price, g, c, first, lower, nodes)
  {
  }

  lemma AnswerIsBounded(price: Price, g: Graph, c: Id, first: seq<ENode>, cost: nat, nodes: seq<ENode>)
    requires SharedAnswer(price, g, c, first, cost, nodes)
    ensures Ordered(first) && first != [] && cost <= SharedCost(price, first)
    ensures Ordered(nodes) && nodes != [] && cost == SharedCost(price, nodes)
    ensures exists t :: Represents(g, c, t)
  {
  }

  /** One round of refinement: the classes priced at zero, the choices that makes, and
      the expression built from them if there is a finite one. */
  datatype Attempt = Attempt(free: set<Id>, choices: Selection, built: Option<seq<ENode>>)

  /** Free is what the last choices use below the root, the least set that does, but
      for the root itself. */
  ghost predicate IsAttempt(price: Price, g: Graph, c: Id, last: Selection, a: Attempt)
    requires c < |g.root|
  {
    && g.root[c] !in a.free && ChoiceClosed(g, last, a.free + {g.root[c]})
    && (forall s | g.root[c] in s && ChoiceClosed(g, last, s) :: a.free <= s)
    && Solved(price, g, a.free, a.choices)
    && match a.built
       case Some(nodes) => Extracted(price, g, a.choices, false, nodes, c) && Ordered(nodes) && nodes != []
       case None => Barren(g, a.choices, c)
  }

  /** The choices the next round starts from. */
  function Latest(choices: Selection, tries: seq<Attempt>): Selection {
    if tries == [] then choices else tries[|tries| - 1].choices
  }

  /** The answer after rounds that all improved it. */
  function Kept(first: seq<ENode>, tries: seq<Attempt>): seq<ENode> {
    if tries == [] || tries[|tries| - 1].built.None? then first else tries[|tries| - 1].built.value
  }

  /** The attempt costs less than the answer so far. */
  ghost predicate Improves(price: Price, nodes: seq<ENode>, a: Attempt) {
    && a.built.Some? && Ordered(a.built.value) && a.built.value != [] && Ordered(nodes) && nodes != []
    && SharedCost(price, a.built.value) < SharedCost(price, nodes)
  }

  /** Each round refines the one before, and the last alone need not improve. */
  ghost predicate Tried(price: Price, g: Graph, c: Id, choices: Selection, first: seq<ENode>, tries: seq<Attempt>) {
    c < |g.root| && forall k | 0 <= k < |tries| :: TriedAt(price, g, c, choices, first, tries, k)
  }

  ghost predicate TriedAt(price: Price, g: Graph, c: Id, choices: Selection, first: seq<ENode>, tries: seq<Attempt>,
                          k: nat)
    requires c < |g.root| && k < |tries|
  {
    && IsAttempt(price, g, c, Latest(choices, tries[..k]), tries[k])
    && (k + 1 < |tries| ==> Improves(price, Kept(first, tries[..k]), tries[k]))
  }

  lemma TriedMore(price: Price, g: Graph, c: Id, choices: Selection, first: seq<ENode>, tries: seq<Attempt>, a: Attempt)
    requires Tried(price, g, c, choices, first, tries) && c < |g.root|
    requires tries != [] ==> Improves(price, Kept(first, tries[..|tries| - 1]), tries[|tries| - 1])
    requires IsAttempt(price, g, c, Latest(choices, tries), a)
    ensures Tried(price, g, c, choices, first, tries + [a]) && (tries + [a])[..|tries|] == tries
    ensures Latest(choices, tries + [a]) == a.choices
    ensures a.built.Some? ==> Kept(first, tries + [a]) == a.built.value
  {
    hide IsAttempt, Improves;
    var all := tries + [a];
    forall k | 0 <= k < |all|
      ensures TriedAt(price, g, c, choices, first, all, k)
    {
      if k < |tries| {
        assert TriedAt(price, g, c, choices, first, tries, k) && all[..k] == tries[..k];
      } else {
        assert all[..k] == tries;
      }
    }
  }

  /** A term of the class, by repeatedly pricing what the last answer uses at zero
      and keeping the answer while its shared cost falls. It is never worse than
      the cheapest tree, `first`. */
  method TryFindBestShared(e: EGraph, price: Price, c: Id, rounds: nat)
    returns (found: Option<(nat, RecExpr)>, ghost first: seq<ENode>, ghost choices: Selection,
             ghost tries: seq<Attempt>)
    requires e.Core() && Fair(price) && c < |e.unionfind.root|
    ensures found.Some? <==> exists t :: Represents(e.View(), c, t)
    ensures found.Some? ==> exists cost :: IsBest(price, e.View(), c, cost, first)
    ensures found.Some? ==> SharedAnswer(price, e.View(), c, first, found.value.0, found.value.1.nodes)
    ensures found.Some? ==>
              && Solved(price, e.View(), {}, choices) && Extracted(price, e.View(), choices, true, first, c)
              && Refined(price, e.View(), c, choices, first, tries, rounds, found.value.1.nodes)
  {
    hide Forest, NodeTotal, Occupied, Bookkept, Fair, WellFormed, Represents, Solved, Descending, Grounded, IsBest,
         Extracted, SharedAnswer, Sane;
    ghost var g := e.View();
    GraphIsWellFormed(g, e.pending, e.Awaited(), e.classCount, e.nodeCount);
    first, choices, tries := [], map[], [];
    var selection := Solve(e, price, {});
    SolvedIsGrounded(price, g, {}, selection);
    SolvedDescends(price, g, selection);
    PricesAreOptimal(price, g, selection, c);
    var root := e.Find(c);
    if root !in selection {
      return None, first, choices, tries;
    }
    choices := selection;
    var tree := BuildFrom(e, price, selection, true, c);
    first := tree.value.nodes;
    ExtractedIsBest(price, g, selection, first, c);
    FirstIsShared(price, g, selection, c, first);
    var cost := DagCost(price, tree.value.nodes);
    var f;
    f, tries := Refine(e, price, c, selection, cost, tree.value, first, rounds);
    AnswerIsBounded(price, g, c, first, f.0, f.1.nodes);
    found := Some(f);
  }

  /** The rounds made, all of them unless one did not improve the answer, and the best
      answer. */
  ghost predicate Refined(price: Price, g: Graph, c: Id, choices: Selection, first: seq<ENode>, tries: seq<Attempt>,
                          rounds: nat, nodes: seq<ENode>) {
    && Tried(price, g, c, choices, first, tries) && |tries| <= rounds
    && if tries != [] && !Improves(price, Kept(first, tries[..|tries| - 1]), tries[|tries| - 1])
       then nodes == Kept(first, tries[..|tries| - 1])
       else nodes == Kept(first, tries) && |tries| == rounds
  }

  /** The refinement rounds. */
  method Refine(e: EGraph, price: Price, c: Id, selection0: Selection, cost0: nat, expr0: RecExpr,
                ghost first: seq<ENode>, rounds: nat)
    returns (found: (nat, RecExpr), ghost tries: seq<Attempt>)
    requires e.Core() && Fair(price) && c < |e.unionfind.root| && Grounded(e.View(), selection0)
    requires SharedAnswer(price, e.View(), c, first, cost0, expr0.nodes)
    ensures SharedAnswer(price, e.View(), c, first, found.0, found.1.nodes)
    ensures Refined(price, e.View(), c, selection0, expr0.nodes, tries, rounds, found.1.nodes)
  {
    hide Forest, NodeTotal, Occupied, Bookkept, Fair, WellFormed, Represents, Solved, Grounded, Extracted,
         SharedAnswer, Sane, Tried, IsAttempt, SharedCost, Barren, ChoiceClosed, Chosen, MaximallyShared, Ordered;
    ghost var g := e.View();
    GraphIsWellFormed(g, e.pending, e.Awaited(), e.classCount, e.nodeCount);
    RootsInRange(g);
    var root := e.Find(c);
    var selection := selection0;
    found, tries := (cost0, expr0), [];
    NothingTried(price, g, c, selection0, expr0.nodes);
    AnswerIsBounded(price, g, c, first, found.0, found.1.nodes);
    for i := 0 to rounds
      invariant Grounded(g, selection) && SharedAnswer(price, g, c, first, found.0, found.1.nodes)
      invariant |tries| == i && Tried(price, g, c, selection0, expr0.nodes, tries)
      invariant selection == Latest(selection0, tries) && found.1.nodes == Kept(expr0.nodes, tries)
      invariant tries != [] ==> Improves(price, Kept(expr0.nodes, tries[..i - 1]), tries[i - 1])
    {
      var free := Materialized(e, selection, root);
      var candidate := Solve(e, price, free - {root});
      SolvedIsGrounded(price, g, free - {root}, candidate);
      var expr := BuildFrom(e, price, candidate, false, c);
      ghost var a := Attempt(free - {root}, candidate, if expr.None? then None else Some(expr.value.nodes));
      AttemptIsMade(price, g, c, selection, free, a);
      TriedMore(price, g, c, selection0, expr0.nodes, tries, a);
      if expr.None? {
        tries := tries + [a];
        break;
      }
      ExtractedIsOrdered(price, g, candidate, false, expr.value.nodes, c);
      var cost := DagCost(price, expr.value.nodes);
      AnswerIsBounded(price, g, c, first, found.0, found.1.nodes);
      if cost >= found.0 {
        tries := tries + [a];
        break;
      }
      NextIsShared(price, g, candidate, c, first, found.0, expr.value.nodes, cost);
      found := (cost, expr.value);
      selection := candidate;
      tries := tries + [a];
    }
  }

  lemma NothingTried(price: Price, g: Graph, c: Id, choices: Selection, first: seq<ENode>)
    requires c < |g.root|
    ensures Tried(price, g, c, choices, first, [])
  {
  }

  lemma AttemptIsMade(price: Price, g: Graph, c: Id, last: Selection, free: set<Id>, a: Attempt)
    requires c < |g.root| && g.root[c] in free && ChoiceClosed(g, last, free) && a.free == free - {g.root[c]}
    requires forall s | g.root[c] in s && ChoiceClosed(g, last, s) :: free <= s
    requires Solved(price, g, a.free, a.choices)
    requires a.built.Some? ==> Extracted(price, g, a.choices, false, a.built.value, c)
    requires a.built.None? ==> Barren(g, a.choices, c)
    ensures IsAttempt(price, g, c, last, a)
  {
    hide Solved, Represents, Chosen, Barren;
    assert a.free + {g.root[c]} == free;
  }
}
