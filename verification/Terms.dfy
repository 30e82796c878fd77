/** Expression trees, and the maximally shared expressions that stand for them. */
module Terms {
  import opened Lang
  import opened Expressions
  import opened Meanings

  datatype Term = Term(op: Op, args: seq<Term>)

  /** The tree a node of an expression expands to. */
  function Unfold(nodes: seq<ENode>, id: Id): Term
    requires Ordered(nodes) && id < |nodes|
    decreases id
  {
    var n := nodes[id];
    assert Below(n, id);
    Term(n.op, seq(|n.children|, k requires 0 <= k < |n.children| => Unfold(nodes, n.children[k])))
  }

  /** Equal up to the order of commutative arguments. */
  ghost predicate Alike(t: Term, u: Term)
    decreases t
  {
    && t.op == u.op && |t.args| == |u.args|
    && (|| (forall k | 0 <= k < |t.args| :: Alike(t.args[k], u.args[k]))
        || (t.op.IsCommutative() && |t.args| == 2 && Alike(t.args[0], u.args[1]) && Alike(t.args[1], u.args[0])))
  }

  /** What a term denotes. */
  function TermValue(sem: Semantics, t: Term): Value {
    sem.eval(t.op, TermValues(sem, t.args))
  }

  function TermValues(sem: Semantics, ts: seq<Term>): (vs: seq<Value>)
    ensures |vs| == |ts| && forall k | 0 <= k < |ts| :: vs[k] == TermValue(sem, ts[k])
  {
    if ts == [] then [] else TermValues(sem, ts[..|ts| - 1]) + [TermValue(sem, ts[|ts| - 1])]
  }

  // ----- costs -----

  /** The cost of an operator from those of its arguments, in exact units. */
  type Price = (Op, seq<nat>) -> nat

  predicate NoMore(a: seq<nat>, b: seq<nat>) {
    |a| == |b| && forall k | 0 <= k < |a| :: a[k] <= b[k]
  }

  /** A term costs more than each of its parts, no less when a part costs more,
      and the same with commutative arguments swapped. */
  ghost predicate Fair(price: Price) {
    && (forall op: Op, costs: seq<nat>, k | 0 <= k < |costs| :: price(op, costs) > costs[k])
    && (forall op: Op, a: seq<nat>, b: seq<nat> | NoMore(a, b) :: price(op, a) <= price(op, b))
    && (forall op: Op, a: nat, b: nat | op.IsCommutative() :: price(op, [a, b]) == price(op, [b, a]))
  }

  function TermCost(price: Price, t: Term): nat {
    price(t.op, TermCosts(price, t.args))
  }

  function TermCosts(price: Price, ts: seq<Term>): (costs: seq<nat>)
    ensures |costs| == |ts| && forall k | 0 <= k < |ts| :: costs[k] == TermCost(price, ts[k])
  {
    if ts == [] then [] else TermCosts(price, ts[..|ts| - 1]) + [TermCost(price, ts[|ts| - 1])]
  }

  function Sum(costs: seq<nat>): nat {
    if costs == [] then 0 else Sum(costs[..|costs| - 1]) + costs[|costs| - 1]
  }

  function Most(costs: seq<nat>): nat {
    if costs == [] then 0
    else if Most(costs[..|costs| - 1]) > costs[|costs| - 1] then Most(costs[..|costs| - 1]) else costs[|costs| - 1]
  }

  /** One unit a node. */
  function AstSize(op: Op, costs: seq<nat>): nat {
    1 + Sum(costs)
  }

  /** The length of the longest path. */
  function AstDepth(op: Op, costs: seq<nat>): nat {
    1 + Most(costs)
  }

  /** The latency of an operator, in eighths of an add. */
  function Latency(op: Op): (n: nat)
    ensures n > 0
  {
    match op
    case Const(_) => 1
    case Var(_) => 1
    case If => 16
    case Mul => 32
    case Div => 120
    case Sqrt => 160
    case Exp => 360
    case Ln => 360
    case Sin => 480
    case Cos => 480
    case Tan => 480
    case Atan2 => 480
    case Pow => 640
    case Diff => 8_000_000_000
    case _ => 8
  }

  function OpCost(op: Op, costs: seq<nat>): nat {
    Latency(op) + Sum(costs)
  }

  lemma {:induction false} SumIsFair(a: seq<nat>, b: seq<nat>)
    requires NoMore(a, b)
    ensures Sum(a) <= Sum(b) && forall k | 0 <= k < |a| :: a[k] <= Sum(a)
  {
    if a != [] {
      SumIsFair(a[..|a| - 1], b[..|b| - 1]);
      forall k | 0 <= k < |a|
        ensures a[k] <= Sum(a)
      {
        assert k < |a| - 1 ==> a[k] == a[..|a| - 1][k];
      }
    }
  }

  lemma {:induction false} MostIsFair(a: seq<nat>, b: seq<nat>)
    requires NoMore(a, b)
    ensures Most(a) <= Most(b) && forall k | 0 <= k < |a| :: a[k] <= Most(a)
  {
    if a != [] {
      MostIsFair(a[..|a| - 1], b[..|b| - 1]);
      forall k | 0 <= k < |a|
        ensures a[k] <= Most(a)
      {
        assert k < |a| - 1 ==> a[k] == a[..|a| - 1][k];
      }
    }
  }

  lemma PairCosts(a: nat, b: nat)
    ensures Sum([a, b]) == a + b && Most([a, b]) == if a > b then a else b
  {
    assert [a, b][..1] == [a] && [a][..0] == [];
    assert Sum([a]) == Sum([a][..0]) + a && Most([a]) == a;
  }

  lemma SizeAndDepthAreFair()
    ensures Fair(AstSize) && Fair(AstDepth)
  {
    forall op: Op, costs: seq<nat>, k | 0 <= k < |costs|
      ensures AstSize(op, costs) > costs[k] && AstDepth(op, costs) > costs[k]
    {
      SumIsFair(costs, costs);
      MostIsFair(costs, costs);
    }
    forall op: Op, a: seq<nat>, b: seq<nat> | NoMore(a, b)
      ensures AstSize(op, a) <= AstSize(op, b) && AstDepth(op, a) <= AstDepth(op, b)
    {
      SumIsFair(a, b);
      MostIsFair(a, b);
    }
    forall op: Op, a: nat, b: nat
      ensures AstSize(op, [a, b]) == AstSize(op, [b, a]) && AstDepth(op, [a, b]) == AstDepth(op, [b, a])
    {
      PairCosts(a, b);
      PairCosts(b, a);
    }
  }

  lemma OpCostIsFair()
    ensures Fair(OpCost)
  {
    forall op: Op, costs: seq<nat>, k | 0 <= k < |costs|
      ensures OpCost(op, costs) > costs[k]
    {
      SumIsFair(costs, costs);
      assert Latency(op) > 0;
    }
    forall op: Op, a: seq<nat>, b: seq<nat> | NoMore(a, b)
      ensures OpCost(op, a) <= OpCost(op, b)
    {
      SumIsFair(a, b);
    }
    forall op: Op, a: nat, b: nat
      ensures OpCost(op, [a, b]) == OpCost(op, [b, a])
    {
      PairCosts(a, b);
      PairCosts(b, a);
    }
  }

  /** Reordering commutative arguments changes no fair cost. */
  lemma {:induction false} AlikeCosts(price: Price, t: Term, u: Term)
    requires Fair(price) && Alike(t, u)
    ensures TermCost(price, t) == TermCost(price, u)
    decreases t
  {
    var a, b := TermCosts(price, t.args), TermCosts(price, u.args);
    if forall k | 0 <= k < |t.args| :: Alike(t.args[k], u.args[k]) {
      forall k | 0 <= k < |a|
        ensures a[k] == b[k]
      {
        AlikeCosts(price, t.args[k], u.args[k]);
      }
      assert a == b;
    } else {
      AlikeCosts(price, t.args[0], u.args[1]);
      AlikeCosts(price, t.args[1], u.args[0]);
      assert a == [a[0], a[1]] && b == [a[1], a[0]];
    }
  }

  // ----- expressions -----

  lemma {:induction false} UnfoldOfPrefix(nodes: seq<ENode>, more: seq<ENode>, id: Id)
    requires Ordered(nodes) && Ordered(more) && nodes <= more && id < |nodes|
    ensures Unfold(more, id) == Unfold(nodes, id)
    decreases id
  {
    var n := nodes[id];
    assert more[id] == n && Below(n, id);
    forall k | 0 <= k < |n.children|
      ensures Unfold(more, n.children[k]) == Unfold(nodes, n.children[k])
    {
      UnfoldOfPrefix(nodes, more, n.children[k]);
    }
    assert Unfold(more, id).args == Unfold(nodes, id).args;
  }

  /** Children first, commutative arguments in order, no node twice. */
  predicate MaximallyShared(nodes: seq<ENode>) {
    && Ordered(nodes)
    && (forall i | 0 <= i < |nodes| :: Normalize(nodes[i]) == nodes[i])
    && (forall i, j | 0 <= i < j < |nodes| :: nodes[i] != nodes[j])
  }

  /** In such an expression equal subterms are one node, argument order aside. */
  lemma {:induction false} EqualTermsAreShared(nodes: seq<ENode>, i: Id, j: Id)
    requires MaximallyShared(nodes) && i < |nodes| && j < |nodes| && Alike(Unfold(nodes, i), Unfold(nodes, j))
    ensures i == j
    decreases i
  {
    var a, b := nodes[i], nodes[j];
    var t, u := Unfold(nodes, i), Unfold(nodes, j);
    assert Below(a, i) && Below(b, j);
    if !(t.op.IsCommutative() && |t.args| == 2 && Alike(t.args[0], u.args[1]) && Alike(t.args[1], u.args[0])) {
      forall k | 0 <= k < |a.children|
        ensures a.children[k] == b.children[k]
      {
        assert Alike(t.args[k], u.args[k]);
        EqualTermsAreShared(nodes, a.children[k], b.children[k]);
      }
      assert a == b;
    } else {
      EqualTermsAreShared(nodes, a.children[0], b.children[1]);
      EqualTermsAreShared(nodes, a.children[1], b.children[0]);
      assert a.children == [a.children[0], a.children[1]] && b.children == [a.children[1], a.children[0]];
      assert Normalize(a) == a && Normalize(b) == b;
    }
  }

  /** Swap the arguments of a commutative operator. */
  function Flip(node: ENode): ENode {
    if node.op.IsCommutative() && |node.children| == 2
    then ENode(node.op, [node.children[1], node.children[0]]) else node
  }

  /** Swapping the arguments of a commutative operator changes no value. */
  lemma FlipDenotes(sem: Semantics, analysis: Analysis, meaning: seq<Value>, n: ENode)
    requires Respects(sem, analysis) && Below(n, |meaning|) && sem.knows(n.op)
    ensures Below(Flip(n), |meaning|) && Denotes(sem, meaning, Flip(n)) == Denotes(sem, meaning, n)
  {
    if Flip(n) != n {
      var v := Arguments(meaning, n.children);
      assert v == [v[0], v[1]] && Arguments(meaning, Flip(n).children) == [v[1], v[0]];
    }
  }

  class RecExpr {
    var nodes: seq<ENode>
    var memo: map<ENode, Id>

    ghost predicate Valid()
      reads this
    {
      && MaximallyShared(nodes)
      && (forall i | 0 <= i < |nodes| :: nodes[i] in memo && memo[nodes[i]] == i)
      && (forall m | m in memo :: memo[m] < |nodes| && nodes[memo[m]] == m)
    }

    constructor ()
      ensures Valid() && nodes == []
    {
      nodes, memo := [], map[];
    }

    /** Append a node whose children exist, unless it is there already. */
    method Add(node: ENode) returns (id: Id)
      requires Valid() && Below(node, |nodes|)
      modifies this
      ensures Valid() && id < |nodes| && nodes[id] == Normalize(node)
      ensures nodes == if Normalize(node) in old(nodes) then old(nodes) else old(nodes) + [Normalize(node)]
    {
      var n := Normalize(node);
      if n in memo {
        assert n in nodes;
        return memo[n];
      }
      id := |nodes|;
      memo := memo[n := id];
      nodes := nodes + [n];
    }

    /** Keep only what `root` reaches, with `root` last. */
    method Compact(root: Id) returns (out: RecExpr)
      requires Valid() && root < |nodes|
      ensures fresh(out) && out.Valid() && out.nodes != []
      ensures |out.nodes| == |Reach(nodes, root)|
      ensures Unfold(out.nodes, |out.nodes| - 1) == Unfold(nodes, root)
    {
      hide Unfold, Reach, Normalize, MaximallyShared, AllPlaced, Renaming;
      SharedIsOrdered(nodes);
      var order := Reachable(nodes, root);
      ReachIsBelow(nodes, root);
      AscendingCount(order, Reach(nodes, root));
      out := new RecExpr();
      var renamed: map<Id, Id> := map[];
      RenamingNothing(nodes, order, renamed);
      for i := 0 to |order|
        invariant fresh(out) && out.Valid() && |out.nodes| == i && Renaming(order, renamed, i)
        invariant AllPlaced(nodes, order, out.nodes)
      {
        assert order[i] in order;
        ChildrenAreRenamed(nodes, root, order, renamed, i);
        var children := Renumber(nodes[order[i]].children, renamed);
        var node := ENode(nodes[order[i]].op, children);
        CompactStep(nodes, order, out.nodes, renamed, node);
        ghost var before := out.nodes;
        var id := out.Add(node);
        IdIsLast(before, out.nodes, id);
        RenamingNext(order, renamed, i);
        renamed := renamed[order[i] := id];
      }
      SharedIsOrdered(out.nodes);
      CompactIsSame(nodes, order, out.nodes, |order| - 1);
    }
  }

  /** The first `i` listed ids are renamed to their positions. */
  predicate Renaming(order: seq<Id>, renamed: map<Id, Id>, i: nat) {
    && i <= |order|
    && (forall j | 0 <= j < i :: order[j] in renamed && renamed[order[j]] == j)
    && (forall x | x in renamed :: renamed[x] < i && order[renamed[x]] == x)
  }

  lemma RenamingNothing(nodes: seq<ENode>, order: seq<Id>, renamed: map<Id, Id>)
    requires renamed == map[]
    ensures Renaming(order, renamed, 0) && AllPlaced(nodes, order, [])
  {
  }

  lemma RenamingNext(order: seq<Id>, renamed: map<Id, Id>, i: nat)
    requires Renaming(order, renamed, i) && i < |order| && forall a, b | 0 <= a < b < |order| :: order[a] < order[b]
    ensures Renaming(order, renamed[order[i] := i], i + 1)
  {
  }

  lemma ChildrenAreRenamed(nodes: seq<ENode>, root: Id, order: seq<Id>, renamed: map<Id, Id>, i: nat)
    requires Ordered(nodes) && root < |nodes| && i < |order| && order[i] < |nodes| && Renaming(order, renamed, i)
    requires forall a, b | 0 <= a < b < |order| :: order[a] < order[b]
    requires forall x :: x in order <==> x in Reach(nodes, root)
    ensures forall k | 0 <= k < |nodes[order[i]].children| :: nodes[order[i]].children[k] in renamed
  {
    forall k | 0 <= k < |nodes[order[i]].children|
      ensures nodes[order[i]].children[k] in renamed
    {
      ChildComesBefore(nodes, root, order, i, k);
    }
  }

  method Renumber(children: seq<Id>, renamed: map<Id, Id>) returns (ids: seq<Id>)
    requires forall k | 0 <= k < |children| :: children[k] in renamed
    ensures |ids| == |children| && forall k | 0 <= k < |ids| :: ids[k] == renamed[children[k]]
  {
    ids := [];
    for k := 0 to |children|
      invariant |ids| == k && forall j | 0 <= j < k :: ids[j] == renamed[children[j]]
    {
      ids := ids + [renamed[children[k]]];
    }
  }

  lemma {:induction false} AscendingCount(ids: seq<Id>, s: set<Id>)
    requires (forall a, b | 0 <= a < b < |ids| :: ids[a] < ids[b]) && forall x :: x in ids <==> x in s
    ensures |ids| == |s|
  {
    if ids == [] {
      assert s == {};
    } else {
      var last := ids[|ids| - 1];
      var init := ids[..|ids| - 1];
      assert last in ids && ids == init + [last];
      assert last !in init;
      AscendingCount(init, s - {last});
    }
  }

  /** Node `j` of the compacted expression is node `order[j]`, renumbered. */
  predicate Placed(nodes: seq<ENode>, order: seq<Id>, out: seq<ENode>, j: nat) {
    && j < |out| <= |order| && order[j] < |nodes|
    && out[j].op == nodes[order[j]].op && |out[j].children| == |nodes[order[j]].children|
    && (forall k | 0 <= k < |out[j].children| ::
          out[j].children[k] < |out| && order[out[j].children[k]] == nodes[order[j]].children[k])
  }

  predicate AllPlaced(nodes: seq<ENode>, order: seq<Id>, out: seq<ENode>) {
    forall j | 0 <= j < |out| :: Placed(nodes, order, out, j)
  }

  lemma SharedIsOrdered(nodes: seq<ENode>)
    requires MaximallyShared(nodes)
    ensures Ordered(nodes)
  {
  }

  lemma IdIsLast(before: seq<ENode>, after: seq<ENode>, id: Id)
    requires MaximallyShared(after) && id < |after| && after == before + [after[id]]
    ensures id == |before|
  {
    assert after[|before|] == after[id];
  }

  /** Renumbering keeps argument order, and repeats no node. */
  lemma CompactStep(nodes: seq<ENode>, order: seq<Id>, out: seq<ENode>, renamed: map<Id, Id>, node: ENode)
    requires MaximallyShared(nodes) && |out| < |order| && order[|out|] < |nodes| && Renaming(order, renamed, |out|)
    requires forall a, b | 0 <= a < b < |order| :: order[a] < order[b]
    requires AllPlaced(nodes, order, out)
    requires node.op == nodes[order[|out|]].op && |node.children| == |nodes[order[|out|]].children|
    requires forall k | 0 <= k < |node.children| ::
               nodes[order[|out|]].children[k] in renamed
               && node.children[k] == renamed[nodes[order[|out|]].children[k]]
    ensures Normalize(node) == node && node !in out && Below(node, |out|)
    ensures AllPlaced(nodes, order, out + [node])
  {
    var n := nodes[order[|out|]];
    forall j | 0 <= j < |out|
      ensures Placed(nodes, order, out + [node], j)
    {
      assert Placed(nodes, order, out, j);
    }
    if |node.children| == 2 && node.children[0] > node.children[1] {
      assert order[node.children[1]] < order[node.children[0]];
      assert Normalize(n) == n;
    }
    forall j | 0 <= j < |out|
      ensures out[j] != node
    {
      assert Placed(nodes, order, out, j);
      assert nodes[order[j]] != n;
      assert out[j].children == node.children ==> nodes[order[j]].children == n.children;
    }
  }

  lemma {:induction false} CompactIsSame(nodes: seq<ENode>, order: seq<Id>, out: seq<ENode>, j: nat)
    requires Ordered(nodes) && Ordered(out) && j < |out| <= |order| && order[j] < |nodes|
    requires AllPlaced(nodes, order, out)
    ensures Unfold(out, j) == Unfold(nodes, order[j])
    decreases j
  {
    assert Placed(nodes, order, out, j) && Below(out[j], j);
    forall k | 0 <= k < |out[j].children|
      ensures Unfold(out, out[j].children[k]) == Unfold(nodes, nodes[order[j]].children[k])
    {
      assert Placed(nodes, order, out, out[j].children[k]);
      CompactIsSame(nodes, order, out, out[j].children[k]);
    }
    assert Unfold(out, j).args == Unfold(nodes, order[j]).args;
  }

  /** The costs of the children of a node. */
  function ChildCosts(node: ENode, costs: seq<nat>): (args: seq<nat>)
    requires Below(node, |costs|)
    ensures |args| == |node.children| && forall k | 0 <= k < |args| :: args[k] == costs[node.children[k]]
  {
    seq(|node.children|, k requires 0 <= k < |node.children| => costs[node.children[k]])
  }

  method NodeCost(price: Price, node: ENode, costs: seq<nat>) returns (c: nat)
    requires Below(node, |costs|)
    ensures c == price(node.op, ChildCosts(node, costs))
  {
    var args: seq<nat> := [];
    for k := 0 to |node.children|
      invariant |args| == k && forall j | 0 <= j < k :: args[j] == costs[node.children[j]]
    {
      args := args + [costs[node.children[k]]];
    }
    assert args == ChildCosts(node, costs);
    c := price(node.op, args);
  }

  lemma NodeCostIsTermCost(price: Price, nodes: seq<ENode>, i: Id, costs: seq<nat>)
    requires Ordered(nodes) && i < |nodes| && |costs| == i && Below(nodes[i], i)
    requires forall j | 0 <= j < i :: costs[j] == TermCost(price, Unfold(nodes, j))
    ensures price(nodes[i].op, ChildCosts(nodes[i], costs)) == TermCost(price, Unfold(nodes, i))
  {
    var t := Unfold(nodes, i);
    forall k | 0 <= k < |t.args|
      ensures ChildCosts(nodes[i], costs)[k] == TermCosts(price, t.args)[k]
    {
    }
    assert ChildCosts(nodes[i], costs) == TermCosts(price, t.args);
  }

  /** The cost of the tree an expression stands for, one forward pass. */
  method TreeCost(price: Price, nodes: seq<ENode>) returns (cost: nat)
    requires Ordered(nodes) && nodes != []
    ensures cost == TermCost(price, Unfold(nodes, |nodes| - 1))
  {
    hide Unfold, TermCost, ChildCosts;
    var costs: seq<nat> := [];
    for i := 0 to |nodes|
      invariant |costs| == i && forall j | 0 <= j < i :: costs[j] == TermCost(price, Unfold(nodes, j))
    {
      assert Below(nodes[i], i);
      var c := NodeCost(price, nodes[i], costs);
      NodeCostIsTermCost(price, nodes, i, costs);
      costs := costs + [c];
    }
    cost := costs[|costs| - 1];
  }
}
