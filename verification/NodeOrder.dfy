/** The total order on e-nodes, operator first, and sorting by it. */
module NodeOrders {
  import opened Lang

  /** The position of the operator's constructor in its declaration. */
  function Rank(op: Op): nat {
    match op
    case Const(_) => 0 case Var(_) => 1
    case Add => 2 case Sub => 3 case Mul => 4 case Div => 5 case Pow => 6
    case Min => 7 case Max => 8 case Atan2 => 9
    case Neg => 10 case Sqrt => 11 case Ln => 12 case Exp => 13 case Sin => 14 case Cos => 15
    case Tan => 16 case Abs => 17 case Sign => 18 case Floor => 19 case Ceil => 20
    case Lt => 21 case Le => 22 case Gt => 23 case Ge => 24 case Eq => 25 case Ne => 26
    case And => 27 case Or => 28 case Not => 29
    case If => 30
    case Diff => 31
  }

  function Payload(op: Op): nat {
    if op.Const? then op.c else if op.Var? then op.s else 0
  }

  /** The operator at a position of the declaration. */
  function OpAt(rank: nat, payload: nat): Op {
    if rank == 0 then Const(payload) else if rank == 1 then Var(payload)
    else if rank < 10 then
      [Add, Sub, Mul, Div, Pow, Min, Max, Atan2][rank - 2]
    else if rank < 21 then
      [Neg, Sqrt, Ln, Exp, Sin, Cos, Tan, Abs, Sign, Floor, Ceil][rank - 10]
    else if rank < 30 then
      [Lt, Le, Gt, Ge, Eq, Ne, And, Or, Not][rank - 21]
    else if rank == 30 then If else Diff
  }

  lemma RankIsExact(op: Op)
    ensures OpAt(Rank(op), Payload(op)) == op
  {
  }

  predicate OpLess(a: Op, b: Op) {
    Rank(a) < Rank(b) || (Rank(a) == Rank(b) && Payload(a) < Payload(b))
  }

  predicate IdsLess(a: seq<Id>, b: seq<Id>) {
    if a == [] || b == [] then a == [] && b != []
    else a[0] < b[0] || (a[0] == b[0] && IdsLess(a[1..], b[1..]))
  }

  predicate NodeLess(a: ENode, b: ENode) {
    OpLess(a.op, b.op) || (a.op == b.op && IdsLess(a.children, b.children))
  }

  /** Strictly increasing: sorted and without repeats. */
  predicate Sorted(nodes: seq<ENode>) {
    forall i, j | 0 <= i < j < |nodes| :: NodeLess(nodes[i], nodes[j])
  }

  lemma OpOrderIsTotal(a: Op, b: Op)
    ensures a == b || OpLess(a, b) || OpLess(b, a)
  {
    hide Rank, Payload, OpAt;
    RankIsExact(a);
    RankIsExact(b);
  }

  lemma {:induction false} IdsOrderIsTotal(a: seq<Id>, b: seq<Id>)
    ensures a == b || IdsLess(a, b) || IdsLess(b, a)
  {
    if a != [] && b != [] && a[0] == b[0] {
      IdsOrderIsTotal(a[1..], b[1..]);
      assert a == [a[0]] + a[1..] && b == [b[0]] + b[1..];
    }
  }

  lemma {:induction false} IdsOrderIsTransitive(a: seq<Id>, b: seq<Id>, c: seq<Id>)
    requires IdsLess(a, b) && IdsLess(b, c)
    ensures IdsLess(a, c)
  {
    if a != [] && a[0] == b[0] == c[0] {
      IdsOrderIsTransitive(a[1..], b[1..], c[1..]);
    }
  }

  lemma {:induction false} IdsOrderIsIrreflexive(a: seq<Id>)
    ensures !IdsLess(a, a)
  {
    if a != [] {
      IdsOrderIsIrreflexive(a[1..]);
    }
  }

  lemma NodeOrderIsTotal(a: ENode, b: ENode)
    ensures a == b || NodeLess(a, b) || NodeLess(b, a)
  {
    OpOrderIsTotal(a.op, b.op);
    IdsOrderIsTotal(a.children, b.children);
  }

  lemma NodeOrderIsTransitive(a: ENode, b: ENode, c: ENode)
    requires NodeLess(a, b) && NodeLess(b, c)
    ensures NodeLess(a, c)
  {
    if a.op == b.op == c.op {
      IdsOrderIsTransitive(a.children, b.children, c.children);
    }
  }

  lemma LessIsOther(a: ENode, b: ENode)
    requires NodeLess(a, b)
    ensures a != b
  {
    if a.op == b.op {
      IdsOrderIsIrreflexive(a.children);
    }
  }

  lemma LastIsGreatest(nodes: seq<ENode>, node: ENode)
    requires Sorted(nodes) && node in nodes
    ensures node != nodes[|nodes| - 1] ==> node in nodes[..|nodes| - 1] && NodeLess(node, nodes[|nodes| - 1])
  {
  }

  lemma LastIsOnce(nodes: seq<ENode>)
    requires Sorted(nodes) && nodes != []
    ensures nodes[|nodes| - 1] !in nodes[..|nodes| - 1]
  {
    var last := nodes[|nodes| - 1];
    forall i | 0 <= i < |nodes| - 1
      ensures nodes[i] != last
    {
      LessIsOther(nodes[i], last);
    }
  }

  /** A sorted list is determined by what is in it. */
  lemma {:induction false} SortedIsUnique(a: seq<ENode>, b: seq<ENode>)
    requires Sorted(a) && Sorted(b) && forall n :: n in a <==> n in b
    ensures a == b
    decreases |a|
  {
    hide NodeLess;
    FirstNodeIsIn(a);
    FirstNodeIsIn(b);
    if a != [] && b != [] {
      var x, y := a[|a| - 1], b[|b| - 1];
      assert x in a && y in b;
      SameLast(a, b, x, y);
      LastIsOnce(a);
      LastIsOnce(b);
      var init, other := a[..|a| - 1], b[..|b| - 1];
      forall n
        ensures n in init <==> n in other
      {
        assert n in a <==> n in init || n == x;
        assert n in b <==> n in other || n == x;
      }
      SortedIsUnique(init, other);
      assert a == init + [x] && b == other + [x];
    }
  }

  lemma FirstNodeIsIn(nodes: seq<ENode>)
    ensures nodes == [] || nodes[0] in nodes
  {
  }

  lemma SameLast(a: seq<ENode>, b: seq<ENode>, x: ENode, y: ENode)
    requires Sorted(a) && Sorted(b) && a != [] && b != [] && x == a[|a| - 1] && y == b[|b| - 1] && x in b && y in a
    ensures x == y
  {
    hide NodeLess;
    LastIsGreatest(a, y);
    LastIsGreatest(b, x);
    if x != y {
      NodeOrderIsTransitive(x, y, x);
      LessIsOther(x, x);
    }
  }

  lemma InsertKeepsSorted(nodes: seq<ENode>, at: nat, node: ENode)
    requires Sorted(nodes) && at <= |nodes|
    requires forall i | 0 <= i < at :: NodeLess(nodes[i], node)
    requires at < |nodes| ==> node != nodes[at] && !NodeLess(nodes[at], node)
    ensures Sorted(nodes[..at] + [node] + nodes[at..])
  {
    forall k | at <= k < |nodes|
      ensures NodeLess(node, nodes[k])
    {
      NodeOrderIsTotal(node, nodes[at]);
      if at < k {
        NodeOrderIsTransitive(node, nodes[at], nodes[k]);
      }
    }
  }

  /** Sort and deduplicate. */
  method SortNodes(nodes: seq<ENode>) returns (sorted: seq<ENode>)
    ensures Sorted(sorted)
    ensures forall node :: node in sorted <==> node in nodes
  {
    sorted := [];
    for i := 0 to |nodes|
      invariant Sorted(sorted)
      invariant forall node :: node in sorted <==> node in nodes[..i]
    {
      var node := nodes[i];
      var at := 0;
      while at < |sorted| && NodeLess(sorted[at], node)
        invariant 0 <= at <= |sorted|
        invariant forall k | 0 <= k < at :: NodeLess(sorted[k], node)
      {
        at := at + 1;
      }
      assert nodes[..i + 1] == nodes[..i] + [node];
      if at == |sorted| || sorted[at] != node {
        InsertKeepsSorted(sorted, at, node);
        ghost var before := sorted;
        sorted := sorted[..at] + [node] + sorted[at..];
        assert before == before[..at] + before[at..];
      } else {
        assert node in sorted;
      }
    }
  }

  /** Sort and deduplicate ids. */
  method SortIds(ids: seq<Id>) returns (sorted: seq<Id>)
    ensures forall i, j | 0 <= i < j < |sorted| :: sorted[i] < sorted[j]
    ensures forall id :: id in sorted <==> id in ids
  {
    sorted := [];
    for i := 0 to |ids|
      invariant forall j, k | 0 <= j < k < |sorted| :: sorted[j] < sorted[k]
      invariant forall id :: id in sorted <==> id in ids[..i]
    {
      var at := 0;
      while at < |sorted| && sorted[at] < ids[i]
        invariant 0 <= at <= |sorted|
        invariant forall k | 0 <= k < at :: sorted[k] < ids[i]
      {
        at := at + 1;
      }
      assert ids[..i + 1] == ids[..i] + [ids[i]];
      if at == |sorted| || sorted[at] != ids[i] {
        ghost var before := sorted;
        sorted := sorted[..at] + [ids[i]] + sorted[at..];
        assert before == before[..at] + before[at..];
      } else {
        assert ids[i] in sorted;
      }
    }
  }
}
