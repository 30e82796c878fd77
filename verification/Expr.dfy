/** Flat expression DAGs, what they reach, and the reference interpreter. */
module Expressions {
  import opened Options
  import opened Lang

  datatype EvalError = Unbound(s: Sym) | UnreducedDiff | ProgramTooLarge
  datatype Result<+T> = Ok(value: T) | Err(error: EvalError)

  type Env = map<Sym, Double>

  /** Neither zero nor NaN. */
  predicate Truthy(x: Double) {
    x != POSITIVE_ZERO && x != NEGATIVE_ZERO && x != NOT_A_NUMBER
  }

  /** The arithmetic of the operators that compute something. */
  type Arithmetic = (Op, seq<Double>) -> Double

  /** One operator on evaluated children; `None` when it has no value. */
  function OpEval(arith: Arithmetic, op: Op, args: seq<Double>): Option<Double> {
    if |args| != op.Arity() || op.Var? || op.Diff? then None
    else if op.Const? then Some(op.c)
    else if op.If? then Some(if Truthy(args[0]) then args[1] else args[2])
    else Some(arith(op, args))
  }

  /** Children precede their parents. */
  predicate Ordered(nodes: seq<ENode>) {
    forall i | 0 <= i < |nodes| :: Below(nodes[i], i)
  }

  /** Children precede their parents, and operators get their arity. */
  predicate Topological(nodes: seq<ENode>) {
    && Ordered(nodes)
    && (forall i | 0 <= i < |nodes| :: |nodes[i].children| == nodes[i].op.Arity())
  }

  // ----- reachability -----

  /** The first `n` ids. */
  function Ids(n: nat): (s: set<Id>)
    ensures forall x: int :: x in s <==> 0 <= x < n
  {
    if n == 0 then {} else Ids(n - 1) + {n - 1}
  }

  /** The nodes a term rooted at `id` is made of. */
  function Reach(nodes: seq<ENode>, id: Id): set<Id>
    requires Ordered(nodes) && id < |nodes|
    decreases id, 1, 0
  {
    {id} + ReachChildren(nodes, id, |nodes[id].children|)
  }

  function ReachChildren(nodes: seq<ENode>, id: Id, k: nat): set<Id>
    requires Ordered(nodes) && id < |nodes| && k <= |nodes[id].children|
    decreases id, 0, k
  {
    if k == 0 then {} else ReachChildren(nodes, id, k - 1) + Reach(nodes, nodes[id].children[k - 1])
  }

  /** A set that holds the children of its members. */
  predicate ClosedUnder(nodes: seq<ENode>, s: set<Id>) {
    forall x, k | x in s && x < |nodes| && 0 <= k < |nodes[x].children| :: nodes[x].children[k] in s
  }

  lemma {:induction false} ReachIsLeast(nodes: seq<ENode>, id: Id, s: set<Id>)
    requires Ordered(nodes) && id < |nodes| && id in s && ClosedUnder(nodes, s)
    ensures Reach(nodes, id) <= s
    decreases id, 1, 0
  {
    ReachChildrenLeast(nodes, id, |nodes[id].children|, s);
  }

  lemma {:induction false} ReachChildrenLeast(nodes: seq<ENode>, id: Id, k: nat, s: set<Id>)
    requires Ordered(nodes) && id < |nodes| && id in s && ClosedUnder(nodes, s) && k <= |nodes[id].children|
    ensures ReachChildren(nodes, id, k) <= s
    decreases id, 0, k
  {
    if k > 0 {
      ReachChildrenLeast(nodes, id, k - 1, s);
      ReachIsLeast(nodes, nodes[id].children[k - 1], s);
    }
  }

  lemma {:induction false} ReachIsBelow(nodes: seq<ENode>, id: Id)
    requires Ordered(nodes) && id < |nodes|
    ensures id in Reach(nodes, id) && (forall x | x in Reach(nodes, id) :: x <= id)
    decreases id
  {
    ReachIsLeast(nodes, id, Ids(id + 1));
  }

  lemma {:induction false} ReachHasChildren(nodes: seq<ENode>, id: Id, k: nat, j: nat)
    requires Ordered(nodes) && id < |nodes| && j < k <= |nodes[id].children|
    ensures Reach(nodes, nodes[id].children[j]) <= ReachChildren(nodes, id, k)
    decreases k
  {
    if j < k - 1 {
      ReachHasChildren(nodes, id, k - 1, j);
    }
  }

  lemma {:induction false} ReachIsClosed(nodes: seq<ENode>, id: Id)
    requires Ordered(nodes) && id < |nodes|
    ensures ClosedUnder(nodes, Reach(nodes, id))
    decreases id, 1, 0
  {
    forall x, k | x in Reach(nodes, id) && x < |nodes| && 0 <= k < |nodes[x].children|
      ensures nodes[x].children[k] in Reach(nodes, id)
    {
      if x == id {
        ReachHasChildren(nodes, id, |nodes[id].children|, k);
        ReachIsBelow(nodes, nodes[id].children[k]);
      } else {
        ReachChildrenClosed(nodes, id, |nodes[id].children|);
      }
    }
  }

  lemma {:induction false} ReachChildrenClosed(nodes: seq<ENode>, id: Id, k: nat)
    requires Ordered(nodes) && id < |nodes| && k <= |nodes[id].children|
    ensures ClosedUnder(nodes, ReachChildren(nodes, id, k))
    decreases id, 0, k
  {
    if k > 0 {
      ReachChildrenClosed(nodes, id, k - 1);
      ReachIsClosed(nodes, nodes[id].children[k - 1]);
    }
  }

  /** Ids reachable from `id`, ascending. */
  method Reachable(nodes: seq<ENode>, id: Id) returns (order: seq<Id>)
    requires Ordered(nodes) && id < |nodes|
    ensures forall i, j | 0 <= i < j < |order| :: order[i] < order[j]
    ensures forall x :: x in order <==> x in Reach(nodes, id)
    ensures order != [] && order[|order| - 1] == id
  {
    var seen: set<Id>, stack := {}, [id];
    ReachIsBelow(nodes, id);
    ReachIsClosed(nodes, id);
    ghost var all := Ids(|nodes|);
    while stack != []
      invariant id in seen || id in stack
      invariant seen <= Reach(nodes, id) <= all && (forall x | x in stack :: x in Reach(nodes, id))
      invariant forall x, k | x in seen && x < |nodes| && 0 <= k < |nodes[x].children| ::
                  nodes[x].children[k] in seen || nodes[x].children[k] in stack
      decreases all - seen, |stack|
    {
      var x := stack[|stack| - 1];
      assert x in stack;
      ghost var before := stack;
      stack := stack[..|stack| - 1];
      assert before == stack + [x];
      if x !in seen {
        seen := seen + {x};
        stack := stack + nodes[x].children;
      }
    }
    ReachIsLeast(nodes, id, seen);
    order := [];
    for i := 0 to |nodes|
      invariant forall j, k | 0 <= j < k < |order| :: order[j] < order[k]
      invariant forall x :: x in order <==> x in seen && x < i
      invariant forall j | 0 <= j < |order| :: order[j] < i
    {
      if i in seen {
        order := order + [i];
      }
    }
    assert id in order;
    var j :| 0 <= j < |order| && order[j] == id;
    assert order[|order| - 1] in order;
  }

  // ----- values -----

  /** The value of the term rooted at `id`, if every variable it reads is bound
      and no derivative is left in it. */
  function Val(arith: Arithmetic, nodes: seq<ENode>, env: Env, id: Id): Option<Double>
    requires Topological(nodes) && id < |nodes|
    decreases id, 1, 0
  {
    var op := nodes[id].op;
    if op.Const? then Some(op.c)
    else if op.Var? then if op.s in env then Some(env[op.s]) else None
    else if op.Diff? then None
    else
      var args := Vals(arith, nodes, env, id, |nodes[id].children|);
      if args.Some? then OpEval(arith, op, args.value) else None
  }

  /** The values of the first `k` children, if all have one. */
  function Vals(arith: Arithmetic, nodes: seq<ENode>, env: Env, id: Id, k: nat): (args: Option<seq<Double>>)
    requires Topological(nodes) && id < |nodes| && k <= |nodes[id].children|
    ensures args.Some? ==> |args.value| == k
    ensures args.Some? <==> forall j | 0 <= j < k :: Val(arith, nodes, env, nodes[id].children[j]).Some?
    ensures args.Some? ==>
              forall j | 0 <= j < k :: Val(arith, nodes, env, nodes[id].children[j]) == Some(args.value[j])
    decreases id, 0, k
  {
    if k == 0 then Some([])
    else
      var init := Vals(arith, nodes, env, id, k - 1);
      var last := Val(arith, nodes, env, nodes[id].children[k - 1]);
      if init.Some? && last.Some? then Some(init.value + [last.value]) else None
  }

  /** Evaluate the node `root`, every reachable node once. */
  method EvalAt(arith: Arithmetic, nodes: seq<ENode>, root: Id, env: Env) returns (r: Result<Double>)
    requires Topological(nodes) && root < |nodes|
    ensures r.Ok? <==> Val(arith, nodes, env, root).Some?
    ensures r.Ok? ==> Val(arith, nodes, env, root) == Some(r.value)
    ensures r.Err? ==> exists x :: x in Reach(nodes, root) && x < |nodes| && Faulty(nodes[x], env, r.error)
  {
    hide Val, Reach;
    var order := Reachable(nodes, root);
    ReachIsBelow(nodes, root);
    var vals: map<Id, Double> := map[];
    for i := 0 to |order|
      invariant forall x :: x in vals <==> x in order[..i]
      invariant Evaluated(arith, nodes, env, vals)
    {
      var id := order[i];
      assert id in order && id in Reach(nodes, root);
      forall k | 0 <= k < |nodes[id].children|
        ensures nodes[id].children[k] in vals
      {
        ChildComesBefore(nodes, root, order, i, k);
      }
      var v := EvalNode(arith, nodes, env, id, vals);
      if v.Err? {
        ValFails(arith, nodes, env, root, id);
        return Err(v.error);
      }
      assert order[..i + 1] == order[..i] + [id];
      vals := vals[id := v.value];
    }
    assert order[..|order|] == order;
    assert order[|order| - 1] in order;
    r := Ok(vals[root]);
  }

  ghost predicate Evaluated(arith: Arithmetic, nodes: seq<ENode>, env: Env, vals: map<Id, Double>)
    requires Topological(nodes)
  {
    forall x | x in vals :: x < |nodes| && Val(arith, nodes, env, x) == Some(vals[x])
  }

  /** One node, its children evaluated. */
  method EvalNode(arith: Arithmetic, nodes: seq<ENode>, env: Env, id: Id, vals: map<Id, Double>)
    returns (r: Result<Double>)
    requires Topological(nodes) && id < |nodes| && Evaluated(arith, nodes, env, vals)
    requires forall k | 0 <= k < |nodes[id].children| :: nodes[id].children[k] in vals
    ensures r.Ok? ==> Val(arith, nodes, env, id) == Some(r.value)
    ensures r.Err? ==> Val(arith, nodes, env, id) == None && Faulty(nodes[id], env, r.error)
  {
    var n := nodes[id];
    if n.op.Const? {
      return Ok(n.op.c);
    }
    if n.op.Var? {
      return if n.op.s in env then Ok(env[n.op.s]) else Err(Unbound(n.op.s));
    }
    if n.op.Diff? {
      return Err(UnreducedDiff);
    }
    var args := [];
    for k := 0 to |n.children|
      invariant |args| == k && forall j | 0 <= j < k :: args[j] == vals[n.children[j]]
    {
      args := args + [vals[n.children[k]]];
    }
    forall j | 0 <= j < |n.children|
      ensures Val(arith, nodes, env, n.children[j]) == Some(args[j])
    {
      assert n.children[j] in vals;
    }
    assert Vals(arith, nodes, env, id, |n.children|).value == args;
    r := Ok(OpEval(arith, n.op, args).value);
  }

  /** The node by itself has no value. */
  predicate Faulty(n: ENode, env: Env, e: EvalError) {
    (n.op.Diff? && e == UnreducedDiff) || (n.op.Var? && n.op.s !in env && e == Unbound(n.op.s))
  }

  /** In an ascending closed list, a child is listed before its parent. */
  lemma ChildComesBefore(nodes: seq<ENode>, root: Id, order: seq<Id>, i: nat, k: nat)
    requires Ordered(nodes) && root < |nodes| && i < |order| && order[i] < |nodes|
    requires forall a, b | 0 <= a < b < |order| :: order[a] < order[b]
    requires forall x :: x in order <==> x in Reach(nodes, root)
    requires k < |nodes[order[i]].children|
    ensures nodes[order[i]].children[k] in order[..i]
  {
    ReachIsClosed(nodes, root);
    var c := nodes[order[i]].children[k];
    assert order[i] in order;
    assert c in order;
    var j :| 0 <= j < |order| && order[j] == c;
    assert j < i;
    assert order[..i][j] == c;
  }

  /** A term with a faulty part has no value. */
  lemma {:induction false} ValFails(arith: Arithmetic, nodes: seq<ENode>, env: Env, id: Id, x: Id)
    requires Topological(nodes) && id < |nodes| && x < |nodes| && x in Reach(nodes, id)
    requires Val(arith, nodes, env, x).None?
    ensures Val(arith, nodes, env, id).None?
    decreases id
  {
    if x != id {
      var k := ReachedThrough(nodes, id, |nodes[id].children|, x);
      ValFails(arith, nodes, env, nodes[id].children[k], x);
    }
  }

  lemma {:induction false} ReachedThrough(nodes: seq<ENode>, id: Id, k: nat, x: Id) returns (j: nat)
    requires Ordered(nodes) && id < |nodes| && k <= |nodes[id].children| && x in ReachChildren(nodes, id, k)
    ensures j < k && x in Reach(nodes, nodes[id].children[j])
    decreases k
  {
    if x in Reach(nodes, nodes[id].children[k - 1]) {
      j := k - 1;
    } else {
      j := ReachedThrough(nodes, id, k - 1, x);
    }
  }
}
