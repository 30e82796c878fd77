/** How many constants and how many slots a term takes: what decides whether it
    fits the sixteen-bit indices of the machine. */
module Pressures {
  import opened Lang
  import opened Expressions
  import opened Machines

  /** A reachable node whose value is computed when the program runs. */
  predicate IsReader(arith: Arithmetic, nodes: seq<ENode>, root: Id, y: Id)
    requires Topological(nodes) && root < |nodes|
  {
    y in Reach(nodes, root) && y < |nodes| && Fold(arith, nodes, y).None?
  }

  /** Such a node reads this one. */
  ghost predicate IsOperand(arith: Arithmetic, nodes: seq<ENode>, root: Id, x: Id)
    requires Topological(nodes) && root < |nodes|
  {
    exists y: Id :: IsReader(arith, nodes, root, y) && x in nodes[y].children
  }

  /** The node takes an instruction: it is the root, or computed, or read by one
      that is. */
  ghost predicate IsKept(arith: Arithmetic, nodes: seq<ENode>, root: Id, x: Id)
    requires Topological(nodes) && root < |nodes|
  {
    && x in Reach(nodes, root) && x < |nodes|
    && (x == root || Fold(arith, nodes, x).None? || IsOperand(arith, nodes, root, x))
  }

  /** Computed before `e`, and read by it or later. */
  ghost predicate IsAwaited(arith: Arithmetic, nodes: seq<ENode>, root: Id, e: Id, x: Id)
    requires Topological(nodes) && root < |nodes|
  {
    && IsKept(arith, nodes, root, x) && x < e
    && exists y: Id :: IsReader(arith, nodes, root, y) && e <= y && x in nodes[y].children
  }

  /** The values that must be held while `e` is computed. */
  ghost function Awaited(arith: Arithmetic, nodes: seq<ENode>, root: Id, e: Id): set<Id>
    requires Topological(nodes) && root < |nodes|
  {
    set x | x in Reach(nodes, root) && IsAwaited(arith, nodes, root, e, x)
  }

  /** The constants a program for the term loads. */
  ghost function Literals(arith: Arithmetic, nodes: seq<ENode>, root: Id): set<Double>
    requires Topological(nodes) && root < |nodes|
  {
    set x | x in Reach(nodes, root) && IsKept(arith, nodes, root, x) && Fold(arith, nodes, x).Some? ::
      Fold(arith, nodes, x).value
  }

  /** Some value finds every slot awaited. */
  ghost predicate Crowded(arith: Arithmetic, nodes: seq<ENode>, root: Id)
    requires Topological(nodes) && root < |nodes|
  {
    exists e: Id :: IsKept(arith, nodes, root, e) && |Awaited(arith, nodes, root, e)| >= U16_RANGE
  }

  /** The term needs more constants or more slots than there are indices. */
  ghost predicate IsTooLarge(arith: Arithmetic, nodes: seq<ENode>, root: Id)
    requires Topological(nodes) && root < |nodes|
  {
    |Literals(arith, nodes, root)| > U16_RANGE || Crowded(arith, nodes, root)
  }

  /** Everything reachable but the root is a child of something reachable. */
  lemma ReachedIsRead(nodes: seq<ENode>, root: Id, x: Id) returns (y: Id)
    requires Topological(nodes) && root < |nodes| && x in Reach(nodes, root) && x != root
    ensures y in Reach(nodes, root) && y < |nodes| && x in nodes[y].children
  {
    ReachIsBelow(nodes, root);
    if forall y | y in Reach(nodes, root) && y < |nodes| :: x !in nodes[y].children {
      ReachIsClosed(nodes, root);
      ReachIsLeast(nodes, root, Reach(nodes, root) - {x});
      assert false;
    }
    y :| y in Reach(nodes, root) && y < |nodes| && x in nodes[y].children;
  }

  /** Whatever takes an instruction is read, but for the root. */
  lemma KeptIsRead(arith: Arithmetic, nodes: seq<ENode>, root: Id, x: Id)
    requires Topological(nodes) && root < |nodes| && IsKept(arith, nodes, root, x) && x != root
    ensures IsOperand(arith, nodes, root, x)
  {
    hide Reach;
    if Fold(arith, nodes, x).None? {
      var y := ReachedIsRead(nodes, root, x);
      var k :| 0 <= k < |nodes[y].children| && nodes[y].children[k] == x;
      assert Folds(arith, nodes, y, |nodes[y].children|).None?;
      assert IsReader(arith, nodes, root, y);
    }
  }
}
