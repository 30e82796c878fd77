/** Rebuilding the derived indices of an e-graph from its classes. */
module Reindexing {
  import opened Options
  import opened Lang
  import opened Graphs
  import opened NodeOrders

  /** A parent to be listed by the class of `child`. */
  datatype Link = Link(child: Id, parent: Parent)

  /** The operator index lists, in order, the classes holding each operator. */
  ghost predicate OpIndexed(byOp: map<Op, seq<Id>>, classes: seq<Option<EClass>>) {
    && Ascending(byOp)
    && (forall op, c: Id :: Listed(byOp, op, c) <==> HasOp(classes, c, op))
  }

  predicate HasOp(classes: seq<Option<EClass>>, c: Id, op: Op) {
    c < |classes| && classes[c].Some? && exists node :: node in classes[c].value.nodes && node.op == op
  }

  predicate Listed(byOp: map<Op, seq<Id>>, op: Op, c: Id) {
    op in byOp && c in byOp[op]
  }

  ghost predicate Ascending(byOp: map<Op, seq<Id>>) {
    forall op | op in byOp :: Rising(byOp[op])
  }

  predicate Rising(ids: seq<Id>) {
    forall i, j | 0 <= i < j < |ids| :: ids[i] < ids[j]
  }

  /** The graph satisfies every condition `check_invariants` tests. */
  ghost predicate Rebuilt(g: Graph, pending: seq<Id>, byOp: map<Op, seq<Id>>) {
    && pending == []
    && Indexed(g)
    && AllSorted(g.classes)
    && OpIndexed(byOp, g.classes)
  }

  ghost predicate AllSorted(classes: seq<Option<EClass>>) {
    forall c | 0 <= c < |classes| && classes[c].Some? :: Sorted(classes[c].value.nodes)
  }

  // ----- indexing one class after another -----

  /** The hashcons files exactly the nodes of the first `done` classes and the
      first `j` nodes of the next. */
  ghost predicate FiledUpTo(memo: map<ENode, Id>, classes: seq<Option<EClass>>, done: Id, j: nat)
    requires done <= |classes|
  {
    && (forall m | m in memo :: InPrefix(classes, done, j, memo[m], m))
    && (forall c: Id, m | InPrefix(classes, done, j, c, m) :: m in memo && memo[m] == c)
  }

  /** Class `c` is among the first `done`, or is next and `m` among its first `j`. */
  predicate InPrefix(classes: seq<Option<EClass>>, done: Id, j: nat, c: Id, m: ENode) {
    && c < |classes| && classes[c].Some?
    && (|| (c < done && m in classes[c].value.nodes)
        || (c == done && j <= |classes[c].value.nodes| && m in classes[c].value.nodes[..j]))
  }

  ghost predicate OpsUpTo(byOp: map<Op, seq<Id>>, classes: seq<Option<EClass>>, done: Id, j: nat) {
    && Ascending(byOp)
    && (forall op, c: Id :: Listed(byOp, op, c) <==> OpInPrefix(classes, done, j, c, op))
  }

  predicate OpInPrefix(classes: seq<Option<EClass>>, done: Id, j: nat, c: Id, op: Op) {
    && c < |classes| && classes[c].Some?
    && (|| (c < done && HasOp(classes, c, op))
        || (c == done && j <= |classes[c].value.nodes| && exists i | 0 <= i < j :: classes[c].value.nodes[i].op == op))
  }

  /** No node is in two classes. */
  ghost predicate Once(classes: seq<Option<EClass>>) {
    forall c, d, m | 0 <= c < |classes| && 0 <= d < |classes| && classes[c].Some? && classes[d].Some?
                     && m in classes[c].value.nodes && m in classes[d].value.nodes :: c == d
  }

  function PushOp(byOp: map<Op, seq<Id>>, op: Op, id: Id): map<Op, seq<Id>> {
    byOp[op := (if op in byOp then byOp[op] else []) + [id]]
  }

  /** In a sorted list, an operator met again after another never returns. */
  lemma OpsComeInRuns(nodes: seq<ENode>, i: nat, j: nat)
    requires Sorted(nodes) && i < j < |nodes| && nodes[j].op != nodes[j - 1].op
    ensures nodes[i].op != nodes[j].op
  {
    assert NodeLess(nodes[j - 1], nodes[j]);
    if i < j - 1 {
      assert NodeLess(nodes[i], nodes[j - 1]);
    }
  }

  lemma FileOne(memo: map<ENode, Id>, classes: seq<Option<EClass>>, id: Id, j: nat)
    requires id < |classes| && classes[id].Some? && Once(classes)
    requires j < |classes[id].value.nodes| && FiledUpTo(memo, classes, id, j)
    ensures FiledUpTo(memo[classes[id].value.nodes[j] := id], classes, id, j + 1)
  {
    var nodes := classes[id].value.nodes;
    var node := nodes[j];
    var after := memo[node := id];
    var k := j + 1;
    assert nodes[..k] == nodes[..j] + [node];
    forall m | m in after
      ensures InPrefix(classes, id, k, after[m], m)
    {
      if m != node {
        assert InPrefix(classes, id, j, memo[m], m);
      }
    }
    forall c: Id, m | InPrefix(classes, id, k, c, m)
      ensures m in after && after[m] == c
    {
      if m != node {
        assert InPrefix(classes, id, j, c, m);
      }
    }
  }

  lemma OpOne(byOp: map<Op, seq<Id>>, classes: seq<Option<EClass>>, id: Id, j: nat)
    requires id < |classes| && classes[id].Some?
    requires j < |classes[id].value.nodes| && Sorted(classes[id].value.nodes) && OpsUpTo(byOp, classes, id, j)
    ensures j > 0 && classes[id].value.nodes[j].op == classes[id].value.nodes[j - 1].op ==>
              OpsUpTo(byOp, classes, id, j + 1)
    ensures j == 0 || classes[id].value.nodes[j].op != classes[id].value.nodes[j - 1].op ==>
              OpsUpTo(PushOp(byOp, classes[id].value.nodes[j].op, id), classes, id, j + 1)
  {
    var nodes := classes[id].value.nodes;
    forall op, c: Id
      ensures OpInPrefix(classes, id, j + 1, c, op) <==>
                OpInPrefix(classes, id, j, c, op) || (c == id && op == nodes[j].op)
    {
    }
    if j > 0 && nodes[j].op == nodes[j - 1].op {
      assert OpInPrefix(classes, id, j, id, nodes[j].op);
    } else {
      PushOpKeeps(byOp, classes, id, j);
    }
  }

  lemma PushOpKeeps(byOp: map<Op, seq<Id>>, classes: seq<Option<EClass>>, id: Id, j: nat)
    requires id < |classes| && classes[id].Some?
    requires j < |classes[id].value.nodes| && Sorted(classes[id].value.nodes) && OpsUpTo(byOp, classes, id, j)
    requires j == 0 || classes[id].value.nodes[j].op != classes[id].value.nodes[j - 1].op
    ensures OpsUpTo(PushOp(byOp, classes[id].value.nodes[j].op, id), classes, id, j + 1)
  {
    var nodes := classes[id].value.nodes;
    var op := nodes[j].op;
    var after := PushOp(byOp, op, id);
    forall c: Id | Listed(byOp, op, c)
      ensures c < id
    {
      assert OpInPrefix(classes, id, j, c, op);
      if c == id {
        var i :| 0 <= i < j && nodes[i].op == op;
        OpsComeInRuns(nodes, i, j);
      }
    }
    if op in byOp {
      forall i | 0 <= i < |byOp[op]|
        ensures byOp[op][i] < id
      {
        assert Listed(byOp, op, byOp[op][i]);
      }
      assert Rising(byOp[op]);
    }
    assert Rising(after[op]);
    forall o, c: Id
      ensures Listed(after, o, c) <==> OpInPrefix(classes, id, j + 1, c, o)
    {
      assert Listed(after, o, c) <==> Listed(byOp, o, c) || (c == id && o == op);
      assert Listed(byOp, o, c) <==> OpInPrefix(classes, id, j, c, o);
    }
  }

  lemma NextClass(memo: map<ENode, Id>, byOp: map<Op, seq<Id>>, classes: seq<Option<EClass>>, id: Id)
    requires id < |classes|
    requires classes[id].Some? ==> FiledUpTo(memo, classes, id, |classes[id].value.nodes|)
                                   && OpsUpTo(byOp, classes, id, |classes[id].value.nodes|)
    requires classes[id].None? ==> FiledUpTo(memo, classes, id, 0) && OpsUpTo(byOp, classes, id, 0)
    ensures FiledUpTo(memo, classes, id + 1, 0) && OpsUpTo(byOp, classes, id + 1, 0)
  {
    var j := if classes[id].Some? then |classes[id].value.nodes| else 0;
    var next := id + 1;
    forall c: Id, m
      ensures InPrefix(classes, next, 0, c, m) <==> InPrefix(classes, id, j, c, m)
    {
      if c == id && classes[id].Some? {
        assert classes[id].value.nodes[..j] == classes[id].value.nodes;
      }
    }
    forall c: Id, op
      ensures OpInPrefix(classes, next, 0, c, op) <==> OpInPrefix(classes, id, j, c, op)
    {
      if c == id && HasOp(classes, c, op) {
        var node :| node in classes[c].value.nodes && node.op == op;
        var i :| 0 <= i < j && classes[c].value.nodes[i] == node;
        assert classes[id].value.nodes[i].op == op;
      }
    }
  }

  /** Index the nodes of one class. */
  method IndexClass(classes: seq<Option<EClass>>, id: Id, memo0: map<ENode, Id>, byOp0: map<Op, seq<Id>>)
    returns (memo: map<ENode, Id>, byOp: map<Op, seq<Id>>)
    requires id < |classes| && classes[id].Some? && Once(classes) && Sorted(classes[id].value.nodes)
    requires FiledUpTo(memo0, classes, id, 0) && OpsUpTo(byOp0, classes, id, 0)
    ensures FiledUpTo(memo, classes, id + 1, 0) && OpsUpTo(byOp, classes, id + 1, 0)
  {
    memo, byOp := memo0, byOp0;
    var nodes := classes[id].value.nodes;
    var lastOp: Option<Op> := None;
    for j := 0 to |nodes|
      invariant FiledUpTo(memo, classes, id, j) && OpsUpTo(byOp, classes, id, j)
      invariant lastOp == if j == 0 then None else Some(nodes[j - 1].op)
    {
      var n := nodes[j];
      OpOne(byOp, classes, id, j);
      if lastOp != Some(n.op) {
        lastOp := Some(n.op);
        byOp := PushOp(byOp, n.op, id);
      }
      FileOne(memo, classes, id, j);
      memo := memo[n := id];
    }
    NextClass(memo, byOp, classes, id);
  }

  /** The hashcons and the operator index, from scratch. */
  method IndexClasses(classes: seq<Option<EClass>>) returns (memo: map<ENode, Id>, byOp: map<Op, seq<Id>>)
    requires Once(classes) && AllSorted(classes)
    ensures FiledUpTo(memo, classes, |classes|, 0) && OpIndexed(byOp, classes)
  {
    memo, byOp := map[], map[];
    for id := 0 to |classes|
      invariant FiledUpTo(memo, classes, id, 0) && OpsUpTo(byOp, classes, id, 0)
    {
      if classes[id].Some? {
        memo, byOp := IndexClass(classes, id, memo, byOp);
      } else {
        NextClass(memo, byOp, classes, id);
      }
    }
    assert forall c: Id, op :: OpInPrefix(classes, |classes|, 0, c, op) <==> HasOp(classes, c, op);
  }

  // ----- parent lists -----

  /** The class at `i` has gained exactly the first `done` links to it. */
  ghost predicate LinkedAt(before: Option<EClass>, after: Option<EClass>, links: seq<Link>, done: nat, i: Id)
    requires done <= |links|
  {
    && before.Some? == after.Some?
    && (before.Some? ==>
          && after.value == before.value.(parents := after.value.parents)
          && (forall e :: e in after.value.parents <==> e in before.value.parents || Link(i, e) in links[..done]))
  }

  ghost predicate AllLinked(before: seq<Option<EClass>>, after: seq<Option<EClass>>, links: seq<Link>) {
    && |after| == |before|
    && (forall i | 0 <= i < |before| :: LinkedAt(before[i], after[i], links, |links|, i))
  }

  /** Append every linked parent to the list of its class. */
  method LinkParents(classes0: seq<Option<EClass>>, links: seq<Link>) returns (classes: seq<Option<EClass>>)
    requires forall l | l in links :: l.child < |classes0| && classes0[l.child].Some?
    ensures AllLinked(classes0, classes, links)
  {
    classes := classes0;
    for k := 0 to |links|
      invariant |classes| == |classes0|
      invariant forall i | 0 <= i < |classes0| :: LinkedAt(classes0[i], classes[i], links, k, i)
    {
      var l := links[k];
      assert l in links;
      assert LinkedAt(classes0[l.child], classes[l.child], links, k, l.child);
      ghost var before := classes;
      classes := classes[
        l.child := Some(classes[l.child].value.(parents := classes[l.child].value.parents + [l.parent]))];
      assert links[..k + 1] == links[..k] + [l];
      forall i | 0 <= i < |classes0|
        ensures LinkedAt(classes0[i], classes[i], links, k + 1, i)
      {
        assert LinkedAt(classes0[i], before[i], links, k, i);
      }
    }
  }
}
