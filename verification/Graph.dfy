/** The e-graph as a value: what every operation keeps while the graph is dirty,
    and what a rebuilt graph satisfies. */
module Graphs {
  import opened Options
  import opened Lang
  import opened UnionFinds
  import Intervals

  /** What an analysis knows about the value a class denotes. */
  datatype Fact = Fact(constant: Option<Double>, range: Intervals.Interval)

  /** A node elsewhere that refers to a class, and the class holding it. */
  datatype Parent = Parent(node: ENode, owner: Id)

  datatype EClass = EClass(id: Id, nodes: seq<ENode>, data: Fact, parents: seq<Parent>)

  /** A snapshot: the partition, the classes, the hashcons. While a class is
      under repair, `held` is the parent list taken from the class of `at`. */
  datatype Graph = Graph(
    root: seq<Id>, classes: seq<Option<EClass>>, memo: map<ENode, Id>, at: Id, held: seq<Parent>)

  // ----- shape -----

  predicate GoodClass(c: EClass, i: Id, n: nat) {
    && c.id == i
    && c.nodes != []
    && (forall node | node in c.nodes :: Below(node, n))
    && (forall e | e in c.parents :: Below(e.node, n) && e.owner < n)
  }

  /** Representatives are their own representatives, and own a class. */
  predicate Slot(g: Graph, i: Id)
    requires |g.root| == |g.classes| && i < |g.root|
  {
    && g.root[i] < |g.root| && g.root[g.root[i]] == g.root[i]
    && (g.classes[i].Some? <==> g.root[i] == i)
    && (g.classes[i].Some? ==> GoodClass(g.classes[i].value, i, |g.root|))
  }

  predicate WellFormed(g: Graph) {
    && |g.root| == |g.classes|
    && (forall i | 0 <= i < |g.root| :: Slot(g, i))
    && (forall m | m in g.memo :: Below(m, |g.root|) && g.memo[m] < |g.root|)
    && (forall e | e in g.held :: Below(e.node, |g.root|) && e.owner < |g.root|)
    && (g.held != [] ==> g.at < |g.root|)
  }

  /** Class `c` contains `node`. */
  predicate Has(g: Graph, c: Id, node: ENode) {
    c < |g.classes| && g.classes[c].Some? && node in g.classes[c].value.nodes
  }

  /** Class `x` lists the parent `e`, or it is under repair and its list did. */
  predicate HasParent(g: Graph, x: Id, e: Parent) {
    || (x < |g.classes| && g.classes[x].Some? && e in g.classes[x].value.parents)
    || (e in g.held && g.at < |g.root| && x == g.root[g.at])
  }

  // ----- the invariant of a dirty graph -----

  /** Class `c` contains a node with canonical form `m`. */
  ghost predicate Owns(g: Graph, c: Id, m: ENode) {
    exists node :: Has(g, c, node) && Below(node, |g.root|) && Canon(g.root, node) == m
  }

  /** Class `x` lists a parent with canonical form `m` held by class `c`. */
  ghost predicate Lists(g: Graph, x: Id, c: Id, m: ENode) {
    exists e :: HasParent(g, x, e) && Below(e.node, |g.root|) && e.owner < |g.root|
                && Canon(g.root, e.node) == m && g.root[e.owner] == c
  }

  /** Every node is listed, up to canonical form, by the class of each child. */
  ghost predicate Covered(g: Graph)
    requires WellFormed(g)
  {
    forall c: Id, node, x: Id ::
      Has(g, c, node) && Below(node, |g.root|) && Mentions(g.root, node, x)
      ==> Lists(g, x, c, Canon(g.root, node))
  }

  /** Every listed parent is real: it mentions the class, and its owner
      contains a node congruent to it. */
  ghost predicate ParentsReal(g: Graph)
    requires WellFormed(g)
  {
    forall x: Id, e ::
      HasParent(g, x, e) && Below(e.node, |g.root|) && e.owner < |g.root|
      ==> Mentions(g.root, e.node, x) && Owns(g, g.root[e.owner], Canon(g.root, e.node))
  }

  /** The node mentions the class of a pending id. */
  ghost predicate Dirty(root: seq<Id>, node: ENode, pending: set<Id>)
    requires Below(node, |root|)
  {
    exists w :: w in pending && w < |root| && Mentions(root, node, root[w])
  }

  /** The hashcons sends `m` to class `c`. */
  predicate Filed(g: Graph, m: ENode, c: Id) {
    m in g.memo && g.memo[m] < |g.root| && g.root[g.memo[m]] == c
  }

  /** A node the hashcons does not find mentions a pending class. */
  ghost predicate Hashed(g: Graph, pending: set<Id>)
    requires WellFormed(g)
  {
    forall c: Id, node ::
      Has(g, c, node) && Below(node, |g.root|)
      ==> Dirty(g.root, node, pending) || Filed(g, Canon(g.root, node), c)
  }

  /** A key of the hashcons is congruent to a node of the class it names. */
  ghost predicate MemoReal(g: Graph)
    requires WellFormed(g)
  {
    forall m :: m in g.memo && Below(m, |g.root|) && g.memo[m] < |g.root|
      ==> Owns(g, g.root[g.memo[m]], Canon(g.root, m))
  }

  /** What holds between any two operations, `pending` being the classes whose
      parents may have lost congruence. */
  ghost predicate Dormant(g: Graph, pending: set<Id>) {
    && WellFormed(g)
    && Covered(g)
    && ParentsReal(g)
    && Hashed(g, pending)
    && MemoReal(g)
  }

  lemma HasIsBelow(g: Graph, c: Id, node: ENode)
    requires WellFormed(g) && Has(g, c, node)
    ensures c < |g.root| && g.root[c] == c && Below(node, |g.root|)
  {
    assert Slot(g, c);
  }

  lemma ParentIsBelow(g: Graph, x: Id, e: Parent)
    requires WellFormed(g) && HasParent(g, x, e)
    ensures x < |g.root| && g.root[x] == x && Below(e.node, |g.root|) && e.owner < |g.root|
  {
    if x < |g.classes| {
      assert Slot(g, x);
    }
    if g.at < |g.root| {
      assert Slot(g, g.at);
    }
  }

  lemma RootIsCoarser(g: Graph)
    requires WellFormed(g)
    ensures Coarsens(g.root, g.root)
  {
    forall i | 0 <= i < |g.root|
      ensures g.root[i] < |g.root| && g.root[g.root[i]] == g.root[i]
    {
      assert Slot(g, i);
    }
  }

  lemma CanonIsBelow(g: Graph, node: ENode)
    requires WellFormed(g) && Below(node, |g.root|)
    ensures Below(Canon(g.root, node), |g.root|) && Canon(g.root, Canon(g.root, node)) == Canon(g.root, node)
    ensures Canon(g.root, node) in g.memo ==> g.memo[Canon(g.root, node)] < |g.root|
  {
    RootIsCoarser(g);
    CanonOfCanon(g.root, g.root, node);
  }

  /** With nothing pending, congruent nodes share a class. */
  lemma DormantIsCongruent(g: Graph, a: ENode, b: ENode, ca: Id, cb: Id)
    requires Dormant(g, {}) && Has(g, ca, a) && Has(g, cb, b)
    requires Below(a, |g.root|) && Below(b, |g.root|) && Congruent(g.root, a, b)
    ensures ca == cb
  {
    CanonDecidesCongruence(g.root, a, b);
    assert !Dirty(g.root, a, {}) && !Dirty(g.root, b, {});
    assert Filed(g, Canon(g.root, a), ca) && Filed(g, Canon(g.root, b), cb);
  }

  // ----- joining two classes -----

  function JoinClasses(kept: EClass, absorbed: EClass, data: Fact): EClass {
    EClass(kept.id, kept.nodes + absorbed.nodes, data, kept.parents + absorbed.parents)
  }

  /** The graph after class `rb` is absorbed by class `ra`. */
  function Joined(g: Graph, ra: Id, rb: Id, data: Fact): Graph
    requires ra < |g.classes| && rb < |g.classes| && g.classes[ra].Some? && g.classes[rb].Some?
  {
    Graph(Merged(g.root, ra, rb),
          g.classes[rb := None][ra := Some(JoinClasses(g.classes[ra].value, g.classes[rb].value, data))],
          g.memo, g.at, g.held)
  }

  ghost predicate Joinable(g: Graph, ra: Id, rb: Id) {
    && WellFormed(g)
    && ra != rb && ra < |g.root| && rb < |g.root|
    && g.classes[ra].Some? && g.classes[rb].Some?
  }

  lemma JoinWellFormed(g: Graph, ra: Id, rb: Id, data: Fact)
    requires Joinable(g, ra, rb)
    ensures WellFormed(Joined(g, ra, rb, data))
    ensures Coarsens(Joined(g, ra, rb, data).root, g.root)
  {
    var j := Joined(g, ra, rb, data);
    assert Slot(g, ra) && Slot(g, rb);
    forall i | 0 <= i < |g.root|
      ensures Slot(j, i) && g.root[i] < |g.root| && j.root[g.root[i]] == j.root[i]
    {
      assert Slot(g, i);
    }
  }

  lemma MergedCoarsens(g: Graph, ra: Id, rb: Id)
    requires Joinable(g, ra, rb)
    ensures Coarsens(Merged(g.root, ra, rb), g.root)
  {
    JoinWellFormed(g, ra, rb, g.classes[ra].value.data);
  }

  /** Classes only change by the two becoming one. */
  lemma JoinHas(g: Graph, ra: Id, rb: Id, data: Fact, c: Id, node: ENode)
    requires Joinable(g, ra, rb) && WellFormed(Joined(g, ra, rb, data))
    ensures Has(g, c, node) ==> c < |g.root| && Has(Joined(g, ra, rb, data), Joined(g, ra, rb, data).root[c], node)
    ensures Has(Joined(g, ra, rb, data), c, node) ==>
              c < |g.root| && c != rb && (Has(g, c, node) || (c == ra && Has(g, rb, node)))
  {
    if c < |g.root| {
      assert Slot(g, c);
    }
  }

  lemma JoinHasParent(g: Graph, ra: Id, rb: Id, data: Fact, x: Id, e: Parent)
    requires Joinable(g, ra, rb) && WellFormed(Joined(g, ra, rb, data))
    ensures HasParent(g, x, e) ==>
              x < |g.root| && HasParent(Joined(g, ra, rb, data), Joined(g, ra, rb, data).root[x], e)
    ensures HasParent(Joined(g, ra, rb, data), x, e) ==>
              x < |g.root| && x != rb && (HasParent(g, x, e) || (x == ra && HasParent(g, rb, e)))
  {
    assert Slot(g, ra) && Slot(g, rb);
    if x < |g.root| {
      assert Slot(g, x);
    }
    if g.at < |g.root| {
      assert Slot(g, g.at);
    }
  }

  lemma JoinOwns(g: Graph, ra: Id, rb: Id, data: Fact, c: Id, m: ENode)
    requires Joinable(g, ra, rb) && WellFormed(Joined(g, ra, rb, data))
    requires Owns(g, c, m) && c < |g.root| && Below(m, |g.root|)
    ensures Owns(Joined(g, ra, rb, data), Joined(g, ra, rb, data).root[c], Canon(Joined(g, ra, rb, data).root, m))
  {
    var j := Joined(g, ra, rb, data);
    var node :| Has(g, c, node) && Below(node, |g.root|) && Canon(g.root, node) == m;
    JoinHas(g, ra, rb, data, c, node);
    JoinWellFormed(g, ra, rb, data);
    CanonOfCanon(j.root, g.root, node);
    assert Has(j, j.root[c], node);
  }

  /** A label of the joined partition comes from one of the old ones. */
  lemma JoinMentions(g: Graph, ra: Id, rb: Id, node: ENode, x: Id)
    requires Joinable(g, ra, rb) && Below(node, |g.root|)
    ensures Mentions(Merged(g.root, ra, rb), node, x) <==>
              x != rb && (Mentions(g.root, node, x) || (x == ra && Mentions(g.root, node, rb)))
  {
    var r := Merged(g.root, ra, rb);
    if Mentions(g.root, node, x) {
      var k :| 0 <= k < |node.children| && g.root[node.children[k]] == x;
      assert r[node.children[k]] == if x == rb then ra else x;
    }
    if Mentions(g.root, node, rb) {
      var k :| 0 <= k < |node.children| && g.root[node.children[k]] == rb;
      assert r[node.children[k]] == ra;
    }
  }

  lemma JoinCovered(g: Graph, ra: Id, rb: Id, data: Fact)
    requires Joinable(g, ra, rb) && Covered(g) && WellFormed(Joined(g, ra, rb, data))
    ensures Covered(Joined(g, ra, rb, data))
  {
    hide Mentions, Lists, Has;
    var j := Joined(g, ra, rb, data);
    forall c: Id, node, x: Id | Has(j, c, node) && Below(node, |j.root|) && Mentions(j.root, node, x)
      ensures Lists(j, x, c, Canon(j.root, node))
    {
      JoinLists(g, ra, rb, data, c, node, x);
    }
  }

  lemma JoinLists(g: Graph, ra: Id, rb: Id, data: Fact, c: Id, node: ENode, x: Id)
    requires Joinable(g, ra, rb) && Covered(g) && WellFormed(Joined(g, ra, rb, data))
    requires Has(Joined(g, ra, rb, data), c, node) && Below(node, |g.root|) && Mentions(Merged(g.root, ra, rb), node, x)
    ensures Lists(Joined(g, ra, rb, data), x, c, Canon(Merged(g.root, ra, rb), node))
  {
    var j := Joined(g, ra, rb, data);
    JoinWellFormed(g, ra, rb, data);
    assert Slot(g, ra) && Slot(g, rb);
    JoinHas(g, ra, rb, data, c, node);
    JoinMentions(g, ra, rb, node, x);
    var c0 := if Has(g, c, node) then c else rb;
    var x0 := if Mentions(g.root, node, x) then x else rb;
    assert Slot(g, c0);
    assert Lists(g, x0, c0, Canon(g.root, node));
    var e :| HasParent(g, x0, e) && Below(e.node, |g.root|) && e.owner < |g.root|
             && Canon(g.root, e.node) == Canon(g.root, node) && g.root[e.owner] == c0;
    JoinHasParent(g, ra, rb, data, x0, e);
    CanonOfCanon(j.root, g.root, e.node);
    CanonOfCanon(j.root, g.root, node);
    ParentIsBelow(g, x0, e);
    assert HasParent(j, x, e);
  }

  lemma JoinParentsReal(g: Graph, ra: Id, rb: Id, data: Fact)
    requires Joinable(g, ra, rb) && ParentsReal(g) && WellFormed(Joined(g, ra, rb, data))
    ensures ParentsReal(Joined(g, ra, rb, data))
  {
    var j := Joined(g, ra, rb, data);
    JoinWellFormed(g, ra, rb, data);
    forall x: Id, e | HasParent(j, x, e) && Below(e.node, |j.root|) && e.owner < |j.root|
      ensures Mentions(j.root, e.node, x) && Owns(j, j.root[e.owner], Canon(j.root, e.node))
    {
      JoinHasParent(g, ra, rb, data, x, e);
      var x0 := if HasParent(g, x, e) then x else rb;
      assert Mentions(g.root, e.node, x0) && Owns(g, g.root[e.owner], Canon(g.root, e.node));
      JoinMentions(g, ra, rb, e.node, x);
      CanonOfCanon(j.root, g.root, e.node);
      assert Slot(g, e.owner);
      JoinOwns(g, ra, rb, data, g.root[e.owner], Canon(g.root, e.node));
    }
  }

  lemma JoinHashed(g: Graph, ra: Id, rb: Id, data: Fact, pending: set<Id>)
    requires Joinable(g, ra, rb) && Hashed(g, pending) && WellFormed(Joined(g, ra, rb, data))
    ensures Hashed(Joined(g, ra, rb, data), pending + {ra})
  {
    var j := Joined(g, ra, rb, data);
    JoinWellFormed(g, ra, rb, data);
    assert Slot(g, ra) && Slot(g, rb);
    forall c: Id, node | Has(j, c, node) && Below(node, |j.root|)
      ensures Dirty(j.root, node, pending + {ra}) || Filed(j, Canon(j.root, node), c)
    {
      JoinHas(g, ra, rb, data, c, node);
      if Mentions(j.root, node, ra) {
        assert ra in pending + {ra} && j.root[ra] == ra;
      } else {
        JoinMentions(g, ra, rb, node, ra);
        Unmerged(g.root, ra, rb, node);
        var c0 := if Has(g, c, node) then c else rb;
        if Dirty(g.root, node, pending) {
          var w :| w in pending && w < |g.root| && Mentions(g.root, node, g.root[w]);
          assert j.root[w] == g.root[w] && w in pending + {ra};
        } else {
          assert Filed(g, Canon(g.root, node), c0);
        }
      }
    }
  }

  /** A node that mentions neither class keeps its canonical form. */
  lemma Unmerged(root: seq<Id>, ra: Id, rb: Id, node: ENode)
    requires Below(node, |root|) && !Mentions(root, node, rb)
    ensures Canon(Merged(root, ra, rb), node) == Canon(root, node)
    ensures forall x :: Mentions(Merged(root, ra, rb), node, x) <==> Mentions(root, node, x)
  {
    assert MapChildren(Merged(root, ra, rb), node) == MapChildren(root, node);
  }

  lemma JoinMemoReal(g: Graph, ra: Id, rb: Id, data: Fact)
    requires Joinable(g, ra, rb) && MemoReal(g) && WellFormed(Joined(g, ra, rb, data))
    ensures MemoReal(Joined(g, ra, rb, data))
  {
    var j := Joined(g, ra, rb, data);
    JoinWellFormed(g, ra, rb, data);
    forall m | m in j.memo && Below(m, |j.root|) && j.memo[m] < |j.root|
      ensures Owns(j, j.root[j.memo[m]], Canon(j.root, m))
    {
      CanonOfCanon(j.root, g.root, m);
      assert Slot(g, g.memo[m]);
      JoinOwns(g, ra, rb, data, g.root[g.memo[m]], Canon(g.root, m));
    }
  }

  /** A union keeps the invariant once the surviving class is pending. */
  lemma JoinKeeps(g: Graph, ra: Id, rb: Id, data: Fact, pending: set<Id>)
    requires Dormant(g, pending) && Joinable(g, ra, rb)
    ensures Dormant(Joined(g, ra, rb, data), pending + {ra})
    ensures Coarsens(Joined(g, ra, rb, data).root, g.root)
  {
    JoinWellFormed(g, ra, rb, data);
    JoinCovered(g, ra, rb, data);
    JoinParentsReal(g, ra, rb, data);
    JoinHashed(g, ra, rb, data, pending);
    JoinMemoReal(g, ra, rb, data);
  }

  // ----- adding a node -----

  /** Every class of a child of `entry.node`, among the first `done` children,
      has gained `entry`; nothing else changed. */
  ghost predicate Pushed(root: seq<Id>, before: seq<Option<EClass>>, after: seq<Option<EClass>>, entry: Parent,
                         done: nat)
    requires done <= |entry.node.children| && Below(entry.node, |root|)
  {
    && |after| == |before|
    && (forall i | 0 <= i < |before| :: PushedAt(root, before[i], after[i], entry, done, i))
  }

  ghost predicate PushedAt(root: seq<Id>, before: Option<EClass>, after: Option<EClass>, entry: Parent, done: nat,
                           i: Id)
    requires done <= |entry.node.children| && Below(entry.node, |root|)
  {
    && before.Some? == after.Some?
    && (before.Some? ==>
          && after.value == before.value.(parents := after.value.parents)
          && (forall e :: e in after.value.parents <==>
                          e in before.value.parents
                          || (e == entry && exists k | 0 <= k < done :: root[entry.node.children[k]] == i)))
  }

  /** The graph after a grown class holding `node` was added. */
  ghost predicate Added(g: Graph, after: Graph, node: ENode, fact: Fact) {
    var n := |g.root|;
    && Below(node, n)
    && after.root == g.root + [n]
    && after.memo == g.memo[node := n]
    && after.at == g.at && after.held == g.held
    && Pushed(g.root, g.classes + [Some(EClass(n, [node], fact, []))], after.classes, Parent(node, n), |node.children|)
  }

  ghost predicate Addable(g: Graph, after: Graph, node: ENode, fact: Fact) {
    && WellFormed(g)
    && Added(g, after, node, fact)
    && Canon(g.root, node) == node
    && node !in g.memo
  }

  /** New ids leave the canonical form of old nodes alone. */
  lemma CanonExtends(root: seq<Id>, more: seq<Id>, node: ENode)
    requires Below(node, |root|)
    ensures Canon(root + more, node) == Canon(root, node)
    ensures forall x: Id :: Mentions(root + more, node, x) <==> Mentions(root, node, x)
  {
    assert MapChildren(root + more, node) == MapChildren(root, node);
  }

  lemma AddHas(g: Graph, after: Graph, node: ENode, fact: Fact, c: Id, m: ENode)
    requires WellFormed(g) && Added(g, after, node, fact)
    ensures Has(after, c, m) <==> Has(g, c, m) || (c == |g.root| && m == node)
  {
    if c < |after.classes| {
      assert PushedAt(g.root, (g.classes + [Some(EClass(|g.root|, [node], fact, []))])[c], after.classes[c],
                      Parent(node, |g.root|), |node.children|, c);
    }
  }

  lemma AddHasParent(g: Graph, after: Graph, node: ENode, fact: Fact, x: Id, e: Parent)
    requires WellFormed(g) && Added(g, after, node, fact)
    ensures HasParent(after, x, e) <==>
              HasParent(g, x, e) || (x < |g.root| && e == Parent(node, |g.root|) && Mentions(g.root, node, x))
  {
    if g.at < |g.root| {
      assert Slot(g, g.at);
    }
    if x < |after.classes| {
      assert PushedAt(g.root, (g.classes + [Some(EClass(|g.root|, [node], fact, []))])[x], after.classes[x],
                      Parent(node, |g.root|), |node.children|, x);
      if x < |g.root| {
        assert Slot(g, x);
      } else {
        forall k | 0 <= k < |node.children|
          ensures g.root[node.children[k]] != x
        {
          assert Slot(g, node.children[k]);
        }
      }
    }
    if Mentions(g.root, node, x) {
      var k :| 0 <= k < |node.children| && g.root[node.children[k]] == x;
      assert Slot(g, node.children[k]);
    }
  }

  lemma AddWellFormed(g: Graph, after: Graph, node: ENode, fact: Fact)
    requires WellFormed(g) && Added(g, after, node, fact)
    ensures WellFormed(after)
  {
    var n := |g.root|;
    forall i | 0 <= i <= n
      ensures Slot(after, i)
    {
      assert PushedAt(g.root, (g.classes + [Some(EClass(n, [node], fact, []))])[i], after.classes[i],
                      Parent(node, n), |node.children|, i);
      if i < n {
        assert Slot(g, i);
      }
    }
  }

  lemma AddOwns(g: Graph, after: Graph, node: ENode, fact: Fact, c: Id, m: ENode)
    requires WellFormed(g) && Added(g, after, node, fact) && Owns(g, c, m)
    ensures Owns(after, c, m)
  {
    var own :| Has(g, c, own) && Below(own, |g.root|) && Canon(g.root, own) == m;
    CanonExtends(g.root, [|g.root|], own);
    AddHas(g, after, node, fact, c, own);
  }

  lemma AddCovered(g: Graph, after: Graph, node: ENode, fact: Fact)
    requires Addable(g, after, node, fact) && Covered(g) && WellFormed(after)
    ensures Covered(after)
  {
    forall c: Id, m, x: Id | Has(after, c, m) && Below(m, |after.root|) && Mentions(after.root, m, x)
      ensures Lists(after, x, c, Canon(after.root, m))
    {
      AddHas(g, after, node, fact, c, m);
      if Has(g, c, m) {
        HasIsBelow(g, c, m);
        CanonExtends(g.root, [|g.root|], m);
        assert Lists(g, x, c, Canon(g.root, m));
        var e :| HasParent(g, x, e) && Below(e.node, |g.root|) && e.owner < |g.root|
                 && Canon(g.root, e.node) == Canon(g.root, m) && g.root[e.owner] == c;
        CanonExtends(g.root, [|g.root|], e.node);
        AddHasParent(g, after, node, fact, x, e);
        assert after.root[e.owner] == c;
      } else {
        CanonExtends(g.root, [|g.root|], node);
        var e := Parent(node, |g.root|);
        var k :| 0 <= k < |m.children| && after.root[m.children[k]] == x;
        assert Slot(g, m.children[k]);
        AddHasParent(g, after, node, fact, x, e);
      }
    }
  }

  lemma AddParentsReal(g: Graph, after: Graph, node: ENode, fact: Fact)
    requires Addable(g, after, node, fact) && ParentsReal(g) && WellFormed(after)
    ensures ParentsReal(after)
  {
    forall x: Id, e | HasParent(after, x, e) && Below(e.node, |after.root|) && e.owner < |after.root|
      ensures Mentions(after.root, e.node, x) && Owns(after, after.root[e.owner], Canon(after.root, e.node))
    {
      AddHasParent(g, after, node, fact, x, e);
      if HasParent(g, x, e) {
        ParentIsBelow(g, x, e);
        CanonExtends(g.root, [|g.root|], e.node);
        AddOwns(g, after, node, fact, g.root[e.owner], Canon(g.root, e.node));
      } else {
        CanonExtends(g.root, [|g.root|], node);
        AddHas(g, after, node, fact, |g.root|, node);
      }
    }
  }

  lemma AddHashed(g: Graph, after: Graph, node: ENode, fact: Fact, pending: set<Id>)
    requires Addable(g, after, node, fact) && Hashed(g, pending) && WellFormed(after)
    ensures Hashed(after, pending)
  {
    forall c: Id, m | Has(after, c, m) && Below(m, |after.root|)
      ensures Dirty(after.root, m, pending) || Filed(after, Canon(after.root, m), c)
    {
      AddHas(g, after, node, fact, c, m);
      CanonExtends(g.root, [|g.root|], node);
      if Has(g, c, m) {
        HasIsBelow(g, c, m);
        CanonExtends(g.root, [|g.root|], m);
        if Dirty(g.root, m, pending) {
          var w :| w in pending && w < |g.root| && Mentions(g.root, m, g.root[w]);
          assert after.root[w] == g.root[w];
        } else {
          assert Filed(g, Canon(g.root, m), c);
        }
      }
    }
  }

  lemma AddMemoReal(g: Graph, after: Graph, node: ENode, fact: Fact)
    requires Addable(g, after, node, fact) && MemoReal(g) && WellFormed(after)
    ensures MemoReal(after)
  {
    forall m | m in after.memo && Below(m, |after.root|) && after.memo[m] < |after.root|
      ensures Owns(after, after.root[after.memo[m]], Canon(after.root, m))
    {
      if m == node {
        CanonExtends(g.root, [|g.root|], node);
        AddHas(g, after, node, fact, |g.root|, node);
      } else {
        CanonExtends(g.root, [|g.root|], m);
        AddOwns(g, after, node, fact, g.root[g.memo[m]], Canon(g.root, m));
      }
    }
  }

  /** Adding a canonical node the hashcons misses keeps the invariant. */
  lemma AddKeeps(g: Graph, after: Graph, node: ENode, fact: Fact, pending: set<Id>)
    requires Dormant(g, pending) && Addable(g, after, node, fact)
    ensures Dormant(after, pending)
  {
    AddWellFormed(g, after, node, fact);
    AddCovered(g, after, node, fact);
    AddParentsReal(g, after, node, fact);
    AddHashed(g, after, node, fact, pending);
    AddMemoReal(g, after, node, fact);
  }

  // ----- repairing the parents of one class -----

  /** The parent list of `at` taken out for repair. */
  function Taken(g: Graph, at: Id): Graph
    requires at < |g.classes| && g.classes[at].Some?
  {
    g.(classes := g.classes[at := Some(g.classes[at].value.(parents := []))],
       at := at, held := g.classes[at].value.parents)
  }

  lemma TakeKeeps(g: Graph, at: Id, pending: set<Id>)
    requires Dormant(g, pending) && g.held == [] && at < |g.classes| && g.classes[at].Some?
    ensures Dormant(Taken(g, at), pending)
  {
    var t := Taken(g, at);
    assert Slot(g, at);
    forall i | 0 <= i < |t.root|
      ensures Slot(t, i)
    {
      assert Slot(g, i);
    }
    assert SameView(g, t);
    SameCovered(g, t);
    SameParentsReal(g, t);
    SameHashed(g, t, pending);
    SameMemoReal(g, t);
  }

  /** Two snapshots with one partition whose classes contain and list the same. */
  ghost predicate SameView(g: Graph, t: Graph) {
    && t.root == g.root
    && (forall c: Id, node :: Has(t, c, node) <==> Has(g, c, node))
    && (forall x: Id, e :: HasParent(t, x, e) <==> HasParent(g, x, e))
  }

  lemma SameOwns(g: Graph, t: Graph, c: Id, m: ENode)
    requires SameView(g, t) && Owns(g, c, m)
    ensures Owns(t, c, m)
  {
    var node :| Has(g, c, node) && Below(node, |g.root|) && Canon(g.root, node) == m;
    assert Has(t, c, node);
  }

  lemma ListedBy(g: Graph, x: Id, c: Id, m: ENode) returns (e: Parent)
    requires Lists(g, x, c, m)
    ensures HasParent(g, x, e) && Below(e.node, |g.root|) && e.owner < |g.root|
    ensures Canon(g.root, e.node) == m && g.root[e.owner] == c
  {
    e :| HasParent(g, x, e) && Below(e.node, |g.root|) && e.owner < |g.root|
         && Canon(g.root, e.node) == m && g.root[e.owner] == c;
  }

  lemma SameCovered(g: Graph, t: Graph)
    requires WellFormed(g) && WellFormed(t) && Covered(g) && SameView(g, t)
    ensures Covered(t)
  {
    forall c: Id, node, x: Id | Has(t, c, node) && Below(node, |t.root|) && Mentions(t.root, node, x)
      ensures Lists(t, x, c, Canon(t.root, node))
    {
      assert Has(g, c, node);
      var e := ListedBy(g, x, c, Canon(g.root, node));
      assert HasParent(t, x, e);
    }
  }

  lemma SameParentsReal(g: Graph, t: Graph)
    requires WellFormed(g) && WellFormed(t) && ParentsReal(g) && SameView(g, t)
    ensures ParentsReal(t)
  {
    forall x: Id, e | HasParent(t, x, e) && Below(e.node, |t.root|) && e.owner < |t.root|
      ensures Mentions(t.root, e.node, x) && Owns(t, t.root[e.owner], Canon(t.root, e.node))
    {
      assert HasParent(g, x, e);
      SameOwns(g, t, g.root[e.owner], Canon(g.root, e.node));
    }
  }

  lemma SameMemoReal(g: Graph, t: Graph)
    requires WellFormed(g) && WellFormed(t) && MemoReal(g) && SameView(g, t) && t.memo == g.memo
    ensures MemoReal(t)
  {
    forall m | m in t.memo && Below(m, |t.root|) && t.memo[m] < |t.root|
      ensures Owns(t, t.root[t.memo[m]], Canon(t.root, m))
    {
      SameOwns(g, t, g.root[g.memo[m]], Canon(g.root, m));
    }
  }

  lemma SameHashed(g: Graph, t: Graph, pending: set<Id>)
    requires WellFormed(g) && WellFormed(t) && Hashed(g, pending) && SameView(g, t) && t.memo == g.memo
    ensures Hashed(t, pending)
  {
    forall c: Id, node | Has(t, c, node) && Below(node, |t.root|)
      ensures Dirty(t.root, node, pending) || Filed(t, Canon(t.root, node), c)
    {
      assert Has(g, c, node);
      assert Dirty(g.root, node, pending) || Filed(g, Canon(g.root, node), c);
    }
  }

  /** A node congruent to a held parent is dirty while `at` is pending. */
  lemma HeldIsDirty(g: Graph, pending: set<Id>, p: Parent, node: ENode)
    requires Dormant(g, pending) && g.at in pending && p in g.held
    requires Below(node, |g.root|) && Below(p.node, |g.root|)
    requires Canon(g.root, node) == p.node || Canon(g.root, node) == Canon(g.root, p.node)
    ensures Dirty(g.root, node, pending)
  {
    var x := g.root[g.at];
    assert HasParent(g, x, p);
    ParentIsBelow(g, x, p);
    assert Mentions(g.root, p.node, x);
    RootIsCoarser(g);
    CanonOfCanon(g.root, g.root, node);
    CanonMentions(g.root, node, p.node, x);
  }

  lemma RefileHashed(g: Graph, t: Graph, pending: set<Id>, p: Parent, key: ENode)
    requires Dormant(g, pending) && g.at in pending && p in g.held && Below(p.node, |g.root|)
    requires key == p.node || (Below(key, |g.root|) && Canon(g.root, key) == Canon(g.root, p.node))
    requires t == g.(memo := t.memo) && WellFormed(t)
    requires forall m | m != key :: (m in t.memo <==> m in g.memo) && (m in g.memo ==> t.memo[m] == g.memo[m])
    ensures Hashed(t, pending)
  {
    forall c: Id, node | Has(t, c, node) && Below(node, |t.root|)
      ensures Dirty(t.root, node, pending) || Filed(t, Canon(t.root, node), c)
    {
      assert Has(g, c, node);
      if Canon(g.root, node) == key {
        CanonIsBelow(g, node);
        HeldIsDirty(g, pending, p, node);
      } else {
        assert Dirty(g.root, node, pending) || Filed(g, Canon(g.root, node), c);
      }
    }
  }

  /** Changing the hashcons at the key of a held parent keeps the invariant. */
  lemma RefileKeeps(g: Graph, t: Graph, pending: set<Id>, p: Parent, key: ENode)
    requires Dormant(g, pending) && g.at in pending && p in g.held && Below(p.node, |g.root|)
    requires key == p.node || (Below(key, |g.root|) && Canon(g.root, key) == Canon(g.root, p.node))
    requires t == g.(memo := t.memo) && WellFormed(t)
    requires forall m | m != key :: (m in t.memo <==> m in g.memo) && (m in g.memo ==> t.memo[m] == g.memo[m])
    requires key in t.memo && Below(key, |g.root|) && t.memo[key] < |g.root|
             ==> Owns(g, g.root[t.memo[key]], Canon(g.root, key))
    ensures Dormant(t, pending)
  {
    assert SameView(g, t);
    SameCovered(g, t);
    SameParentsReal(g, t);
    RefileHashed(g, t, pending, p, key);
    forall m | m in t.memo && Below(m, |t.root|) && t.memo[m] < |t.root|
      ensures Owns(t, t.root[t.memo[m]], Canon(t.root, m))
    {
      SameOwns(g, t, g.root[t.memo[m]], Canon(g.root, m));
    }
  }

  /** Dropping the hashcons key of a held parent keeps the invariant. */
  lemma DropKeeps(g: Graph, pending: set<Id>, p: Parent)
    requires Dormant(g, pending) && g.at in pending && p in g.held
    ensures Dormant(g.(memo := g.memo - {p.node}), pending)
  {
    var t := g.(memo := g.memo - {p.node});
    assert forall i | 0 <= i < |g.root| :: Slot(g, i) ==> Slot(t, i);
    RefileKeeps(g, t, pending, p, p.node);
  }

  /** Filing a form of a held parent keeps the invariant. */
  lemma FileKeeps(g: Graph, pending: set<Id>, p: Parent, key: ENode, owner: Id)
    requires Dormant(g, pending) && g.at in pending && p in g.held
    requires Below(p.node, |g.root|) && owner < |g.root| && g.root[owner] == g.root[p.owner]
    requires Below(key, |g.root|) && Canon(g.root, key) == Canon(g.root, p.node)
    ensures Dormant(g.(memo := g.memo[key := owner]), pending)
  {
    var t := g.(memo := g.memo[key := owner]);
    assert HasParent(g, g.root[g.at], p);
    assert forall i | 0 <= i < |g.root| :: Slot(g, i) ==> Slot(t, i);
    RefileKeeps(g, t, pending, p, key);
  }

  // What a repair has seen: canonical forms, each with an owning class.

  /** The form is one a parent of the repaired class had, filed under its
      owner; unless something it mentions is pending, it is canonical still. */
  ghost predicate SeenGood(g: Graph, pending: set<Id>, q: ENode, owner: Id) {
    && g.at < |g.root| && Below(q, |g.root|) && owner < |g.root|
    && Mentions(g.root, q, g.root[g.at])
    && Owns(g, g.root[owner], Canon(g.root, q))
    && Filed(g, q, g.root[owner])
    && (Canon(g.root, q) == q || Dirty(g.root, q, pending))
  }

  /** Some form seen so far stands for the parent `p`. */
  predicate SeenFor(g: Graph, seen: map<ENode, Id>, p: Parent)
    requires Below(p.node, |g.root|) && p.owner < |g.root|
  {
    exists q :: q in seen && Below(q, |g.root|) && seen[q] < |g.root|
                && Canon(g.root, q) == Canon(g.root, p.node) && g.root[seen[q]] == g.root[p.owner]
  }

  lemma SeenForm(g: Graph, seen: map<ENode, Id>, p: Parent) returns (q: ENode)
    requires Below(p.node, |g.root|) && p.owner < |g.root| && SeenFor(g, seen, p)
    ensures q in seen && Below(q, |g.root|) && seen[q] < |g.root|
    ensures Canon(g.root, q) == Canon(g.root, p.node) && g.root[seen[q]] == g.root[p.owner]
  {
    q :| q in seen && Below(q, |g.root|) && seen[q] < |g.root|
         && Canon(g.root, q) == Canon(g.root, p.node) && g.root[seen[q]] == g.root[p.owner];
  }

  /** The class under repair lists nothing unless it merged and is pending. */
  ghost predicate AtBare(g: Graph, pending: set<Id>) {
    && g.at < |g.root| && g.root[g.at] < |g.classes| && g.classes[g.root[g.at]].Some?
    && (|| g.classes[g.root[g.at]].value.parents == []
        || exists w :: w in pending && w < |g.root| && g.root[w] == g.root[g.at])
  }

  ghost predicate AllGood(g: Graph, pending: set<Id>, seen: map<ENode, Id>) {
    forall q | q in seen :: SeenGood(g, pending, q, seen[q])
  }

  /** How far a repair has come: the first `done` held parents are seen. */
  ghost predicate Repairing(g: Graph, pending: set<Id>, seen: map<ENode, Id>, done: nat) {
    && Dormant(g, pending + {g.at})
    && AtBare(g, pending)
    && done <= |g.held|
    && AllGood(g, pending, seen)
    && (forall k | 0 <= k < done :: SeenFor(g, seen, g.held[k]))
  }

  lemma JoinDirty(g: Graph, ra: Id, rb: Id, node: ENode, pending: set<Id>)
    requires Joinable(g, ra, rb) && Below(node, |g.root|) && Dirty(g.root, node, pending)
    ensures Dirty(Merged(g.root, ra, rb), node, pending + {ra})
  {
    var w :| w in pending && w < |g.root| && Mentions(g.root, node, g.root[w]);
    var k :| 0 <= k < |node.children| && g.root[node.children[k]] == g.root[w];
    assert Merged(g.root, ra, rb)[node.children[k]] == Merged(g.root, ra, rb)[w];
    assert w in pending + {ra};
  }

  lemma JoinSeenGood(g: Graph, ra: Id, rb: Id, data: Fact, pending: set<Id>, q: ENode, owner: Id)
    requires Joinable(g, ra, rb) && WellFormed(Joined(g, ra, rb, data)) && SeenGood(g, pending, q, owner)
    ensures SeenGood(Joined(g, ra, rb, data), pending + {ra}, q, owner)
  {
    var j := Joined(g, ra, rb, data);
    JoinWellFormed(g, ra, rb, data);
    assert Slot(g, g.at) && Slot(g, owner) && Slot(g, ra) && Slot(g, rb);
    JoinMentions(g, ra, rb, q, j.root[g.at]);
    RootIsCoarser(g);
    CanonOfCanon(j.root, g.root, q);
    JoinOwns(g, ra, rb, data, g.root[owner], Canon(g.root, q));
    if Dirty(g.root, q, pending) {
      JoinDirty(g, ra, rb, q, pending);
    } else if Mentions(g.root, q, rb) {
      JoinMentions(g, ra, rb, q, ra);
      assert ra in pending + {ra} && j.root[ra] == ra;
      assert Dirty(j.root, q, pending + {ra});
    } else {
      Unmerged(g.root, ra, rb, q);
    }
  }

  lemma JoinSeenFor(g: Graph, ra: Id, rb: Id, data: Fact, seen: map<ENode, Id>, p: Parent)
    requires Joinable(g, ra, rb) && WellFormed(Joined(g, ra, rb, data))
    requires Below(p.node, |g.root|) && p.owner < |g.root| && SeenFor(g, seen, p)
    ensures SeenFor(Joined(g, ra, rb, data), seen, p)
  {
    var j := Joined(g, ra, rb, data);
    JoinWellFormed(g, ra, rb, data);
    var q :| q in seen && Below(q, |g.root|) && seen[q] < |g.root|
             && Canon(g.root, q) == Canon(g.root, p.node) && g.root[seen[q]] == g.root[p.owner];
    CanonOfCanon(j.root, g.root, q);
    CanonOfCanon(j.root, g.root, p.node);
  }

  lemma JoinAtBare(g: Graph, ra: Id, rb: Id, data: Fact, pending: set<Id>)
    requires Joinable(g, ra, rb) && AtBare(g, pending)
    ensures AtBare(Joined(g, ra, rb, data), pending + {ra})
  {
    var j := Joined(g, ra, rb, data);
    assert Slot(g, ra) && Slot(g, rb) && Slot(g, g.at);
    if j.root[g.at] == ra {
      assert ra in pending + {ra} && j.root[ra] == ra;
    } else if exists w :: w in pending && w < |g.root| && g.root[w] == g.root[g.at] {
      var w :| w in pending && w < |g.root| && g.root[w] == g.root[g.at];
      assert w in pending + {ra} && j.root[w] == j.root[g.at];
    }
  }

  /** A union in the middle of a repair, whatever it merges. */
  lemma JoinRepairing(g: Graph, ra: Id, rb: Id, data: Fact, pending: set<Id>, seen: map<ENode, Id>, done: nat)
    requires Joinable(g, ra, rb) && Repairing(g, pending, seen, done)
    ensures Repairing(Joined(g, ra, rb, data), pending + {ra}, seen, done)
  {
    var j := Joined(g, ra, rb, data);
    JoinKeeps(g, ra, rb, data, pending + {g.at});
    assert pending + {g.at} + {ra} == pending + {ra} + {g.at};
    JoinAtBare(g, ra, rb, data, pending);
    forall q | q in seen
      ensures SeenGood(j, pending + {ra}, q, seen[q])
    {
      JoinSeenGood(g, ra, rb, data, pending, q, seen[q]);
    }
    forall k | 0 <= k < done
      ensures SeenFor(j, seen, g.held[k])
    {
      JoinSeenFor(g, ra, rb, data, seen, g.held[k]);
    }
  }

  lemma SeenStays(g: Graph, t: Graph, pending: set<Id>, seen: map<ENode, Id>, key: ENode, owner: Id, q: ENode)
    requires t == g.(memo := g.memo[key := owner]) && Below(key, |g.root|) && owner < |g.root|
    requires q in seen && q != key && SeenGood(g, pending, q, seen[q])
    ensures SeenGood(t, pending, q, seen[q])
  {
    assert SameView(g, t);
    SameOwns(g, t, g.root[seen[q]], Canon(g.root, q));
  }

  lemma SeenForStays(g: Graph, t: Graph, seen: map<ENode, Id>, key: ENode, owner: Id, p: Parent)
    requires t == g.(memo := g.memo[key := owner]) && owner < |g.root|
    requires Below(p.node, |g.root|) && p.owner < |g.root| && SeenFor(g, seen, p)
    requires key in seen && seen[key] < |g.root| ==> g.root[seen[key]] == g.root[owner]
    ensures SeenFor(t, seen[key := owner], p)
  {
    var q := SeenForm(g, seen, p);
    assert q in seen[key := owner];
  }

  /** The form stands for the parent: it is canonical, or was until something
      it mentions was merged and became pending. */
  ghost predicate FormOf(g: Graph, pending: set<Id>, p: Parent, key: ENode) {
    && Below(p.node, |g.root|) && p.owner < |g.root| && Below(key, |g.root|)
    && Canon(g.root, key) == Canon(g.root, p.node)
    && (Canon(g.root, key) == key || Dirty(g.root, key, pending))
  }

  lemma SeenNew(g: Graph, pending: set<Id>, p: Parent, key: ENode, owner: Id)
    requires Dormant(g, pending + {g.at}) && p in g.held && FormOf(g, pending, p, key)
    requires owner < |g.root| && g.root[owner] == g.root[p.owner]
    ensures SeenGood(g.(memo := g.memo[key := owner]), pending, key, owner)
  {
    var t := g.(memo := g.memo[key := owner]);
    assert HasParent(g, g.root[g.at], p);
    CanonMentions(g.root, key, p.node, g.root[g.at]);
    assert SameView(g, t);
    SameOwns(g, t, g.root[p.owner], Canon(g.root, key));
  }

  lemma SeenForNext(g: Graph, t: Graph, pending: set<Id>, seen: map<ENode, Id>, done: nat, p: Parent, key: ENode,
                    owner: Id)
    requires WellFormed(g) && done < |g.held| && p == g.held[done] && FormOf(g, pending, p, key)
    requires forall k | 0 <= k < done :: SeenFor(g, seen, g.held[k])
    requires owner < |g.root| && g.root[owner] == g.root[p.owner]
    requires t == g.(memo := g.memo[key := owner])
    requires key in seen && seen[key] < |g.root| ==> g.root[seen[key]] == g.root[owner]
    ensures forall k | 0 <= k < done + 1 :: SeenFor(t, seen[key := owner], t.held[k])
  {
    forall k | 0 <= k < done + 1
      ensures SeenFor(t, seen[key := owner], t.held[k])
    {
      if k == done {
        assert key in seen[key := owner];
      } else {
        SeenForStays(g, t, seen, key, owner, g.held[k]);
      }
    }
  }

  lemma SeenGoodNext(g: Graph, t: Graph, pending: set<Id>, seen: map<ENode, Id>, p: Parent, key: ENode, owner: Id)
    requires Dormant(g, pending + {g.at}) && p in g.held && FormOf(g, pending, p, key)
    requires AllGood(g, pending, seen)
    requires owner < |g.root| && g.root[owner] == g.root[p.owner]
    requires t == g.(memo := g.memo[key := owner])
    ensures AllGood(t, pending, seen[key := owner])
  {
    SeenNew(g, pending, p, key, owner);
    forall q | q in seen && q != key
      ensures SeenGood(t, pending, q, seen[q])
    {
      SeenStays(g, t, pending, seen, key, owner, q);
    }
  }

  /** One more held parent: its form is seen and filed. */
  lemma SeeNext(g: Graph, pending: set<Id>, seen: map<ENode, Id>, done: nat, p: Parent, key: ENode, owner: Id)
    requires Repairing(g, pending, seen, done) && done < |g.held| && p == g.held[done]
    requires FormOf(g, pending, p, key) && owner < |g.root| && g.root[owner] == g.root[p.owner]
    requires key in seen && seen[key] < |g.root| ==> g.root[seen[key]] == g.root[owner]
    ensures Repairing(g.(memo := g.memo[key := owner]), pending, seen[key := owner], done + 1)
  {
    hide SeenGood, SeenFor, Canon, Covered, ParentsReal, Hashed, MemoReal, Slot, Owns;
    var t := g.(memo := g.memo[key := owner]);
    FileKeeps(g, pending + {g.at}, p, key, owner);
    SeenGoodNext(g, t, pending, seen, p, key, owner);
    SeenForNext(g, t, pending, seen, done, p, key, owner);
  }

  /** The class under repair gets the forms seen as its parent list. */
  ghost predicate Released(g: Graph, t: Graph, seen: map<ENode, Id>)
    requires WellFormed(g) && g.at < |g.root| && g.root[g.at] < |g.root| && g.classes[g.root[g.at]].Some?
  {
    var r := g.root[g.at];
    && t.root == g.root && t.memo == g.memo && t.held == []
    && |t.classes| == |g.classes| && t.classes[r].Some?
    && t.classes[r].value == g.classes[r].value.(parents := t.classes[r].value.parents)
    && (forall e :: e in t.classes[r].value.parents <==>
                    e in g.classes[r].value.parents || (e.node in seen && e.owner == seen[e.node]))
    && (forall i | 0 <= i < |g.classes| && i != r :: t.classes[i] == g.classes[i])
  }

  lemma ReleaseWellFormed(g: Graph, t: Graph, pending: set<Id>, seen: map<ENode, Id>)
    requires Repairing(g, pending, seen, |g.held|)
    requires Released(g, t, seen)
    ensures WellFormed(t)
  {
    forall i | 0 <= i < |t.root|
      ensures Slot(t, i)
    {
      assert Slot(g, i);
      if i == g.root[g.at] {
        forall e | e in t.classes[i].value.parents
          ensures Below(e.node, |t.root|) && e.owner < |t.root|
        {
          if e !in g.classes[i].value.parents {
            assert SeenGood(g, pending, e.node, seen[e.node]);
          }
        }
      }
    }
  }

  lemma HeldIsSeen(g: Graph, pending: set<Id>, seen: map<ENode, Id>, e: Parent) returns (q: ENode)
    requires Repairing(g, pending, seen, |g.held|) && e in g.held
    ensures Below(e.node, |g.root|) && e.owner < |g.root|
    ensures q in seen && SeenGood(g, pending, q, seen[q])
    ensures Canon(g.root, q) == Canon(g.root, e.node) && g.root[seen[q]] == g.root[e.owner]
  {
    var k :| 0 <= k < |g.held| && g.held[k] == e;
    assert SeenFor(g, seen, g.held[k]);
    q := SeenForm(g, seen, e);
  }

  lemma ReleaseCovered(g: Graph, t: Graph, pending: set<Id>, seen: map<ENode, Id>)
    requires Repairing(g, pending, seen, |g.held|)
    requires Released(g, t, seen) && WellFormed(t)
    ensures Covered(t)
  {
    forall c: Id, node, x: Id | Has(t, c, node) && Below(node, |t.root|) && Mentions(t.root, node, x)
      ensures Lists(t, x, c, Canon(t.root, node))
    {
      assert Has(g, c, node);
      var e := ListedBy(g, x, c, Canon(g.root, node));
      if e in g.held && x == g.root[g.at] {
        var q := HeldIsSeen(g, pending, seen, e);
        assert HasParent(t, x, Parent(q, seen[q]));
      } else {
        assert HasParent(t, x, e);
      }
    }
  }

  lemma ReleaseParentsReal(g: Graph, t: Graph, pending: set<Id>, seen: map<ENode, Id>)
    requires Repairing(g, pending, seen, |g.held|)
    requires Released(g, t, seen) && WellFormed(t)
    ensures ParentsReal(t)
  {
    assert forall c: Id, m | Owns(g, c, m) :: Owns(t, c, m);
    forall x: Id, e | HasParent(t, x, e) && Below(e.node, |t.root|) && e.owner < |t.root|
      ensures Mentions(t.root, e.node, x) && Owns(t, t.root[e.owner], Canon(t.root, e.node))
    {
      if HasParent(g, x, e) {
        assert Owns(g, g.root[e.owner], Canon(g.root, e.node));
      } else {
        assert SeenGood(g, pending, e.node, seen[e.node]);
      }
    }
  }

  /** The heart of the repair: a node nothing pending touches is filed. */
  lemma ReleaseFiles(g: Graph, pending: set<Id>, seen: map<ENode, Id>, c: Id, node: ENode)
    requires Repairing(g, pending, seen, |g.held|)
    requires Has(g, c, node) && Below(node, |g.root|) && !Dirty(g.root, node, pending)
    ensures Filed(g, Canon(g.root, node), c)
  {
    if !Filed(g, Canon(g.root, node), c) {
      var x := g.root[g.at];
      assert Dirty(g.root, node, pending + {g.at});
      assert Mentions(g.root, node, x);
      var e := ListedBy(g, x, c, Canon(g.root, node));
      assert e in g.held;
      var q := HeldIsSeen(g, pending, seen, e);
      if Dirty(g.root, q, pending) {
        var w :| w in pending && w < |g.root| && Mentions(g.root, q, g.root[w]);
        CanonMentions(g.root, q, node, g.root[w]);
      }
    }
  }

  lemma ReleaseHashed(g: Graph, t: Graph, pending: set<Id>, seen: map<ENode, Id>)
    requires Repairing(g, pending, seen, |g.held|)
    requires Released(g, t, seen) && WellFormed(t)
    ensures Hashed(t, pending)
  {
    forall c: Id, node | Has(t, c, node) && Below(node, |t.root|)
      ensures Dirty(t.root, node, pending) || Filed(t, Canon(t.root, node), c)
    {
      assert Has(g, c, node);
      if !Dirty(g.root, node, pending) {
        ReleaseFiles(g, pending, seen, c, node);
      }
    }
  }

  /** A finished repair keeps the invariant with one class less pending. */
  lemma ReleaseKeeps(g: Graph, t: Graph, pending: set<Id>, seen: map<ENode, Id>)
    requires Repairing(g, pending, seen, |g.held|)
    requires Released(g, t, seen)
    ensures Dormant(t, pending)
  {
    ReleaseWellFormed(g, t, pending, seen);
    ReleaseCovered(g, t, pending, seen);
    ReleaseParentsReal(g, t, pending, seen);
    ReleaseHashed(g, t, pending, seen);
    assert forall c: Id, m | Owns(g, c, m) :: Owns(t, c, m);
    forall m | m in t.memo && Below(m, |t.root|) && t.memo[m] < |t.root|
      ensures Owns(t, t.root[t.memo[m]], Canon(t.root, m))
    {
      assert Owns(g, g.root[g.memo[m]], Canon(g.root, m));
    }
  }

  /** Only the classes of the pending ids matter. */
  lemma PendingClasses(g: Graph, pending: set<Id>, other: set<Id>)
    requires Dormant(g, pending)
    requires forall w | w in pending && w < |g.root| :: exists v :: v in other && v < |g.root| && g.root[v] == g.root[w]
    ensures Dormant(g, other)
  {
    forall c: Id, node | Has(g, c, node) && Below(node, |g.root|)
      ensures Dirty(g.root, node, other) || Filed(g, Canon(g.root, node), c)
    {
      if Dirty(g.root, node, pending) {
        var w :| w in pending && w < |g.root| && Mentions(g.root, node, g.root[w]);
        var v :| v in other && v < |g.root| && g.root[v] == g.root[w];
        assert Mentions(g.root, node, g.root[v]);
      } else {
        assert Filed(g, Canon(g.root, node), c);
      }
    }
  }

  // ----- counting -----

  /** The ids that own a class. */
  function Occupied(classes: seq<Option<EClass>>): set<Id> {
    set i | 0 <= i < |classes| && classes[i].Some?
  }

  function NodeTotal(classes: seq<Option<EClass>>): nat {
    if classes == [] then 0
    else NodeTotal(classes[..|classes| - 1]) + NodesIn(classes[|classes| - 1])
  }

  function NodesIn(c: Option<EClass>): nat {
    if c.Some? then |c.value.nodes| else 0
  }

  lemma {:induction false} NodeTotalUpdate(classes: seq<Option<EClass>>, i: Id, c: Option<EClass>)
    requires i < |classes|
    ensures NodeTotal(classes[i := c]) == NodeTotal(classes) - NodesIn(classes[i]) + NodesIn(c)
  {
    var n := |classes| - 1;
    if i < n {
      NodeTotalUpdate(classes[..n], i, c);
      assert classes[i := c][..n] == classes[..n][i := c];
    } else {
      assert classes[i := c][..n] == classes[..n];
    }
  }

  lemma {:induction false} NodeTotalSame(a: seq<Option<EClass>>, b: seq<Option<EClass>>)
    requires |a| == |b| && forall i | 0 <= i < |a| :: NodesIn(a[i]) == NodesIn(b[i])
    ensures NodeTotal(a) == NodeTotal(b)
  {
    if a != [] {
      NodeTotalSame(a[..|a| - 1], b[..|b| - 1]);
    }
  }

  lemma JoinCounts(g: Graph, ra: Id, rb: Id, data: Fact)
    requires Joinable(g, ra, rb)
    ensures |Occupied(Joined(g, ra, rb, data).classes)| == |Occupied(g.classes)| - 1
    ensures NodeTotal(Joined(g, ra, rb, data).classes) == NodeTotal(g.classes)
  {
    var j := Joined(g, ra, rb, data);
    assert Occupied(j.classes) == Occupied(g.classes) - {rb};
    NodeTotalUpdate(g.classes, rb, None);
    NodeTotalUpdate(g.classes[rb := None], ra, j.classes[ra]);
  }

  lemma AddCounts(g: Graph, after: Graph, node: ENode, fact: Fact)
    requires WellFormed(g) && Added(g, after, node, fact)
    ensures |Occupied(after.classes)| == |Occupied(g.classes)| + 1
    ensures NodeTotal(after.classes) == NodeTotal(g.classes) + 1
  {
    var n := |g.root|;
    var grown := g.classes + [Some(EClass(n, [node], fact, []))];
    forall i | 0 <= i < |grown|
      ensures grown[i].Some? == after.classes[i].Some? && NodesIn(grown[i]) == NodesIn(after.classes[i])
    {
      assert PushedAt(g.root, grown[i], after.classes[i], Parent(node, n), |node.children|, i);
    }
    assert Occupied(after.classes) == Occupied(g.classes) + {n};
    NodeTotalSame(grown, after.classes);
    assert grown[..n] == g.classes;
  }

  // ----- the rebuilt graph -----

  /** What a rebuilt graph satisfies: stored nodes are canonical and filed
      exactly once, and parent lists are exactly those the classes imply. */
  ghost predicate Indexed(g: Graph) {
    && WellFormed(g)
    && (forall c: Id, node | Has(g, c, node) :: Filing(g, c, node))
    && (forall m | m in g.memo :: Has(g, g.memo[m], m))
    && (forall x: Id, e :: HasParent(g, x, e) <==> IsParent(g, x, e))
  }

  predicate Filing(g: Graph, c: Id, node: ENode) {
    Below(node, |g.root|) && Canon(g.root, node) == node && node in g.memo && g.memo[node] == c
  }

  predicate IsParent(g: Graph, x: Id, e: Parent) {
    Has(g, e.owner, e.node) && Below(e.node, |g.root|) && Mentions(g.root, e.node, x)
  }

  /** A rebuilt graph has nothing pending. */
  lemma IndexedIsDormant(g: Graph)
    requires Indexed(g)
    ensures Dormant(g, {})
  {
    RootIsCoarser(g);
    forall c: Id, node, x: Id | Has(g, c, node) && Below(node, |g.root|) && Mentions(g.root, node, x)
      ensures Lists(g, x, c, Canon(g.root, node))
    {
      HasIsBelow(g, c, node);
      assert IsParent(g, x, Parent(node, c));
      assert HasParent(g, x, Parent(node, c));
    }
    forall x: Id, e | HasParent(g, x, e) && Below(e.node, |g.root|) && e.owner < |g.root|
      ensures Mentions(g.root, e.node, x) && Owns(g, g.root[e.owner], Canon(g.root, e.node))
    {
      assert IsParent(g, x, e);
      HasIsBelow(g, e.owner, e.node);
    }
    forall c: Id, node | Has(g, c, node) && Below(node, |g.root|)
      ensures Filed(g, Canon(g.root, node), c)
    {
      assert Filing(g, c, node);
      HasIsBelow(g, c, node);
    }
    forall m | m in g.memo && Below(m, |g.root|) && g.memo[m] < |g.root|
      ensures Owns(g, g.root[g.memo[m]], Canon(g.root, m))
    {
      assert Has(g, g.memo[m], m);
      HasIsBelow(g, g.memo[m], m);
      assert Filing(g, g.memo[m], m);
    }
  }

  /** The nodes of one class replaced by their canonical forms. */
  ghost predicate Recanoned(root: seq<Id>, before: Option<EClass>, after: Option<EClass>) {
    && before.Some? == after.Some?
    && (before.Some? ==>
          && after.value == before.value.(nodes := after.value.nodes, parents := [])
          && (forall m :: m in after.value.nodes <==>
                exists node :: node in before.value.nodes && Below(node, |root|) && Canon(root, node) == m))
  }

  ghost predicate AllRecanoned(g: Graph, t: Graph) {
    && t.root == g.root && |t.classes| == |g.classes|
    && (forall i | 0 <= i < |g.classes| :: Recanoned(g.root, g.classes[i], t.classes[i]))
  }

  lemma RecanonedHas(g: Graph, t: Graph, c: Id, m: ENode)
    requires AllRecanoned(g, t)
    ensures Has(t, c, m) <==> Owns(g, c, m)
  {
    if c < |g.classes| {
      assert Recanoned(g.root, g.classes[c], t.classes[c]);
    }
  }

  lemma RecanonedClass(g: Graph, t: Graph, c: Id, m: ENode)
    requires WellFormed(g) && AllRecanoned(g, t) && Has(t, c, m)
    ensures c < |g.root| && g.root[c] == c && Below(m, |g.root|) && Canon(g.root, m) == m
  {
    RecanonedHas(g, t, c, m);
    var node :| Has(g, c, node) && Below(node, |g.root|) && Canon(g.root, node) == m;
    HasIsBelow(g, c, node);
    RootIsCoarser(g);
    CanonOfCanon(g.root, g.root, node);
  }

  /** Congruence was restored, so no canonical node is in two classes. */
  lemma RecanonedOnce(g: Graph, t: Graph, c: Id, d: Id, m: ENode)
    requires Dormant(g, {}) && AllRecanoned(g, t) && Has(t, c, m) && Has(t, d, m)
    ensures c == d
  {
    RecanonedHas(g, t, c, m);
    RecanonedHas(g, t, d, m);
    var a :| Has(g, c, a) && Below(a, |g.root|) && Canon(g.root, a) == m;
    var b :| Has(g, d, b) && Below(b, |g.root|) && Canon(g.root, b) == m;
    CanonDecidesCongruence(g.root, a, b);
    DormantIsCongruent(g, a, b, c, d);
  }
}
