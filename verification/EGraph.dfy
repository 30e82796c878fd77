/** The e-graph: a union-find over classes of e-nodes, a hashcons, and parent
    lists, kept congruent by deferred rebuilding. */
module EGraphs {
  import opened Options
  import opened Lang
  import opened UnionFinds
  import opened Graphs
  import opened Congruences
  import opened Meanings
  import opened NodeOrders
  import opened Steps
  import opened Histories
  import opened Reindexing
  import opened Propagation
  import opened Foldings

  /** Rebuild rounds before the analysis is abandoned. */
  const MAX_REBUILD_ROUNDS := 100

  /** Class recomputations of one analysis pass, per class. */
  const ANALYSIS_POPS_PER_CLASS := 32

  function PendingSet(pending: seq<Id>): set<Id> {
    set p | p in pending
  }

  lemma OneMorePending(pending: seq<Id>, id: Id)
    ensures PendingSet(pending + [id]) == PendingSet(pending) + {id}
  {
  }

  /** Worklists name ids, no constant is forgotten, and the running totals are
      exact. */
  ghost predicate Bookkept(g: Graph, pending: seq<Id>, analysisPending: seq<Id>, classCount: nat, nodeCount: nat) {
    && WellFormed(g) && AllFolding(g, analysisPending)
    && (forall p | p in pending :: p < |g.root|)
    && (forall p | p in analysisPending :: p < |g.root|)
    && classCount == |Occupied(g.classes)|
    && nodeCount == NodeTotal(g.classes)
  }

  lemma AddBookkept(g: Graph, after: Graph, pending: seq<Id>, analysisPending: seq<Id>,
                    classCount: nat, nodeCount: nat, node: ENode, fact: Fact)
    requires Bookkept(g, pending, analysisPending, classCount, nodeCount) && Added(g, after, node, fact)
    ensures Bookkept(after, pending, analysisPending + [|g.root|], classCount + 1, nodeCount + 1)
  {
    AddWellFormed(g, after, node, fact);
    AddCounts(g, after, node, fact);
    AddFolding(g, after, analysisPending, node, fact);
  }

  lemma JoinBookkept(g: Graph, pending: seq<Id>, analysisPending: seq<Id>,
                     classCount: nat, nodeCount: nat, ra: Id, rb: Id, data: Fact)
    requires Bookkept(g, pending, analysisPending, classCount, nodeCount) && Joinable(g, ra, rb)
    ensures classCount >= 1
    ensures data == g.classes[ra].value.data ==>
              Bookkept(Joined(g, ra, rb, data), pending + [ra], analysisPending, classCount - 1, nodeCount)
    ensures Bookkept(Joined(g, ra, rb, data), pending + [ra], analysisPending + [ra], classCount - 1, nodeCount)
  {
    JoinWellFormed(g, ra, rb, data);
    JoinCounts(g, ra, rb, data);
    JoinFolding(g, ra, rb, data, analysisPending);
  }

  /** Replacing one parent list leaves the totals alone. */
  lemma BookkeptReparented(g: Graph, t: Graph, pending: seq<Id>, analysisPending: seq<Id>,
                           classCount: nat, nodeCount: nat, id: Id, parents: seq<Parent>)
    requires Bookkept(g, pending, analysisPending, classCount, nodeCount) && WellFormed(t) && t.root == g.root
    requires id < |g.classes| && g.classes[id].Some?
    requires t.classes == g.classes[id := Some(g.classes[id].value.(parents := parents))]
    ensures Bookkept(t, pending, analysisPending, classCount, nodeCount)
  {
    NodeTotalUpdate(g.classes, id, t.classes[id]);
    assert Occupied(t.classes) == Occupied(g.classes);
    SameFolding(g, t, analysisPending);
  }

  lemma BookkeptWaiting(g: Graph, pending: seq<Id>, waiting: seq<Id>, more: seq<Id>, classCount: nat, nodeCount: nat)
    requires Bookkept(g, pending, waiting, classCount, nodeCount) && Covers(g.root, waiting, more)
    ensures Bookkept(g, pending, more, classCount, nodeCount)
  {
    FoldingCovered(g, waiting, more);
  }

  /** One id need not wait if its class holds its literal. */
  lemma BookkeptDone(g: Graph, pending: seq<Id>, waiting: seq<Id>, id: Id, rest: seq<Id>, classCount: nat,
                     nodeCount: nat)
    requires Bookkept(g, pending, waiting, classCount, nodeCount)
    requires (forall w | w in waiting :: w == id || w in rest) && forall w | w in rest :: w < |g.root|
    requires id < |g.root| && Folding(g, g.root[id], rest)
    ensures Bookkept(g, pending, rest, classCount, nodeCount)
  {
    FoldingDone(g, waiting, id, rest);
  }

  lemma BookkeptRefiled(g: Graph, t: Graph, pending: seq<Id>, analysisPending: seq<Id>, classCount: nat, nodeCount: nat)
    requires Bookkept(g, pending, analysisPending, classCount, nodeCount) && WellFormed(t)
    requires t.root == g.root && t.classes == g.classes
    ensures Bookkept(t, pending, analysisPending, classCount, nodeCount)
  {
    SameFolding(g, t, analysisPending);
  }

  lemma CoarsensItself(g: Graph, pending: seq<Id>, analysisPending: seq<Id>, classCount: nat, nodeCount: nat)
    requires Bookkept(g, pending, analysisPending, classCount, nodeCount)
    ensures Coarsens(g.root, g.root)
  {
    RootIsCoarser(g);
  }

  lemma CoarsensTransitive(a: seq<nat>, b: seq<nat>, c: seq<nat>)
    requires Coarsens(a, b) && Coarsens(b, c)
    ensures Coarsens(a, c)
  {
    forall i | 0 <= i < |c|
      ensures a[c[i]] == a[i]
    {
      assert b[c[i]] == b[i] && a[b[c[i]]] == a[c[i]] && a[b[i]] == a[i];
    }
  }

  lemma RootsInRange(g: Graph)
    requires WellFormed(g)
    ensures forall i | 0 <= i < |g.root| :: g.root[i] < |g.root| && g.root[g.root[i]] == g.root[i]
  {
    forall i | 0 <= i < |g.root|
      ensures g.root[i] < |g.root| && g.root[g.root[i]] == g.root[i]
    {
      assert Slot(g, i);
    }
  }

  /** The classes of the pending ids are as good as the ids. */
  lemma TodoStep(sem: Semantics, analysis: Analysis, faithful: bool, meaning: seq<Value>, g: Graph,
                 pending: seq<Id>, todo: seq<Id>, log: seq<Entry>, asserted: seq<Equation>)
    requires Settled(sem, analysis, faithful, meaning, g, PendingSet(pending), log, asserted)
    requires forall p | p in pending :: p < |g.root| && g.root[p] in todo
    ensures Settled(sem, analysis, faithful, meaning, g, PendingSet(todo), log, asserted)
  {
    RootsInRange(g);
    forall w | w in PendingSet(pending) && w < |g.root|
      ensures exists v :: v in PendingSet(todo) && v < |g.root| && g.root[v] == g.root[w]
    {
      assert g.root[w] in PendingSet(todo);
    }
    PendingClasses(g, PendingSet(pending), PendingSet(todo));
  }

  /** A class with a constant fact denotes the literal. */
  lemma FoldStep(sem: Semantics, analysis: Analysis, faithful: bool, meaning: seq<Value>, g: Graph,
                 pending: set<Id>, log: seq<Entry>, asserted: seq<Equation>, id: Id, c: Double)
    requires WellFormed(g) && Settled(sem, analysis, faithful, meaning, g, pending, log, asserted)
    requires |meaning| == |g.root|
    requires id < |g.root| && g.root[id] < |g.classes| && g.classes[g.root[id]].Some?
    requires g.classes[g.root[id]].value.data.constant == Some(c)
    ensures Respects(sem, analysis) && faithful ==>
              sem.knows(Const(c)) && meaning[id] == Denotes(sem, meaning, ENode(Const(c), []))
    ensures !Constantless(analysis)
  {
    assert Arguments(meaning, []) == [];
    if Respects(sem, analysis) && faithful {
      assert meaning[g.root[id]] == meaning[id];
    }
  }

  lemma LiteralIsHeld(sem: Semantics, analysis: Analysis, faithful: bool, meaning: seq<Value>, g: Graph,
                      pending: set<Id>, log: seq<Entry>, asserted: seq<Equation>, lit: Id, c: Double)
    requires Settled(sem, analysis, faithful, meaning, g, pending, log, asserted)
    requires Entry(ENode(Const(c), []), lit) in log
    ensures lit < |g.root| && HoldsLiteral(g, g.root[lit], c)
  {
    var node := ENode(Const(c), []);
    assert Owns(g, g.root[lit], Canon(g.root, node));
    var own :| Has(g, g.root[lit], own) && Below(own, |g.root|) && Canon(g.root, own) == Canon(g.root, node);
    assert own.op == Const(c);
  }

  lemma CanonicalizedClasses(sem: Semantics, analysis: Analysis, faithful: bool, meaning: seq<Value>, g: Graph,
                             t: Graph,
                             log: seq<Entry>, asserted: seq<Equation>)
    requires Settled(sem, analysis, faithful, meaning, g, PendingSet([]), log, asserted) && AllRecanoned(g, t)
    ensures Once(t.classes) && |t.classes| == |t.root|
    ensures forall c, n | 0 <= c < |t.classes| && t.classes[c].Some? && n in t.classes[c].value.nodes ::
              Below(n, |t.root|)
  {
    assert PendingSet([]) == {};
    forall c, n | 0 <= c < |t.classes| && t.classes[c].Some? && n in t.classes[c].value.nodes
      ensures Below(n, |t.root|)
    {
      assert Has(t, c, n);
      RecanonedClass(g, t, c, n);
    }
    forall c, d, m | 0 <= c < |t.classes| && 0 <= d < |t.classes| && t.classes[c].Some? && t.classes[d].Some?
                     && m in t.classes[c].value.nodes && m in t.classes[d].value.nodes
      ensures c == d
    {
      assert Has(t, c, m) && Has(t, d, m);
      RecanonedOnce(g, t, c, d, m);
    }
  }

  lemma LinkTargets(sem: Semantics, analysis: Analysis, faithful: bool, meaning: seq<Value>, g: Graph, t: Graph,
                    links: seq<Link>, log: seq<Entry>, asserted: seq<Equation>)
    requires Settled(sem, analysis, faithful, meaning, g, PendingSet([]), log, asserted) && AllRecanoned(g, t)
    requires forall l :: l in links <==> IsParent(t, l.child, l.parent)
    ensures forall l | l in links :: l.child < |t.classes| && t.classes[l.child].Some?
  {
    forall l | l in links
      ensures l.child < |t.classes| && t.classes[l.child].Some?
    {
      assert IsParent(t, l.child, l.parent);
      var node := l.parent.node;
      var k :| 0 <= k < |node.children| && g.root[node.children[k]] == l.child;
      assert Slot(g, node.children[k]) && Slot(g, l.child) && Recanoned(g.root, g.classes[l.child], t.classes[l.child]);
    }
  }

  lemma LinkedGraph(g: Graph, t: Graph, f: Graph, links: seq<Link>)
    requires WellFormed(g) && g.held == [] && AllRecanoned(g, t) && AllLinked(t.classes, f.classes, links)
    requires f.root == g.root && f.held == []
    requires forall l :: l in links <==> IsParent(t, l.child, l.parent)
    ensures forall i | 0 <= i < |g.classes| :: Renewed(g.classes[i], f.classes[i])
    ensures forall c: Id, m :: Has(f, c, m) <==> Owns(g, c, m)
    ensures forall x: Id, e :: HasParent(f, x, e) <==> IsParent(f, x, e)
  {
    forall i | 0 <= i < |g.classes|
      ensures Renewed(g.classes[i], f.classes[i])
    {
      assert Recanoned(g.root, g.classes[i], t.classes[i]) && LinkedAt(t.classes[i], f.classes[i], links, |links|, i);
    }
    forall c: Id, m
      ensures Has(f, c, m) <==> Owns(g, c, m)
      ensures Has(f, c, m) <==> Has(t, c, m)
    {
      RecanonedHas(g, t, c, m);
      if c < |t.classes| {
        assert LinkedAt(t.classes[c], f.classes[c], links, |links|, c);
      }
    }
    forall x: Id, e
      ensures HasParent(f, x, e) <==> IsParent(f, x, e)
    {
      LinkedParent(g, t, f, links, x, e);
    }
  }

  lemma LinkedParent(g: Graph, t: Graph, f: Graph, links: seq<Link>, x: Id, e: Parent)
    requires WellFormed(g) && g.held == [] && AllRecanoned(g, t) && AllLinked(t.classes, f.classes, links)
    requires f.root == g.root && f.held == []
    requires forall l :: l in links <==> IsParent(t, l.child, l.parent)
    requires forall c: Id, m :: Has(f, c, m) <==> Has(t, c, m)
    ensures HasParent(f, x, e) <==> IsParent(f, x, e)
  {
    assert IsParent(t, x, e) <==> IsParent(f, x, e);
    assert links[..|links|] == links;
    assert Link(x, e) in links <==> IsParent(t, x, e);
    if IsParent(t, x, e) {
      var k :| 0 <= k < |e.node.children| && g.root[e.node.children[k]] == x;
      assert Slot(g, e.node.children[k]) && Slot(g, x);
    }
    if x < |t.classes| {
      assert Recanoned(g.root, g.classes[x], t.classes[x]) && LinkedAt(t.classes[x], f.classes[x], links, |links|, x);
    }
  }

  /** The indices rebuilt by `Reindex` are those of a rebuilt graph. */
  lemma ReindexedGraph(sem: Semantics, analysis: Analysis, faithful: bool, meaning: seq<Value>, g: Graph, t: Graph,
                       f: Graph,
                       links: seq<Link>, byOp: map<Op, seq<Id>>, log: seq<Entry>, asserted: seq<Equation>,
                       pending: seq<Id>, analysisPending: seq<Id>, classCount: nat, oldTotal: nat, nodeCount: nat)
    requires Settled(sem, analysis, faithful, meaning, g, PendingSet([]), log, asserted) && g.held == []
    requires pending == []
    requires Bookkept(g, pending, analysisPending, classCount, oldTotal) && nodeCount == NodeTotal(t.classes)
    requires AllRecanoned(g, t) && AllSorted(t.classes) && AllLinked(t.classes, f.classes, links)
    requires f.root == g.root && f.held == [] && FiledUpTo(f.memo, t.classes, |t.classes|, 0)
    requires OpIndexed(byOp, t.classes)
    requires forall l :: l in links <==> IsParent(t, l.child, l.parent)
    ensures Settled(sem, analysis, faithful, meaning, f, PendingSet(pending), log, asserted)
    ensures Bookkept(f, pending, analysisPending, classCount, nodeCount)
    ensures Rebuilt(f, pending, byOp) && ReindexedFrom(g, f)
  {
    assert PendingSet([]) == {};
    LinkedGraph(g, t, f, links);
    forall c: Id, m
      ensures Has(f, c, m) <==> InPrefix(t.classes, |t.classes|, 0, c, m)
    {
      RecanonedHas(g, t, c, m);
    }
    assert ReindexedFrom(g, f);
    ReindexStep(sem, analysis, faithful, meaning, g, f, log, asserted);
    LinkedTotals(t.classes, f.classes, links, byOp);
    assert forall i | 0 <= i < |g.classes| :: Renewed(g.classes[i], f.classes[i]);
    assert Occupied(f.classes) == Occupied(g.classes);
    RenewFolding(g, f, analysisPending);
  }

  lemma ReindexedIsSame(g: Graph, f: Graph, pending: seq<Id>, byOp0: map<Op, seq<Id>>, byOp: map<Op, seq<Id>>)
    requires Rebuilt(g, pending, byOp0) && Rebuilt(f, pending, byOp) && ReindexedFrom(g, f)
    ensures SameClasses(g, f)
  {
    RenewedIsSame(g, f);
  }

  lemma CleanIsDone(g: Graph, pending: seq<Id>, byOp: map<Op, seq<Id>>)
    ensures Rebuilt(g, pending, byOp) ==> pending == []
  {
  }

  /** A graph just rebuilt is later than it was before. */
  lemma RebuildIsLater(sem: Semantics, analysis: Analysis, faithful: bool, meaning: seq<Value>, g: Graph,
                       pending: seq<Id>, log: seq<Entry>, asserted: seq<Equation>, a: Ledger,
                       faithful': bool, meaning': seq<Value>, f: Graph, pending': seq<Id>, byOp: map<Op, seq<Id>>,
                       log': seq<Entry>, asserted': seq<Equation>, b: Ledger)
    requires Settled(sem, analysis, faithful, meaning, g, PendingSet(pending), log, asserted)
    requires Settled(sem, analysis, faithful', meaning', f, PendingSet(pending'), log', asserted')
    requires Rebuilt(f, pending', byOp) && Extends(a, b, Respects(sem, analysis))
    requires a.root == g.root && a.log == log && a.asserted == asserted
    requires b.root == f.root && b.log == log' && b.asserted == asserted'
    ensures Later(g, f)
  {
    assert PendingSet(pending') == {};
    hide Indexed, Dormant, Sound, Recorded, Faithful, Later;
    RebuiltLater(g, log, asserted, f, log', asserted');
  }

  lemma LinkedTotals(before: seq<Option<EClass>>, after: seq<Option<EClass>>, links: seq<Link>, byOp: map<Op, seq<Id>>)
    requires AllLinked(before, after, links) && AllSorted(before) && OpIndexed(byOp, before)
    ensures NodeTotal(after) == NodeTotal(before) && AllSorted(after) && OpIndexed(byOp, after)
  {
    forall i | 0 <= i < |before|
      ensures before[i].Some? == after[i].Some?
      ensures before[i].Some? ==> after[i].value.nodes == before[i].value.nodes
    {
      assert LinkedAt(before[i], after[i], links, |links|, i);
    }
    NodeTotalSame(before, after);
    assert forall c: Id, op :: HasOp(before, c, op) <==> HasOp(after, c, op);
  }

  /** What the parent list of a class names covers all that use it. */
  lemma OwnersAreQueued(sem: Semantics, analysis: Analysis, faithful: bool, meaning: seq<Value>, g: Graph,
                        pending: set<Id>, log: seq<Entry>, asserted: seq<Equation>, id: Id, queue: seq<Id>)
    requires Settled(sem, analysis, faithful, meaning, g, pending, log, asserted) && g.held == []
    requires IsClass(g, id) && id < |g.classes| && g.classes[id].Some?
    requires forall j | 0 <= j < |g.classes[id].value.parents| ::
               var owner := g.classes[id].value.parents[j].owner;
               owner < |g.root| && (g.root[owner] == id || g.root[owner] in queue)
    ensures forall c | IsClass(g, c) && c != id && Uses(g, c, id) :: c in queue
    ensures forall e | e in g.classes[id].value.parents :: e.owner < |g.root| && Uses(g, g.root[e.owner], id)
  {
    forall c | IsClass(g, c) && c != id && Uses(g, c, id)
      ensures c in queue
    {
      UsersAreOwners(g, id, c);
    }
    forall e | e in g.classes[id].value.parents
      ensures e.owner < |g.root| && Uses(g, g.root[e.owner], id)
    {
      OwnersUse(g, id, e);
    }
  }

  lemma RecomputeBookkept(g: Graph, pending: seq<Id>, analysisPending: seq<Id>,
                          classCount: nat, nodeCount: nat, id: Id, data: Fact)
    requires Bookkept(g, pending, analysisPending, classCount, nodeCount)
    requires id < |g.classes| && g.classes[id].Some?
    ensures Bookkept(Informed(g, id, data), pending, analysisPending + [id], classCount, nodeCount)
  {
    var t := Informed(g, id, data);
    InformedView(g, id, data);
    NodeTotalUpdate(g.classes, id, t.classes[id]);
    assert Occupied(t.classes) == Occupied(g.classes);
    assert Slot(g, id);
    InformFolding(g, analysisPending, id, data);
  }

  /** United with its literal, a class is folded. */
  lemma LiteralFolds(g: Graph, h: Graph, pending: seq<Id>, waiting: seq<Id>, rest: seq<Id>, told: seq<Id>, id: Id,
                     lit: Id, classCount: nat, nodeCount: nat)
    requires Bookkept(g, pending, waiting, classCount, nodeCount) && WellFormed(h) && Later(g, h)
    requires id < |g.root| && lit < |g.root| && h.root[id] == h.root[lit]
    requires forall w | w in waiting :: w == id || w in rest || w in told
    requires FactAt(g, id).constant.Some? && HoldsLiteral(h, h.root[id], FactAt(g, id).constant.value)
    requires || Pends(h, told, h.root[id]) || FactAt(h, id) == FactAt(g, id)
             || (g.root[id] != g.root[lit] && FactAt(h, id) == FactAt(g, lit))
    ensures Folding(h, h.root[id], rest + told)
  {
    if Pends(h, told, h.root[id]) {
      var p :| p in told && p < |h.root| && h.root[p] == h.root[id];
      assert p in rest + told;
    }
    UnionFolds(g, h, waiting, rest + told, id, lit);
  }

  lemma MoreWaits(g: Graph, pending: seq<Id>, waiting: seq<Id>, more: seq<Id>, id: Id, classCount: nat, nodeCount: nat)
    requires Bookkept(g, pending, waiting + [id], classCount, nodeCount)
    requires forall w :: w in more <==> w in waiting || w == id
    ensures Bookkept(g, pending, more, classCount, nodeCount)
  {
    forall w
      ensures w in more <==> w in waiting + [id]
    {
    }
    BookkeptWaiting(g, pending, waiting + [id], more, classCount, nodeCount);
  }

  lemma RecomputeRebuilt(g: Graph, pending: seq<Id>, byOp: map<Op, seq<Id>>, id: Id, data: Fact)
    requires WellFormed(g) && id < |g.classes| && g.classes[id].Some?
    ensures Rebuilt(g, pending, byOp) ==> Rebuilt(Informed(g, id, data), pending, byOp)
  {
    var t := Informed(g, id, data);
    InformedView(g, id, data);
    if Rebuilt(g, pending, byOp) {
      forall c: Id, node | Has(t, c, node)
        ensures Filing(t, c, node)
      {
        assert Has(g, c, node) && Filing(g, c, node);
      }
      forall x: Id, e
        ensures HasParent(t, x, e) <==> IsParent(t, x, e)
      {
        assert HasParent(g, x, e) <==> IsParent(g, x, e);
      }
      assert forall m | m in t.memo :: Has(g, g.memo[m], m);
      assert forall op, c: Id :: HasOp(g.classes, c, op) <==> HasOp(t.classes, c, op);
    }
  }

  lemma WaitingInRange(g: Graph, pending: seq<Id>, waiting: seq<Id>, classCount: nat, nodeCount: nat)
    requires Bookkept(g, pending, waiting, classCount, nodeCount)
    ensures forall w | w in waiting :: w < |g.root|
  {
  }

  lemma GraphIsWellFormed(g: Graph, pending: seq<Id>, analysisPending: seq<Id>, classCount: nat, nodeCount: nat)
    requires Bookkept(g, pending, analysisPending, classCount, nodeCount)
    ensures WellFormed(g)
  {
  }

  lemma RootsJoin(g: Graph, pending: seq<Id>, analysisPending: seq<Id>, classCount: nat, nodeCount: nat, a: Id, b: Id)
    requires Bookkept(g, pending, analysisPending, classCount, nodeCount) && a < |g.root| && b < |g.root|
    ensures |g.classes| == |g.root|
    ensures var ra, rb := g.root[a], g.root[b];
            && ra < |g.root| && rb < |g.root| && g.root[ra] == ra && g.root[rb] == rb
            && (ra != rb ==> Joinable(g, ra, rb) && Joinable(g, rb, ra) && classCount >= 1)
  {
    assert Slot(g, a) && Slot(g, b) && Slot(g, g.root[a]) && Slot(g, g.root[b]);
    if g.root[a] != g.root[b] {
      JoinBookkept(g, pending, analysisPending, classCount, nodeCount, g.root[a], g.root[b],
                   g.classes[g.root[a]].value.data);
    }
  }

  /** The nodes remembered for the forms seen, each congruent to its form. */
  ghost predicate StoredForms(root: seq<Id>, stored: map<ENode, ENode>) {
    forall n | n in stored :: Below(n, |root|) && Below(stored[n], |root|) && Canon(root, stored[n]) == Canon(root, n)
  }

  lemma StoredNothing(root: seq<Id>)
    ensures StoredForms(root, map[])
  {
  }

  lemma StoredCoarser(coarse: seq<Id>, fine: seq<Id>, stored: map<ENode, ENode>)
    requires Coarsens(coarse, fine) && StoredForms(fine, stored)
    ensures StoredForms(coarse, stored)
  {
    forall n | n in stored
      ensures Canon(coarse, stored[n]) == Canon(coarse, n)
    {
      CanonOfCanon(coarse, fine, n);
      CanonOfCanon(coarse, fine, stored[n]);
    }
  }

  lemma StoredNext(root: seq<Id>, stored: map<ENode, ENode>, node: ENode, original: ENode)
    requires StoredForms(root, stored) && Coarsens(root, root) && Below(original, |root|)
    requires node == Canon(root, original)
    ensures StoredForms(root, stored[node := original])
  {
    CanonOfCanon(root, root, original);
  }

  /** Two nodes with one form are congruent. */
  lemma StoredCites(root: seq<Id>, stored: map<ENode, ENode>, node: ENode, original: ENode)
    requires StoredForms(root, stored) && Coarsens(root, root) && Below(original, |root|)
    requires node == Canon(root, original)
    requires node in stored
    ensures Cites(root, Congruence(stored[node], original))
  {
    CanonOfCanon(root, root, original);
  }

  lemma ChildClassesExist(g: Graph, n: ENode)
    requires WellFormed(g) && Below(n, |g.root|)
    ensures |g.classes| == |g.root|
    ensures forall k | 0 <= k < |n.children| ::
              g.root[n.children[k]] < |g.root| && g.classes[g.root[n.children[k]]].Some?
  {
    assert forall k | 0 <= k < |n.children| :: Slot(g, n.children[k]) && Slot(g, g.root[n.children[k]]);
  }

  lemma JoinableClasses(g: Graph, a: Id, b: Id)
    requires Joinable(g, a, b)
    ensures a < |g.classes| && b < |g.classes| && g.classes[a].Some? && g.classes[b].Some? && a != b
  {
  }

  /** A class is queued for the analysis if its fact moved. */
  function Told(pending: seq<Id>, c: Id, before: Fact, after: Fact): seq<Id> {
    if after != before then pending + [c] else pending
  }

  /** Uniting two classes keeps their nodes; their fact is that of one of them, or
      the analysis is told. */
  lemma UnionTells(analysis: Analysis, g: Graph, ra: Id, rb: Id, a: Id, b: Id, before: seq<Id>, told: seq<Id>)
    requires Joinable(g, ra, rb) && a < |g.root| && b < |g.root| && Pair(ra, rb, g.root[a], g.root[b])
    requires ra < |g.classes| && rb < |g.classes| && g.classes[ra].Some? && g.classes[rb].Some?
    requires told == Told(before, ra, g.classes[ra].value.data,
                          analysis.merge(g.classes[ra].value.data, g.classes[rb].value.data))
    ensures var j := Joined(g, ra, rb, analysis.merge(g.classes[ra].value.data, g.classes[rb].value.data));
            && before <= told && Later(g, j) && WellFormed(g) && WellFormed(j)
            && (Pends(j, told, j.root[a]) || FactAt(j, a) == FactAt(g, a) || FactAt(j, a) == FactAt(g, b))
  {
    var data := analysis.merge(g.classes[ra].value.data, g.classes[rb].value.data);
    JoinLater(g, ra, rb, data);
    JoinTells(g, ra, rb, data, a, b, told);
  }

  /** What a caller can observe to have advanced. */
  datatype Ledger = Ledger(
    root: seq<Id>, log: seq<Entry>, asserted: seq<Equation>, meaning: seq<Value>, faithful: bool, classCount: nat,
    traced: bool, quiet: bool)

  /** Merged ids stay merged, the record only grows, and, given `sound`, only
      equal values are declared equal. */
  ghost predicate Extends(before: Ledger, after: Ledger, sound: bool) {
    && Grows(before.root, after.root)
    && before.log <= after.log && before.asserted <= after.asserted && before.meaning <= after.meaning
    && before.traced == after.traced
    && (Proper(before.log) ==> Proper(after.log))
    && (sound && before.faithful ==> after.faithful)
  }

  /** What rebuilding may do: what is folded is true, and without an analysis
      nothing is added or asserted at all, nor merged if nothing was pending. */
  ghost predicate Advances(sem: Semantics, analysis: Analysis, before: Ledger, after: Ledger, unions: int) {
    && Extends(before, after, Respects(sem, analysis))
    && (Constantless(analysis) ==>
          && after.log == before.log && after.asserted == before.asserted
          && unions == before.classCount - after.classCount
          && (before.quiet ==> after.quiet && after.root == before.root && unions == 0))
  }

  /** The state at some moment. */
  datatype Moment = Moment(graph: Graph, pending: seq<Id>, account: Ledger)

  lemma AdvancesExtends(sem: Semantics, analysis: Analysis, a: Ledger, b: Ledger, unions: int)
    requires Advances(sem, analysis, a, b, unions)
    ensures Extends(a, b, Respects(sem, analysis))
  {
  }

  lemma ExtendsItself(a: Ledger, sound: bool)
    ensures Extends(a, a, sound)
  {
  }

  lemma AdvancesNowhere(sem: Semantics, analysis: Analysis, a: Ledger)
    ensures Advances(sem, analysis, a, a, 0)
  {
  }

  lemma AddExtends(sem: Semantics, before: Ledger, after: Ledger, node: ENode, id: Id, sound: bool)
    requires after.root == before.root || after.root == before.root + [id]
    requires after.log == before.log + [Entry(node, id)] && |node.children| == node.op.Arity()
    requires after.asserted == before.asserted && before.meaning <= after.meaning
    requires after.traced == before.traced && after.faithful == (before.faithful && Vouched(sem, node))
    requires sound && before.faithful ==> Vouched(sem, node)
    ensures Extends(before, after, sound)
  {
  }

  lemma UnionExtends(before: Ledger, after: Ledger, a: Id, b: Id, sound: bool)
    requires Coarsens(after.root, before.root) && after.log == before.log
    requires after.asserted == before.asserted + [Equation(a, b)] && after.meaning == before.meaning
    requires a < |before.meaning| && b < |before.meaning| && after.traced == before.traced
    requires after.faithful == (before.faithful && before.meaning[a] == before.meaning[b])
    requires sound && before.faithful ==> before.meaning[a] == before.meaning[b]
    ensures Extends(before, after, sound)
  {
    forall i, j | 0 <= i < |before.root| && 0 <= j < |before.root| && before.root[i] == before.root[j]
      ensures after.root[i] == after.root[j]
    {
      assert after.root[before.root[i]] == after.root[i] && after.root[before.root[j]] == after.root[j];
    }
  }

  lemma AdvancesByFolding(sem: Semantics, analysis: Analysis, a: Ledger, b: Ledger, c: Ledger)
    requires Extends(a, b, Respects(sem, analysis)) && Extends(b, c, Respects(sem, analysis)) && !Constantless(analysis)
    ensures Advances(sem, analysis, a, c, 0)
  {
    ExtendsTransitive(a, b, c, Respects(sem, analysis));
  }

  lemma ExtendsTransitive(a: Ledger, b: Ledger, c: Ledger, sound: bool)
    requires Extends(a, b, sound) && Extends(b, c, sound)
    ensures Extends(a, c, sound)
  {
    GrowsTransitive(a.root, b.root, c.root);
  }

  lemma AdvancesTransitive(sem: Semantics, analysis: Analysis, a: Ledger, b: Ledger, c: Ledger, m: int, n: int)
    requires Advances(sem, analysis, a, b, m) && Advances(sem, analysis, b, c, n)
    ensures Advances(sem, analysis, a, c, m + n)
  {
    ExtendsTransitive(a, b, c, Respects(sem, analysis));
  }

  class EGraph {
    const analysis: Analysis
    const unionfind: UnionFind
    var memo: map<ENode, Id>
    /** Indexed by raw id; occupied exactly at representatives. */
    var classes: seq<Option<EClass>>
    var pending: seq<Id>
    var analysisPending: seq<Id>
    var nodeCount: nat
    var classCount: nat
    var byOp: map<Op, seq<Id>>
    var history: Option<seq<Edge>>
    var reason: Justification
    var clean: bool

    /** Explanations were enabled while the graph was empty. */
    ghost var traced: bool
    /** The parent list under repair, and the class it was taken from. */
    ghost var at: Id
    ghost var held: seq<Parent>
    /** Every node added, with the id returned for it. */
    ghost var log: seq<Entry>
    /** Every equation asserted by a caller or by constant folding. */
    ghost var asserted: seq<Equation>
    /** The value of the term that created each id. */
    ghost const sem: Semantics
    ghost var meaning: seq<Value>
    /** Only ids with equal values were ever declared equal, and only nodes
        vouched for were ever added. */
    ghost var faithful: bool
    /** Ids whose classes may be known constant without holding the literal, though
        the analysis is not to look at them again. */
    ghost var unfolded: seq<Id>

    ghost function View(): Graph
      reads this, unionfind
    {
      Graph(unionfind.root, classes, memo, at, held)
    }

    ghost function Account(): Ledger
      reads this, unionfind
    {
      Ledger(unionfind.root, log, asserted, meaning, faithful, classCount, traced, pending == [])
    }

    /** The ids whose classes may still have to be folded. */
    ghost function Awaited(): seq<Id>
      reads this
    {
      unfolded + analysisPending
    }

    /** The bookkeeping that holds even in the middle of a repair. */
    ghost predicate Core()
      reads this, unionfind
    {
      && unionfind.Valid()
      && Bookkept(View(), pending, Awaited(), classCount, nodeCount)
      && Recounted(traced, history, reason, unionfind.root)
    }

    ghost predicate Valid()
      reads this, unionfind
    {
      && Core()
      && held == []
      && |meaning| == |unionfind.root|
      && Settled(sem, analysis, faithful, meaning, View(), PendingSet(pending), log, asserted)
      && (clean ==> Rebuilt(View(), pending, byOp))
    }

    constructor (analysis: Analysis, ghost sem: Semantics)
      ensures Valid() && fresh(unionfind) && clean
      ensures this.analysis == analysis && this.sem == sem
      ensures unionfind.root == [] && log == [] && asserted == [] && faithful && unfolded == []
    {
      this.analysis := analysis;
      this.sem := sem;
      unionfind := new UnionFind();
      memo, classes, byOp := map[], [], map[];
      pending, analysisPending := [], [];
      nodeCount, classCount := 0, 0;
      history, reason, clean := None, Asserted, true;
      traced := false;
      at, held, log, asserted, meaning, faithful, unfolded := 0, [], [], [], [], true, [];
    }

    method EnableExplanations()
      requires Valid()
      modifies this`history, this`traced
      ensures Valid() && history.Some? && (old(history).Some? ==> history == old(history))
      ensures old(history).None? && unionfind.root == [] ==> traced
    {
      if history.None? {
        ReasonCites(traced, history, reason, unionfind.root);
        RecountedEnabled(reason, unionfind.root);
        history := Some([]);
        traced := unionfind.root == [];
      }
    }

    /** Set the reason the following unions will record. */
    method Justify(why: Justification)
      requires Valid() && Cites(unionfind.root, why)
      modifies this`reason
      ensures Valid() && reason == why && View() == old(View()) && Account() == old(Account())
    {
      RecountedBecause(traced, history, reason, why, unionfind.root);
      reason := why;
    }

    method Find(id: Id) returns (r: Id)
      requires unionfind.Valid() && id < |unionfind.root|
      ensures r == unionfind.root[id]
    {
      r := unionfind.FindImmutable(id);
    }

    method FindMut(id: Id) returns (r: Id)
      requires unionfind.Valid() && id < |unionfind.root|
      modifies unionfind`parents
      ensures unionfind.Valid() && r == unionfind.root[id]
    {
      var c, _ := unionfind.Find(id);
      r := c;
    }

    /** Rewrite the children to representatives and normalize their order. */
    method Canonicalize(node: ENode) returns (canonical: ENode)
      requires unionfind.Valid() && Below(node, |unionfind.root|)
      ensures canonical == Canon(unionfind.root, node)
    {
      var children := [];
      for k := 0 to |node.children|
        invariant |children| == k
        invariant forall j | 0 <= j < k :: children[j] == unionfind.root[node.children[j]]
      {
        var c := Find(node.children[k]);
        children := children + [c];
      }
      assert children == MapChildren(unionfind.root, node).children;
      canonical := Normalize(ENode(node.op, children));
    }

    /** The class containing the node, if the graph already has it. */
    method Lookup(node: ENode) returns (found: Option<Id>)
      requires Valid() && Below(node, |unionfind.root|)
      ensures found.Some? ==> Owns(View(), found.value, Canon(unionfind.root, node))
      ensures clean && found.None? ==> forall c: Id :: !Owns(View(), c, Canon(unionfind.root, node))
    {
      var n := Canonicalize(node);
      RootIsCoarser(View());
      CanonOfCanon(unionfind.root, unionfind.root, node);
      if n in memo {
        var r := Find(memo[n]);
        found := Some(r);
      } else {
        found := None;
        if clean {
          MissIsAbsent(View(), n);
        }
      }
    }

    /** The fact of a node, from the facts of its children's classes. */
    method Make(node: ENode) returns (fact: Fact)
      requires Core() && Below(node, |unionfind.root|)
      ensures fact == FactOf(analysis, View(), node)
    {
      var facts := [];
      for k := 0 to |node.children|
        invariant |facts| == k
        invariant forall j | 0 <= j < k :: facts[j] == FactAt(View(), node.children[j])
      {
        var c := Find(node.children[k]);
        assert Slot(View(), node.children[k]) && Slot(View(), c);
        facts := facts + [classes[c].value.data];
      }
      assert facts == ChildFacts(View(), node);
      fact := analysis.make(node.op, facts);
    }

    /** Add a node. A congruent node already present is found, not repeated. */
    method Add(node: ENode) returns (id: Id)
      requires Valid() && Below(node, |unionfind.root|)
      modifies this, unionfind
      ensures Valid() && id < |unionfind.root| && unionfind.root[id] == id
      ensures |unionfind.root| >= old(|unionfind.root|) && Below(node, |unionfind.root|)
      ensures Owns(View(), id, Canon(unionfind.root, node)) && Later(old(View()), View())
      ensures log == old(log) + [Entry(node, id)] && asserted == old(asserted)
      ensures faithful == (old(faithful) && Vouched(sem, node))
      ensures traced == old(traced)
      ensures old(Canon(unionfind.root, node) in memo) ==>
                unionfind.root == old(unionfind.root) && classes == old(classes) && memo == old(memo) &&
                meaning == old(meaning) && clean == old(clean) && classCount == old(classCount)
                && nodeCount == old(nodeCount)
      ensures pending == old(pending) && history == old(history)
      ensures old(Canon(unionfind.root, node) in memo) ==>
                View() == old(View()) && analysisPending == old(analysisPending)
      ensures old(Canon(unionfind.root, node) !in memo) ==>
                classCount == old(classCount) + 1 && nodeCount == old(nodeCount) + 1 && id == old(|unionfind.root|) &&
                unionfind.root == old(unionfind.root) + [id] && !clean && meaning == old(meaning) + [meaning[id]]
      ensures Respects(sem, analysis) && faithful ==> meaning[id] == old(Denotes(sem, meaning, node))
      ensures unfolded == old(unfolded) && old(analysisPending) <= analysisPending && Enlarged(old(View()), View())
      ensures old(Canon(unionfind.root, node) !in memo && FactFor(analysis, View(), node).constant.Some?
                  && pending == [] && analysisPending == []) ==>
                && ReadyToFold(analysis, View(), pending, analysisPending) && analysisPending == [id]
                && FactAt(View(), id) == old(FactFor(analysis, View(), node))
    {
      hide Forest, Recounted, Settled, WellFormed, Added, Rebuilt, Owns, Canon, NodeTotal, Occupied, Respects,
           Denotes, Filed, Vouched, Enlarged, ReadyToFold;
      ghost var g := View();
      var n := Canonicalize(node);
      CanonIsBelow(g, node);
      if n in memo {
        id := Find(memo[n]);
        faithful := faithful && Vouched(sem, node);
        log := log + [Entry(node, id)];
        HitStep(sem, analysis, old(faithful), meaning, g, PendingSet(pending), old(log), asserted, node, id);
        GraphIsWellFormed(g, pending, Awaited(), classCount, nodeCount);
        LaterItself(g);
        EnlargedItself(g);
        return;
      }
      id := AddNew(node, n);
    }

    /** Add a node whose canonical form is new. */
    method AddNew(node: ENode, n: ENode) returns (id: Id)
      requires Core() && held == [] && |meaning| == |unionfind.root| && Below(node, |unionfind.root|)
      requires Settled(sem, analysis, faithful, meaning, View(), PendingSet(pending), log, asserted)
      requires n == Canon(unionfind.root, node) && Below(n, |unionfind.root|) && n !in memo
      requires Canon(unionfind.root, n) == n
      modifies this`classes, this`memo, this`nodeCount, this`classCount, this`analysisPending, this`clean, this`meaning,
               this`log, this`faithful, unionfind
      ensures Valid() && id == old(|unionfind.root|) && unionfind.root == old(unionfind.root) + [id] && !clean
      ensures Below(node, |unionfind.root|) && Owns(View(), id, Canon(unionfind.root, node))
      ensures Later(old(View()), View())
      ensures log == old(log) + [Entry(node, id)] && faithful == (old(faithful) && Vouched(sem, node))
      ensures classCount == old(classCount) + 1 && nodeCount == old(nodeCount) + 1
      ensures meaning == old(meaning) + [meaning[id]]
      ensures Respects(sem, analysis) && faithful ==> meaning[id] == old(Denotes(sem, meaning, node))
      ensures analysisPending == old(analysisPending) + [id] && Enlarged(old(View()), View())
      ensures FactAt(View(), id) == old(FactFor(analysis, View(), node))
      ensures old(FactFor(analysis, View(), node).constant.Some? && pending == [] && analysisPending == []) ==>
                ReadyToFold(analysis, View(), pending, analysisPending)
    {
      hide Forest, Recounted, Settled, WellFormed, Added, Rebuilt, Owns, Canon, NodeTotal, Occupied, Respects,
           Denotes, Filed, Vouched, Enlarged, ReadyToFold, Later, FactAt, FactOf, FactFor, PendingSet, Bookkept,
           Below;
      ghost var g := View();
      GraphIsWellFormed(g, pending, Awaited(), classCount, nodeCount);
      var data := Make(n);
      id := Insert(n, data);
      AddedMeans(analysis, g, View(), node, n, data, pending, old(analysisPending), analysisPending);
      Log(node, n, data, g);
    }

    /** Record the node just added, and its value. */
    ghost method Log(node: ENode, n: ENode, data: Fact, g: Graph)
      requires Core() && held == [] && WellFormed(g) && |meaning| == |g.root| && Below(node, |g.root|) && !clean
      requires Settled(sem, analysis, faithful, meaning, g, PendingSet(pending), log, asserted)
      requires n == Canon(g.root, node) && Below(n, |g.root|) && n !in g.memo
      requires data == FactOf(analysis, g, n) && Added(g, View(), n, data)
      modifies this`meaning, this`log, this`faithful
      ensures Valid() && unionfind.root == g.root + [|g.root|] && Below(node, |unionfind.root|)
      ensures Owns(View(), |g.root|, Canon(unionfind.root, node))
      ensures log == old(log) + [Entry(node, |g.root|)] && faithful == (old(faithful) && Vouched(sem, node))
      ensures meaning == old(meaning) + [meaning[|g.root|]]
      ensures Respects(sem, analysis) && faithful ==> meaning[|g.root|] == old(Denotes(sem, meaning, node))
    {
      hide Forest, Recounted, Settled, WellFormed, Added, Rebuilt, Owns, Canon, Respects, Denotes, Vouched, FactOf,
           PendingSet, Bookkept;
      MissStep(sem, analysis, faithful, meaning, g, View(), PendingSet(pending), log, asserted, node, data);
      faithful := faithful && Vouched(sem, node);
      meaning := meaning + [Denotes(sem, meaning, n)];
      log := log + [Entry(node, |g.root|)];
    }

    /** Give a canonical node a class of its own. */
    method Insert(n: ENode, data: Fact) returns (id: Id)
      requires Core() && Below(n, |unionfind.root|) && held == []
      modifies this`classes, this`memo, this`nodeCount, this`classCount, this`analysisPending, this`clean, unionfind
      ensures Core() && Added(old(View()), View(), n, data) && id == old(|unionfind.root|) && !clean
      ensures classCount == old(classCount) + 1 && nodeCount == old(nodeCount) + 1
      ensures analysisPending == old(analysisPending) + [id]
    {
      hide Forest, Occupied, NodeTotal, Recounted, Bookkept, WellFormed;
      ghost var g := View();
      GraphIsWellFormed(g, pending, Awaited(), classCount, nodeCount);
      ChildClassesExist(g, n);
      id := unionfind.MakeSet();
      classes := classes + [Some(EClass(id, [n], data, []))];
      ListAsParent(Parent(n, id), g.root);
      memo := memo[n := id];
      nodeCount := nodeCount + 1;
      classCount := classCount + 1;
      analysisPending := analysisPending + [id];
      clean := false;
      RecountedAdd(traced, history, reason, g.root);
      assert Awaited() == old(Awaited()) + [id];
      AddBookkept(g, View(), pending, old(Awaited()), old(classCount), old(nodeCount), n, data);
    }

    /** Record a node as a parent of the class of each of its children. */
    method ListAsParent(entry: Parent, ghost root: seq<Id>)
      requires unionfind.Valid() && |classes| == |unionfind.root|
      requires Below(entry.node, |root|) && |root| <= |unionfind.root|
      requires forall k | 0 <= k < |entry.node.children| ::
                 root[entry.node.children[k]] == unionfind.root[entry.node.children[k]]
      requires forall k | 0 <= k < |entry.node.children| ::
                 root[entry.node.children[k]] < |classes| && classes[root[entry.node.children[k]]].Some?
      modifies this`classes
      ensures Pushed(root, old(classes), classes, entry, |entry.node.children|)
    {
      for k := 0 to |entry.node.children|
        invariant Pushed(root, old(classes), classes, entry, k)
      {
        ghost var before := classes;
        var c := Find(entry.node.children[k]);
        assert PushedAt(root, old(classes)[c], classes[c], entry, k, c);
        classes := classes[c := Some(classes[c].value.(parents := classes[c].value.parents + [entry]))];
        PushOne(root, old(classes), before, classes, entry, k);
      }
    }

    /** Merge the classes of two ids, leaving the survivor pending. */
    method Unite(a: Id, b: Id) returns (changed: bool, ghost ra: Id, ghost rb: Id)
      requires Core() && a < |unionfind.root| && b < |unionfind.root|
      modifies this`classes, this`pending, this`analysisPending, this`classCount, this`clean, this`history, unionfind
      ensures Core() && |unionfind.root| == old(|unionfind.root|)
      ensures changed <==> old(unionfind.root[a]) != old(unionfind.root[b])
      ensures !changed ==> View() == old(View()) && pending == old(pending) && history == old(history)
                           && clean == old(clean) && classCount == old(classCount)
                           && analysisPending == old(analysisPending)
      ensures changed ==> Pair(ra, rb, old(unionfind.root[a]), old(unionfind.root[b])) && Joinable(old(View()), ra, rb)
      ensures changed ==> View() == Joined(old(View()), ra, rb,
                                           analysis.merge(old(classes)[ra].value.data, old(classes)[rb].value.data))
      ensures changed ==> pending == old(pending) + [ra] && classCount == old(classCount) - 1 && !clean
      ensures changed ==>
                analysisPending == Told(old(analysisPending), ra, old(classes)[ra].value.data,
                                        analysis.merge(old(classes)[ra].value.data, old(classes)[rb].value.data))
    {
      hide Forest, Occupied, NodeTotal, Recounted, WellFormed, Members, Bookkept;
      ghost var g := View();
      RootsJoin(g, pending, Awaited(), classCount, nodeCount, a, b);
      var x := FindMut(a);
      var y := FindMut(b);
      if x == y {
        return false, x, y;
      }
      changed := true;
      ra, rb := Absorb(x, y);
    }

    /** Merge two representatives: the larger class absorbs the other. */
    method Absorb(x: Id, y: Id) returns (root: Id, absorbed: Id)
      requires Core() && x < |unionfind.root| && y < |unionfind.root| && x != y
      requires unionfind.root[x] == x && unionfind.root[y] == y
      requires Joinable(View(), x, y) && Joinable(View(), y, x) && |classes| == |unionfind.root| && classCount >= 1
      modifies this`classes, this`pending, this`analysisPending, this`classCount, this`clean, this`history, unionfind
      ensures Core() && |unionfind.root| == old(|unionfind.root|)
      ensures Pair(root, absorbed, x, y) && Joinable(old(View()), root, absorbed)
      ensures View() == Joined(old(View()), root, absorbed,
                               analysis.merge(old(classes)[root].value.data, old(classes)[absorbed].value.data))
      ensures pending == old(pending) + [root] && classCount == old(classCount) - 1 && !clean
      ensures analysisPending == Told(old(analysisPending), root, old(classes)[root].value.data,
                                      analysis.merge(old(classes)[root].value.data, old(classes)[absorbed].value.data))
    {
      hide Forest, Recounted, WellFormed, Members, Bookkept, Merged, Joinable, Coarsens, Joined, Told;
      ghost var g := View();
      JoinableClasses(g, x, y);
      root, absorbed := unionfind.Union(x, y);
      MergedCoarsens(g, root, absorbed);
      var edge := Edge(x, y, reason);
      RecountedUnion(traced, history, reason, g.root, root, absorbed, edge);
      MoveClass(root, absorbed, g);
      if history.Some? {
        history := Some(history.value + [edge]);
      }
    }

    /** Move the nodes and the parents of an absorbed class. */
    method MoveClass(root: Id, absorbed: Id, ghost g: Graph)
      requires Bookkept(g, pending, Awaited(), classCount, nodeCount) && Joinable(g, root, absorbed) && classCount >= 1
      requires unionfind.root == Merged(g.root, root, absorbed) && View() == g.(root := unionfind.root)
      requires root < |classes| && absorbed < |classes| && classes[root].Some? && classes[absorbed].Some?
      modifies this`classes, this`pending, this`analysisPending, this`classCount, this`clean
      ensures View() == Joined(g, root, absorbed,
                               analysis.merge(g.classes[root].value.data, g.classes[absorbed].value.data))
      ensures Bookkept(View(), pending, Awaited(), classCount, nodeCount)
      ensures pending == old(pending) + [root] && classCount == old(classCount) - 1 && !clean
      ensures analysisPending == Told(old(analysisPending), root, g.classes[root].value.data,
                                      analysis.merge(g.classes[root].value.data, g.classes[absorbed].value.data))
    {
      hide Bookkept, Merged, Joinable, JoinClasses;
      var other := classes[absorbed].value;
      var oldData := classes[root].value.data;
      var merged := analysis.merge(oldData, other.data);
      JoinBookkept(g, pending, Awaited(), classCount, nodeCount, root, absorbed, merged);
      classes := classes[absorbed := None][root := Some(JoinClasses(classes[root].value, other, merged))];
      pending := pending + [root];
      if merged != oldData {
        analysisPending := analysisPending + [root];
      }
      classCount := classCount - 1;
      clean := false;
      assert Awaited() == if merged != oldData then old(Awaited()) + [root] else old(Awaited());
    }

    /** Unite for one specific reason, restoring the previous one. */
    method UniteBecause(a: Id, b: Id, why: Justification) returns (changed: bool, ghost ra: Id, ghost rb: Id)
      requires Core() && a < |unionfind.root| && b < |unionfind.root| && Cites(unionfind.root, why)
      modifies this`classes, this`pending, this`analysisPending, this`classCount, this`clean, this`history,
               this`reason, unionfind
      ensures Core() && |unionfind.root| == old(|unionfind.root|)
      ensures changed <==> old(unionfind.root[a]) != old(unionfind.root[b])
      ensures !changed ==> View() == old(View()) && pending == old(pending) && history == old(history)
                           && clean == old(clean) && classCount == old(classCount)
      ensures changed ==> Pair(ra, rb, old(unionfind.root[a]), old(unionfind.root[b])) && Joinable(old(View()), ra, rb)
      ensures changed ==> View() == Joined(old(View()), ra, rb,
                                           analysis.merge(old(classes)[ra].value.data, old(classes)[rb].value.data))
      ensures changed ==> pending == old(pending) + [ra] && classCount == old(classCount) - 1 && !clean
      ensures reason == old(reason)
    {
      hide Forest, Occupied, NodeTotal, Recounted, WellFormed, Bookkept, Merged, Joinable, Joined, Coarsens, Cites;
      var previous := reason;
      ghost var g := View();
      ReasonCites(traced, history, reason, unionfind.root);
      RecountedBecause(traced, history, reason, why, unionfind.root);
      reason := why;
      changed, ra, rb := Unite(a, b);
      if changed {
        JoinableClasses(g, ra, rb);
        JoinWellFormed(g, ra, rb, analysis.merge(g.classes[ra].value.data, g.classes[rb].value.data));
        CitesCoarser(unionfind.root, g.root, previous);
      }
      RecountedBecause(traced, history, why, previous, unionfind.root);
      reason := previous;
    }

    /** Declare two ids equal. The graph is left dirty. */
    method Union(a: Id, b: Id) returns (changed: bool)
      requires Valid() && a < |unionfind.root| && b < |unionfind.root|
      modifies this, unionfind
      ensures Valid() && |unionfind.root| == old(|unionfind.root|)
      ensures unionfind.root[a] == unionfind.root[b]
      ensures changed <==> old(unionfind.root[a]) != old(unionfind.root[b])
      ensures !changed ==> View() == old(View()) && pending == old(pending) && clean == old(clean)
                           && analysisPending == old(analysisPending)
      ensures Coarsens(unionfind.root, old(unionfind.root))
      ensures log == old(log) && asserted == old(asserted) + [Equation(a, b)]
      ensures meaning == old(meaning) && faithful == (old(faithful) && meaning[a] == meaning[b])
      ensures traced == old(traced) && reason == old(reason) && nodeCount == old(nodeCount)
      ensures classCount == old(classCount) - (if changed then 1 else 0) && Later(old(View()), View())
      ensures unfolded == old(unfolded) && old(analysisPending) <= analysisPending
      ensures old(WellFormed(View())) && WellFormed(View())
      ensures || Pends(View(), analysisPending, unionfind.root[a]) || FactAt(View(), a) == old(FactAt(View(), a))
              || (old(unionfind.root[a]) != old(unionfind.root[b]) && FactAt(View(), a) == old(FactAt(View(), b)))
    {
      hide Forest, Settled, Recounted, Rebuilt, NodeTotal, Occupied, WellFormed, Joinable, Joined, Coarsens,
           Bookkept, Canon, Later, Pends, FactAt, Told, JoinClasses, Merged, PendingSet;
      ghost var g := View();
      GraphIsWellFormed(g, pending, Awaited(), classCount, nodeCount);
      asserted := asserted + [Equation(a, b)];
      faithful := faithful && meaning[a] == meaning[b];
      ghost var ra, rb;
      changed, ra, rb := Unite(a, b);
      if changed {
        UnionStep(sem, analysis, old(faithful), meaning, g, PendingSet(old(pending)), log, old(asserted), a, b, ra, rb);
        OneMorePending(old(pending), ra);
        JoinableClasses(g, ra, rb);
        UnionTells(analysis, g, ra, rb, a, b, old(analysisPending), analysisPending);
      } else {
        LaterItself(g);
        EqualStep(sem, analysis, old(faithful), meaning, g, PendingSet(pending), log, old(asserted), a, b);
      }
    }

    /** Declare two ids equal for one specific reason, restoring the previous one. */
    method UnionBecause(a: Id, b: Id, why: Justification) returns (changed: bool)
      requires Valid() && a < |unionfind.root| && b < |unionfind.root| && Cites(unionfind.root, why)
      modifies this, unionfind
      ensures Valid() && |unionfind.root| == old(|unionfind.root|)
      ensures unionfind.root[a] == unionfind.root[b]
      ensures Coarsens(unionfind.root, old(unionfind.root))
      ensures log == old(log) && asserted == old(asserted) + [Equation(a, b)]
      ensures meaning == old(meaning) && faithful == (old(faithful) && meaning[a] == meaning[b])
      ensures traced == old(traced) && reason == old(reason) && Later(old(View()), View())
      ensures unfolded == old(unfolded) && old(analysisPending) <= analysisPending
      ensures old(WellFormed(View())) && WellFormed(View())
      ensures || Pends(View(), analysisPending, unionfind.root[a]) || FactAt(View(), a) == old(FactAt(View(), a))
              || (old(unionfind.root[a]) != old(unionfind.root[b]) && FactAt(View(), a) == old(FactAt(View(), b)))
    {
      hide Forest, Settled, Recounted, Rebuilt, NodeTotal, Occupied, WellFormed, Coarsens, Bookkept, Later, Pends,
           FactAt;
      var previous := reason;
      ghost var root := unionfind.root;
      ReasonCites(traced, history, reason, unionfind.root);
      Justify(why);
      changed := Union(a, b);
      CitesCoarser(unionfind.root, root, previous);
      Justify(previous);
    }

    /** Restore congruence for every node that refers to the class of `start`.
        `rest` is what is still to be repaired besides the worklist. */
    method Repair(start: Id, ghost rest: set<Id>) returns (unions: nat)
      requires Core() && held == [] && start < |unionfind.root|
      requires Settled(sem, analysis, faithful, meaning, View(), PendingSet(pending) + rest + {start}, log, asserted)
      modifies this`classes, this`memo, this`pending, this`analysisPending, this`classCount, this`clean,
               this`history, this`reason, this`at, this`held, unionfind
      ensures Core() && held == [] && |unionfind.root| == old(|unionfind.root|)
      ensures Settled(sem, analysis, faithful, meaning, View(), PendingSet(pending) + rest, log, asserted)
      ensures Coarsens(unionfind.root, old(unionfind.root)) && reason == old(reason)
      ensures unions == old(classCount) - classCount && (unions == 0 ==> pending == old(pending))
      ensures old(!clean) ==> !clean
    {
      hide Forest, Settled, MidRepair, Recounted, Bookkept, Coarsens, PendingSet, WellFormed;
      var id, parents := TakeParents(start, rest);
      var seen;
      seen, unions := MergeCongruent(parents, rest);
      ReturnParents(id, seen, rest);
    }

    /** Take the parent list of a class, and drop the stale hashcons keys. */
    method TakeParents(start: Id, ghost rest: set<Id>) returns (id: Id, parents: seq<Parent>)
      requires Core() && held == [] && start < |unionfind.root|
      requires Settled(sem, analysis, faithful, meaning, View(), PendingSet(pending) + rest + {start}, log, asserted)
      modifies this`classes, this`memo, this`at, this`held, unionfind`parents
      ensures Core() && held == parents && at == id < |unionfind.root| && unionfind.root == old(unionfind.root)
      ensures MidRepair(sem, analysis, faithful, meaning, View(), PendingSet(pending) + rest, log, asserted, map[], 0)
    {
      hide Forest, Settled, MidRepair, Recounted, PendingSet, WellFormed, Bookkept;
      ghost var g := View();
      ghost var P := PendingSet(pending) + rest;
      GraphIsWellFormed(g, pending, Awaited(), classCount, nodeCount);
      id := FindMut(start);
      BeginStep(sem, analysis, faithful, meaning, g, P, start, log, asserted);
      parents := classes[id].value.parents;
      classes := classes[id := Some(classes[id].value.(parents := []))];
      at, held := id, parents;
      MidRepairIsWellFormed(sem, analysis, faithful, meaning, View(), P, log, asserted, map[], 0);
      BookkeptReparented(g, View(), pending, Awaited(), classCount, nodeCount, id, []);
      DropKeys(parents, rest);
    }

    /** Drop the hashcons keys of the parents under repair. */
    method DropKeys(parents: seq<Parent>, ghost rest: set<Id>)
      requires Core() && held == parents
      requires MidRepair(sem, analysis, faithful, meaning, View(), PendingSet(pending) + rest, log, asserted, map[], 0)
      modifies this`memo
      ensures Core()
      ensures MidRepair(sem, analysis, faithful, meaning, View(), PendingSet(pending) + rest, log, asserted, map[], 0)
    {
      hide Forest, Settled, MidRepair, Recounted, PendingSet, WellFormed, Bookkept;
      ghost var P := PendingSet(pending) + rest;
      for i := 0 to |parents|
        invariant Core()
        invariant MidRepair(sem, analysis, faithful, meaning, View(), P, log, asserted, map[], 0)
      {
        ghost var before := View();
        DropStep(sem, analysis, faithful, meaning, before, P, log, asserted, parents[i]);
        memo := memo - {parents[i].node};
        assert View() == before.(memo := before.memo - {parents[i].node});
        MidRepairIsWellFormed(sem, analysis, faithful, meaning, View(), P, log, asserted, map[], 0);
        BookkeptRefiled(before, View(), pending, Awaited(), classCount, nodeCount);
      }
    }

    /** Re-canonicalize the parents taken, merging the owners of any two that
        have become congruent. */
    method MergeCongruent(parents: seq<Parent>, ghost rest: set<Id>) returns (seen: map<ENode, Id>, unions: nat)
      requires Core() && held == parents
      requires MidRepair(sem, analysis, faithful, meaning, View(), PendingSet(pending) + rest, log, asserted, map[], 0)
      modifies this`classes, this`memo, this`pending, this`analysisPending, this`classCount, this`clean,
               this`history, this`reason, unionfind
      ensures Core() && |unionfind.root| == old(|unionfind.root|)
      ensures MidRepair(sem, analysis, faithful, meaning, View(), PendingSet(pending) + rest, log, asserted, seen,
                        |parents|)
      ensures Coarsens(unionfind.root, old(unionfind.root)) && reason == old(reason)
      ensures unions == old(classCount) - classCount && (unions == 0 ==> pending == old(pending))
      ensures old(!clean) ==> !clean
    {
      hide Forest, MidRepair, Recounted, Bookkept, Coarsens, PendingSet, WellFormed, StoredForms;
      ghost var root := unionfind.root;
      CoarsensItself(View(), pending, Awaited(), classCount, nodeCount);
      var stored: map<ENode, ENode> := map[];
      seen, unions := map[], 0;
      StoredNothing(unionfind.root);
      for i := 0 to |parents|
        invariant Core() && held == parents && seen.Keys == stored.Keys && reason == old(reason)
        invariant StoredForms(unionfind.root, stored)
        invariant MidRepair(sem, analysis, faithful, meaning, View(), PendingSet(pending) + rest, log, asserted, seen,
                            i)
        invariant |unionfind.root| == |root| && Coarsens(unionfind.root, root)
        invariant unions == old(classCount) - classCount && (unions == 0 ==> pending == old(pending))
        invariant old(!clean) ==> !clean
      {
        var changed;
        ghost var before := unionfind.root;
        seen, stored, changed := SeeParent(parents[i], seen, stored, i, rest);
        CoarsensTransitive(unionfind.root, before, root);
        if changed {
          unions := unions + 1;
        }
      }
    }

    /** One parent of the class under repair. */
    method SeeParent(p: Parent, seen0: map<ENode, Id>, stored0: map<ENode, ENode>, ghost done: nat, ghost rest: set<Id>)
      returns (seen: map<ENode, Id>, stored: map<ENode, ENode>, changed: bool)
      requires Core() && done < |held| && p == held[done] && seen0.Keys == stored0.Keys
      requires StoredForms(unionfind.root, stored0)
      requires MidRepair(sem, analysis, faithful, meaning, View(), PendingSet(pending) + rest, log, asserted, seen0,
                         done)
      modifies this`classes, this`memo, this`pending, this`analysisPending, this`classCount, this`clean,
               this`history, this`reason, unionfind
      ensures Core() && |unionfind.root| == old(|unionfind.root|) && seen.Keys == stored.Keys && reason == old(reason)
      ensures StoredForms(unionfind.root, stored)
      ensures MidRepair(sem, analysis, faithful, meaning, View(), PendingSet(pending) + rest, log, asserted, seen,
                        done + 1)
      ensures Coarsens(unionfind.root, old(unionfind.root))
      ensures classCount == old(classCount) - (if changed then 1 else 0) && (!changed ==> pending == old(pending))
      ensures old(!clean) ==> !clean
    {
      hide Forest, MidRepair, Recounted, Bookkept, WellFormed, FormOf, Coarsens, StoredForms, Cites, Canon;
      ghost var g := View();
      ParentForm(sem, analysis, faithful, meaning, g, PendingSet(pending) + rest, log, asserted, seen0, done, p);
      CoarsensItself(g, pending, Awaited(), classCount, nodeCount);
      var node := Canonicalize(p.node);
      var owner := FindMut(p.owner);
      stored, changed := stored0, false;
      if node in seen0 {
        StoredCites(g.root, stored0, node, p.node);
        changed := MergeOwners(node, owner, p, seen0, stored0, done, rest);
        owner := FindMut(owner);
        StoredCoarser(unionfind.root, g.root, stored0);
      } else {
        StoredNext(g.root, stored0, node, p.node);
        stored := stored[node := p.node];
      }
      seen := FileForm(node, owner, p, seen0, done, rest);
    }

    /** File a form under its owner. */
    method FileForm(node: ENode, owner: Id, ghost p: Parent, seen0: map<ENode, Id>, ghost done: nat,
                    ghost rest: set<Id>)
      returns (seen: map<ENode, Id>)
      requires Core() && done < |held| && p == held[done] && p.owner < |unionfind.root|
      requires MidRepair(sem, analysis, faithful, meaning, View(), PendingSet(pending) + rest, log, asserted, seen0,
                         done)
      requires FormOf(View(), PendingSet(pending) + rest, p, node)
      requires owner < |unionfind.root| && unionfind.root[owner] == owner && unionfind.root[p.owner] == owner
      requires node in seen0 ==> seen0[node] < |unionfind.root| && unionfind.root[seen0[node]] == owner
      modifies this`memo
      ensures Core() && seen == seen0[node := owner]
      ensures MidRepair(sem, analysis, faithful, meaning, View(), PendingSet(pending) + rest, log, asserted, seen,
                        done + 1)
    {
      hide Forest, MidRepair, Recounted, Bookkept, WellFormed, FormOf, Coarsens;
      ghost var now := View();
      SeeStep(sem, analysis, faithful, meaning, now, PendingSet(pending) + rest, log, asserted, seen0, done, node,
              owner);
      seen := seen0[node := owner];
      memo := memo[node := owner];
      MidRepairIsWellFormed(sem, analysis, faithful, meaning, View(), PendingSet(pending) + rest, log, asserted,
                            seen, done + 1);
      BookkeptRefiled(now, View(), pending, Awaited(), classCount, nodeCount);
    }

    /** Two parents have one canonical form: merge their owners. */
    method MergeOwners(node: ENode, owner: Id, p: Parent, seen: map<ENode, Id>, stored: map<ENode, ENode>,
                       ghost done: nat, ghost rest: set<Id>) returns (changed: bool)
      requires Core() && done < |held| && p == held[done] && node in seen && node in stored
      requires p.owner < |unionfind.root|
      requires MidRepair(sem, analysis, faithful, meaning, View(), PendingSet(pending) + rest, log, asserted, seen,
                         done)
      requires FormOf(View(), PendingSet(pending) + rest, p, node) && seen[node] < |unionfind.root|
      requires owner == unionfind.root[p.owner] < |unionfind.root| && unionfind.root[owner] == owner
      requires Cites(unionfind.root, Congruence(stored[node], p.node))
      modifies this`classes, this`pending, this`analysisPending, this`classCount, this`clean,
               this`history, this`reason, unionfind
      ensures Core() && |unionfind.root| == old(|unionfind.root|) && reason == old(reason)
      ensures MidRepair(sem, analysis, faithful, meaning, View(), PendingSet(pending) + rest, log, asserted, seen, done)
      ensures FormOf(View(), PendingSet(pending) + rest, p, node) && Coarsens(unionfind.root, old(unionfind.root))
      ensures unionfind.root[owner] < |unionfind.root| && unionfind.root[unionfind.root[owner]] == unionfind.root[owner]
      ensures unionfind.root[p.owner] == unionfind.root[owner] == unionfind.root[seen[node]]
      ensures classCount == old(classCount) - (if changed then 1 else 0) && (!changed ==> pending == old(pending))
      ensures old(!clean) ==> !clean
    {
      hide Forest, MidRepair, Recounted, Bookkept, WellFormed, FormOf, Coarsens;
      ghost var g := View();
      ghost var P := PendingSet(pending) + rest;
      CoarsensItself(g, pending, Awaited(), classCount, nodeCount);
      ghost var ra, rb;
      changed, ra, rb := UniteBecause(seen[node], owner, Congruence(stored[node], p.node));
      if changed {
        CongruenceStep(sem, analysis, faithful, meaning, g, P, log, asserted, seen, done, p, node, ra, rb);
        assert PendingSet(pending) + rest == P + {ra};
      }
    }

    /** The class gets the forms seen as its parents. */
    method ReturnParents(id: Id, seen: map<ENode, Id>, ghost rest: set<Id>)
      requires Core() && at == id < |unionfind.root|
      requires MidRepair(sem, analysis, faithful, meaning, View(), PendingSet(pending) + rest, log, asserted, seen,
                         |held|)
      modifies this`classes, this`held, unionfind`parents
      ensures Core() && held == [] && unionfind.root == old(unionfind.root)
      ensures Settled(sem, analysis, faithful, meaning, View(), PendingSet(pending) + rest, log, asserted)
    {
      hide Forest, MidRepair, Recounted, PendingSet, Settled;
      ghost var g := View();
      var root := FindMut(id);
      var listed := ListSeen(seen);
      assert Slot(g, id) && Slot(g, root);
      classes := classes[root := Some(classes[root].value.(parents := classes[root].value.parents + listed))];
      held := [];
      assert Released(g, View(), seen);
      EndRepair(sem, analysis, faithful, meaning, g, View(), PendingSet(pending) + rest, log, asserted, seen);
      SettledIsWellFormed(sem, analysis, faithful, meaning, View(), PendingSet(pending) + rest, log, asserted);
      BookkeptReparented(g, View(), pending, Awaited(), classCount, nodeCount, root, classes[root].value.parents);
    }

    /** Repair pending classes until none are left. Every further round is paid
        for with a class, so this ends. */
    method RestoreCongruence() returns (unions: nat)
      requires Valid()
      modifies this`classes, this`memo, this`pending, this`analysisPending, this`classCount, this`clean,
               this`history, this`reason, this`at, this`held, unionfind
      ensures Valid() && |unionfind.root| == old(|unionfind.root|) && pending == []
      ensures Coarsens(unionfind.root, old(unionfind.root)) && reason == old(reason)
      ensures unions == old(classCount) - classCount
      ensures old(pending) == [] ==>
                unions == 0 && View() == old(View()) && clean == old(clean) && analysisPending == old(analysisPending)
    {
      hide Forest, Settled, Recounted, Bookkept, Coarsens, WellFormed;
      ghost var root := unionfind.root;
      CoarsensItself(View(), pending, Awaited(), classCount, nodeCount);
      unions := 0;
      while pending != []
        invariant old(pending) == [] ==>
                    && pending == [] && unions == 0 && View() == old(View()) && clean == old(clean)
                    && analysisPending == old(analysisPending)
        invariant Core() && held == [] && reason == old(reason)
        invariant Settled(sem, analysis, faithful, meaning, View(), PendingSet(pending), log, asserted)
        invariant |unionfind.root| == |root| && Coarsens(unionfind.root, root)
        invariant unions == old(classCount) - classCount
        invariant clean ==> Rebuilt(View(), pending, byOp)
        decreases classCount, |pending|
      {
        ghost var before := unionfind.root;
        var n := RepairRound();
        CoarsensTransitive(unionfind.root, before, root);
        unions := unions + n;
      }
    }

    /** Repair each class that was pending, once. */
    method RepairRound() returns (unions: nat)
      requires Core() && held == []
      requires Settled(sem, analysis, faithful, meaning, View(), PendingSet(pending), log, asserted)
      modifies this`classes, this`memo, this`pending, this`analysisPending, this`classCount, this`clean,
               this`history, this`reason, this`at, this`held, unionfind
      ensures Core() && held == [] && |unionfind.root| == old(|unionfind.root|)
      ensures Settled(sem, analysis, faithful, meaning, View(), PendingSet(pending), log, asserted)
      ensures Coarsens(unionfind.root, old(unionfind.root)) && reason == old(reason)
      ensures unions == old(classCount) - classCount && (unions == 0 ==> pending == []) && (old(!clean) ==> !clean)
    {
      hide Forest, Settled, Recounted, Coarsens, WellFormed;
      ghost var root := unionfind.root;
      CoarsensItself(View(), pending, Awaited(), classCount, nodeCount);
      var todo := TakePending();
      unions := 0;
      assert PendingSet(pending) + PendingSet(todo[0..]) == PendingSet(todo);
      for i := 0 to |todo|
        invariant Core() && held == [] && reason == old(reason)
        invariant forall t | t in todo :: t < |root|
        invariant Settled(sem, analysis, faithful, meaning, View(), PendingSet(pending) + PendingSet(todo[i..]), log,
                          asserted)
        invariant |unionfind.root| == |root| && Coarsens(unionfind.root, root)
        invariant unions == old(classCount) - classCount && (unions == 0 ==> pending == []) && (old(!clean) ==> !clean)
      {
        ghost var before := unionfind.root;
        ghost var rest := PendingSet(todo[i + 1..]);
        assert todo[i..] == [todo[i]] + todo[i + 1..];
        assert PendingSet(pending) + PendingSet(todo[i..]) == PendingSet(pending) + rest + {todo[i]};
        assert todo[i] in todo;
        var n := Repair(todo[i], rest);
        CoarsensTransitive(unionfind.root, before, root);
        unions := unions + n;
      }
      assert PendingSet(pending) + PendingSet(todo[|todo|..]) == PendingSet(pending);
    }

    /** Empty the worklist into a sorted list of representatives. */
    method TakePending() returns (todo: seq<Id>)
      requires Core() && held == []
      requires Settled(sem, analysis, faithful, meaning, View(), PendingSet(pending), log, asserted)
      modifies this`pending, unionfind`parents
      ensures Core() && pending == [] && unionfind.root == old(unionfind.root)
      ensures forall t | t in todo :: t < |unionfind.root|
      ensures Settled(sem, analysis, faithful, meaning, View(), PendingSet(todo), log, asserted)
    {
      hide Forest, Settled, Recounted, NodeTotal, Occupied;
      var found := [];
      for i := 0 to |pending|
        invariant Core() && pending == old(pending) && unionfind.root == old(unionfind.root)
        invariant |found| == i
        invariant forall j | 0 <= j < i :: pending[j] < |unionfind.root| && found[j] == unionfind.root[pending[j]]
      {
        assert pending[i] in pending;
        var r := FindMut(pending[i]);
        found := found + [r];
      }
      todo := SortIds(found);
      ghost var roots := unionfind.root;
      RootsInRange(View());
      forall p | p in pending
        ensures roots[p] in todo
      {
        var j :| 0 <= j < |pending| && pending[j] == p;
        assert found[j] in found;
      }
      forall t | t in todo
        ensures t < |roots|
      {
        var j :| 0 <= j < |found| && found[j] == t;
      }
      TodoStep(sem, analysis, faithful, meaning, View(), pending, todo, log, asserted);
      pending := [];
    }

    /** Recompute facts until nothing is queued or the fuel runs out, returning
        the classes whose fact moved and those pending. With fuel to spare every
        class pending was recomputed, and nothing is left to do but in classes that
        use themselves and in classes nobody was told of. */
    method PropagateAnalysis() returns (moved: seq<Id>, ghost visited: seq<Id>, ghost lost: seq<Id>)
      requires Valid()
      modifies this`classes, this`analysisPending, this`unfolded, unionfind`parents
      ensures Valid() && unionfind.root == old(unionfind.root) && analysisPending == [] && old(WellFormed(View()))
      ensures Propagated(old(View()), old(analysisPending), visited, moved, old(unfolded), lost)
      ensures old(analysisPending) == [] ==>
                visited == [] && moved == [] && View() == old(View()) && unfolded == old(unfolded) && lost == unfolded
    {
      hide Forest, Settled, Recounted, NodeTotal, Occupied, WellFormed, Rebuilt, Bookkept, AllAccounted, Settles,
           Moved, Pends, Returned, Refreshed, AllPrompted;
      if analysisPending != [] {
        moved, visited, lost := PropagateAll();
        return;
      }
      ghost var g := View();
      GraphIsWellFormed(g, pending, Awaited(), classCount, nodeCount);
      WaitingInRange(g, pending, Awaited(), classCount, nodeCount);
      PropagateStarts(analysis, g, []);
      ReturnedStarts(analysis, g, [], []);
      ReturnedEnds(analysis, g, [], [], (set s: Id | s in []), []);
      PropagateEnds(analysis, g, [], [], g, (set s: Id | s in []));
      NoneArePrompted(g, []);
      assert unfolded + [] == unfolded;
      moved, visited, lost := [], [], unfolded;
    }

    /** What a propagation has done: `lost` are the ids that waited and were not
        looked at, beyond those that nobody was to look at before only if the fuel
        was spent. */
    ghost predicate Propagated(g0: Graph, waiting: seq<Id>, visited: seq<Id>, moved: seq<Id>, unfolded0: seq<Id>,
                               lost: seq<Id>)
      requires WellFormed(g0)
      reads this, unionfind
    {
      && WellFormed(View()) && unionfind.root == g0.root
      && AllPrompted(g0, waiting, visited) && (waiting != [] ==> visited != [])
      && (forall c | c in visited :: IsClass(g0, c)) && View() == Refreshed(analysis, g0, visited)
      && (forall c :: c in moved <==> c in Moved(analysis, g0, waiting, visited))
      && unfolded == lost + moved
      && (forall c | c in moved :: c < |unionfind.root|) && (forall w | w in lost :: w < |unionfind.root|)
      && |visited| <= ANALYSIS_POPS_PER_CLASS * classCount + 1024
      && (|visited| < ANALYSIS_POPS_PER_CLASS * classCount + 1024 ==>
            && lost == unfolded0 && Settles(analysis, g0, waiting, View())
            && forall c | Pends(g0, waiting, c) :: c in moved)
    }

    method PropagateAll() returns (moved: seq<Id>, ghost visited: seq<Id>, ghost lost: seq<Id>)
      requires Valid() && analysisPending != []
      modifies this`classes, this`analysisPending, this`unfolded, unionfind`parents
      ensures Valid() && unionfind.root == old(unionfind.root) && analysisPending == [] && old(WellFormed(View()))
      ensures Propagated(old(View()), old(analysisPending), visited, moved, old(unfolded), lost)
    {
      hide Forest, Settled, Recounted, NodeTotal, Occupied, WellFormed, Rebuilt, Bookkept, AllAccounted, Settles,
           Moved, Pends, Returned, Refreshed, AllPrompted, Prompted, SameNodes;
      ghost var g0 := View();
      visited := [];
      GraphIsWellFormed(g0, pending, Awaited(), classCount, nodeCount);
      WaitingInRange(g0, pending, Awaited(), classCount, nodeCount);
      assert forall w | w in unfolded :: w in Awaited();
      var queue: seq<Id> := TakeAnalysisPending();
      ghost var seeds, waiting := queue, old(analysisPending);
      assert waiting[0] in waiting;
      var forced: set<Id> := set q | q in queue;
      var inQueue: set<Id> := forced;
      moved := [];
      var fuel: nat := ANALYSIS_POPS_PER_CLASS * classCount + 1024;
      PropagateStarts(analysis, g0, seeds);
      ReturnedStarts(analysis, g0, waiting, seeds);
      NoneArePrompted(g0, waiting);
      PendingArePrompted(g0, waiting, seeds);
      SameNodesItself(g0);
      while queue != [] && fuel != 0
        invariant Valid() && analysisPending == [] && forall p | p in inQueue :: p in queue
        invariant Propagating(g0, waiting, seeds, visited, queue, forced, moved)
        invariant forall x | x in unfolded :: x in old(unfolded) + waiting || x in moved
        invariant visited == [] ==> queue != []
        invariant fuel + |visited| == ANALYSIS_POPS_PER_CLASS * classCount + 1024
        decreases fuel
      {
        fuel := fuel - 1;
        assert queue[|queue| - 1] in queue;
        var id := FindMut(queue[|queue| - 1]);
        queue, inQueue, forced, moved := Visit(id, queue, inQueue, forced, moved, g0, waiting, seeds, visited);
        visited := visited + [id];
      }
      ReturnedEnds(analysis, g0, waiting, visited, forced, moved);
      moved := SortIds(moved);
      lost := EndPropagation(g0, waiting, seeds, visited, queue, forced, moved, old(unfolded));
    }

    ghost method EndPropagation(g0: Graph, waiting: seq<Id>, seeds: seq<Id>, visited: seq<Id>, queue: seq<Id>,
                                forced: set<Id>, moved: seq<Id>, unfolded0: seq<Id>) returns (lost: seq<Id>)
      requires Valid() && analysisPending == [] && WellFormed(g0) && WellFormed(View()) && unionfind.root == g0.root
      requires AllPrompted(g0, waiting, visited) && AllAccounted(analysis, g0, seeds, View(), queue, forced)
      requires visited != [] && (forall c | c in visited :: IsClass(g0, c))
      requires View() == Refreshed(analysis, g0, visited)
      requires (forall m | m in moved :: m < |g0.root|) && (forall p | p in forced :: p in queue)
      requires |visited| <= ANALYSIS_POPS_PER_CLASS * classCount + 1024
      requires |visited| < ANALYSIS_POPS_PER_CLASS * classCount + 1024 ==> queue == []
      requires forall c :: c in moved <==> c in Moved(analysis, g0, waiting, visited)
      requires forced == {} ==> forall c | Pends(g0, waiting, c) :: c in moved
      requires forall x | x in unfolded :: x in unfolded0 + waiting || x in moved
      requires (forall w | w in unfolded0 :: w < |unionfind.root|)
      requires forall p | p in waiting :: p < |g0.root| && g0.root[p] in seeds
      requires forall s | s in seeds :: IsClass(g0, s)
      modifies this`unfolded
      ensures Valid() && Propagated(g0, waiting, visited, moved, unfolded0, lost)
    {
      hide Forest, Settled, Recounted, NodeTotal, Occupied, WellFormed, Rebuilt, Bookkept, AllAccounted, Settles,
           Moved, Pends, Returned, Refreshed, AllPrompted, Prompted, SameNodes;
      if queue == [] {
        PropagateEnds(analysis, g0, waiting, seeds, View(), forced);
        lost := unfolded0;
        Narrow(g0, lost, waiting, moved);
      } else {
        WaitingInRange(View(), pending, Awaited(), classCount, nodeCount);
        lost := unfolded;
        assert forall w | w in lost :: w in Awaited();
        Widen(moved);
      }
    }

    /** More ids may wait. */
    ghost method Widen(more: seq<Id>)
      requires Valid() && forall x | x in more :: x < |unionfind.root|
      modifies this`unfolded
      ensures Valid() && unfolded == old(unfolded) + more
    {
      hide Forest, Recounted, NodeTotal, Occupied, Settled, Rebuilt;
      forall w | w in unfolded + more + analysisPending
        ensures w < |unionfind.root|
      {
        assert w in more || w in Awaited();
      }
      assert forall w | w in Awaited() :: w in unfolded + more + analysisPending;
      BookkeptWaiting(View(), pending, Awaited(), unfolded + more + analysisPending, classCount, nodeCount);
      unfolded := unfolded + more;
    }

    /** What was pending, and has been returned, waits as returned only. */
    ghost method Narrow(g0: Graph, kept: seq<Id>, waiting: seq<Id>, moved: seq<Id>)
      requires Valid() && analysisPending == [] && unionfind.root == g0.root
      requires forall x | x in unfolded :: x in kept + waiting || x in moved
      requires (forall x | x in kept :: x < |unionfind.root|) && forall x | x in moved :: x < |unionfind.root|
      requires forall c | Pends(g0, waiting, c) :: c in moved
      modifies this`unfolded
      ensures Valid() && unfolded == kept + moved
    {
      hide Forest, Recounted, NodeTotal, Occupied, Settled, Rebuilt, Bookkept;
      GraphIsWellFormed(View(), pending, Awaited(), classCount, nodeCount);
      RootsInRange(View());
      forall w | w in Awaited() && w < |unionfind.root|
        ensures exists v :: v in kept + moved && v < |unionfind.root| && unionfind.root[v] == unionfind.root[w]
      {
        assert w in unfolded;
        if w in waiting {
          assert Pends(g0, waiting, unionfind.root[w]);
          assert unionfind.root[w] in kept + moved;
        } else {
          assert w in kept + moved;
        }
      }
      BookkeptWaiting(View(), pending, Awaited(), kept + moved, classCount, nodeCount);
      unfolded := kept + moved;
      assert Awaited() == kept + moved;
    }

    /** A propagation in progress. */
    ghost predicate Propagating(g0: Graph, waiting: seq<Id>, seeds: seq<Id>, visited: seq<Id>, queue: seq<Id>,
                                forced: set<Id>, moved: seq<Id>)
      reads this, unionfind
    {
      && WellFormed(g0) && WellFormed(View()) && unionfind.root == g0.root
      && (forall c | c in visited :: IsClass(g0, c)) && View() == Refreshed(analysis, g0, visited)
      && (forall q | q in queue :: IsClass(g0, q)) && (forall p | p in forced :: p in queue)
      && (forall id | id in moved :: id < |g0.root|) && SameNodes(g0, View())
      && Returned(analysis, g0, waiting, visited, forced, moved)
      && AllAccounted(analysis, g0, seeds, View(), queue, forced)
      && AllPrompted(g0, waiting, visited) && (forall q | q in queue :: Prompted(g0, waiting, visited, q))
    }

    /** Take the last class off the queue, recompute it, and queue whoever uses it
        if its fact moved or it was a seed. */
    method Visit(id: Id, queue0: seq<Id>, inQueue0: set<Id>, forced0: set<Id>, moved0: seq<Id>, ghost g0: Graph,
                 ghost waiting: seq<Id>, ghost seeds: seq<Id>, ghost visited: seq<Id>)
      returns (queue: seq<Id>, inQueue: set<Id>, forced: set<Id>, moved: seq<Id>)
      requires Valid() && queue0 != [] && id == queue0[|queue0| - 1] && forall p | p in inQueue0 :: p in queue0
      requires Propagating(g0, waiting, seeds, visited, queue0, forced0, moved0)
      modifies this`classes, this`unfolded, unionfind`parents
      ensures Valid() && unionfind.root == old(unionfind.root) && forall p | p in inQueue :: p in queue
      ensures (forall x | x in unfolded :: x in old(unfolded) || x in moved) && forall x | x in moved0 :: x in moved
      ensures Propagating(g0, waiting, seeds, visited + [id], queue, forced, moved)
    {
      hide Forest, Settled, Recounted, NodeTotal, Occupied, WellFormed, Rebuilt, Bookkept, AllAccounted, Informed,
           ClassFact, Settles, Stable, Uses, SameNodes, Moved, Pends, Returned, Refreshed, AllPrompted, Prompted;
      ghost var g := View();
      RestAreClasses(g0, g, queue0);
      queue, inQueue, forced, moved := queue0[..|queue0| - 1], inQueue0 - {id}, forced0, moved0;
      ghost var rest := queue;
      var changed := Recompute(id);
      RefreshedMore(analysis, g0, visited, id);
      UsersSame(g, View(), id);
      assert forall q | q in rest :: IsClass(g, q) && IsClass(View(), q);
      var spread := changed || id in forced;
      if spread {
        forced := forced - {id};
        moved := moved + [id];
        queue, inQueue := EnqueueOwners(id, queue, inQueue);
      }
      ReturnedNext(analysis, g0, waiting, visited, forced0, moved0, id, spread);
      PropagateStep(analysis, g0, seeds, g, queue0, forced0, id, rest, queue, forced, spread);
      AllPromptedNext(g0, waiting, visited, id);
      SameNodesTransitive(g0, g, View());
      QueuePrompted(g0, View(), waiting, visited, id, queue0, queue);
    }

    /** Empty the worklist of the analysis. */
    method SetAside()
      requires Valid()
      modifies this`analysisPending, this`unfolded
      ensures Valid() && analysisPending == [] && unfolded == old(Awaited())
      ensures View() == old(View()) && Account() == old(Account())
    {
      hide Forest, Recounted, NodeTotal, Occupied, Settled, Rebuilt, Bookkept;
      unfolded := unfolded + analysisPending;
      analysisPending := [];
      assert Awaited() == old(Awaited());
    }

    /** The seeds of a propagation: representatives, sorted, without repeats. */
    method TakeAnalysisPending() returns (seeds: seq<Id>)
      requires Valid()
      modifies this`analysisPending, this`unfolded, unionfind`parents
      ensures Valid() && unionfind.root == old(unionfind.root) && analysisPending == [] && unfolded == old(Awaited())
      ensures forall q | q in seeds :: IsClass(View(), q)
      ensures forall p | p in old(analysisPending) :: p < |unionfind.root| && unionfind.root[p] in seeds
      ensures forall q | q in seeds :: Pends(View(), old(analysisPending), q)
    {
      hide Forest, Recounted, NodeTotal, Occupied, Settled, Rebuilt;
      var found: seq<Id> := [];
      RootsInRange(View());
      for i := 0 to |analysisPending|
        invariant Valid() && analysisPending == old(analysisPending) && unionfind.root == old(unionfind.root)
        invariant unfolded == old(unfolded)
        invariant forall q | q in found :: IsClass(View(), q)
        invariant |found| == i && forall q | q in found :: Pends(View(), analysisPending, q)
        invariant forall j | 0 <= j < i ::
                    analysisPending[j] < |unionfind.root| && found[j] == unionfind.root[analysisPending[j]]
      {
        assert analysisPending[i] in Awaited();
        var r := FindMut(analysisPending[i]);
        found := found + [r];
      }
      forall p | p in analysisPending
        ensures p < |unionfind.root| && unionfind.root[p] in found
      {
        var j :| 0 <= j < |analysisPending| && analysisPending[j] == p;
        assert found[j] in found;
      }
      SetAside();
      seeds := SortIds(found);
    }

    /** Queue the classes holding parents of a class whose fact moved: whoever uses
        it, but for itself. */
    method EnqueueOwners(id: Id, queue0: seq<Id>, inQueue0: set<Id>) returns (queue: seq<Id>, inQueue: set<Id>)
      requires Valid() && id < |unionfind.root| == |classes| && classes[id].Some? && unionfind.root[id] == id
      requires (forall q | q in queue0 :: IsClass(View(), q)) && forall p | p in inQueue0 :: p in queue0
      modifies unionfind`parents
      ensures Valid() && unionfind.root == old(unionfind.root)
      ensures (forall q | q in queue :: IsClass(View(), q)) && (forall p | p in inQueue :: p in queue)
      ensures queue0 <= queue && forall q | q in queue :: q in queue0 || Uses(View(), q, id)
      ensures forall c | IsClass(View(), c) && c != id && Uses(View(), c, id) :: c in queue
    {
      hide Forest, Recounted, NodeTotal, Occupied, Settled, Rebuilt, Uses;
      queue, inQueue := queue0, inQueue0;
      var parents := classes[id].value.parents;
      RootsInRange(View());
      assert Slot(View(), id);
      for i := 0 to |parents|
        invariant Valid() && unionfind.root == old(unionfind.root)
        invariant (forall q | q in queue :: IsClass(View(), q)) && (forall p | p in inQueue :: p in queue)
        invariant queue0 <= queue
        invariant forall q | q in queue ::
                    q in queue0 || exists e ::
                      e in parents && e.owner < |unionfind.root| && unionfind.root[e.owner] == q
        invariant forall j | 0 <= j < i ::
                    parents[j].owner < |unionfind.root|
                    && (unionfind.root[parents[j].owner] == id || unionfind.root[parents[j].owner] in queue)
      {
        assert parents[i] in parents;
        var p := FindMut(parents[i].owner);
        if p != id && p !in inQueue {
          inQueue := inQueue + {p};
          queue := queue + [p];
        }
      }
      OwnersAreQueued(sem, analysis, faithful, meaning, View(), PendingSet(pending), log, asserted, id, queue);
    }

    /** Recompute the fact of a class from its nodes. */
    method Recompute(id: Id) returns (changed: bool)
      requires Valid() && id < |unionfind.root| && unionfind.root[id] == id
      modifies this`classes, this`unfolded
      ensures Valid() && |classes| == |unionfind.root| && classes[id].Some? && old(WellFormed(View()))
      ensures WellFormed(View()) && unfolded == if changed then old(unfolded) + [id] else old(unfolded)
      ensures |old(classes)| == |classes| && old(classes)[id].Some?
      ensures View() == Informed(old(View()), id, ClassFact(analysis, old(View()), id))
      ensures SameNodes(old(View()), View())
      ensures changed <==> !Stable(analysis, old(View()), id)
    {
      hide Forest, Settled, Recounted, NodeTotal, Occupied, WellFormed, Rebuilt, Bookkept, NodesFact, ClassFact;
      ghost var g := View();
      GraphIsWellFormed(g, pending, Awaited(), classCount, nodeCount);
      ClassAt(g, id);
      InformedView(g, id, ClassFact(analysis, g, id));
      var fact := CombineFacts(id);
      changed := fact != classes[id].value.data;
      if changed {
        RecomputeStep(sem, analysis, faithful, meaning, g, PendingSet(pending), log, asserted, id);
        RecomputeBookkept(g, pending, Awaited(), classCount, nodeCount, id, fact);
        RecomputeRebuilt(g, pending, byOp, id, fact);
        classes := classes[id := Some(classes[id].value.(data := fact))];
        unfolded := unfolded + [id];
        MoreWaits(View(), pending, old(Awaited()), Awaited(), id, classCount, nodeCount);
      }
    }

    /** The facts of a class's nodes, merged. */
    method CombineFacts(id: Id) returns (fact: Fact)
      requires Core() && id < |unionfind.root| && unionfind.root[id] == id
      ensures fact == ClassFact(analysis, View(), id)
    {
      hide Forest, Recounted, NodeTotal, Occupied;
      ghost var g := View();
      ClassAt(g, id);
      assert Slot(g, id);
      var nodes := classes[id].value.nodes;
      NodesAreBelow(g, id, 0);
      var n := Canonicalize(nodes[0]);
      fact := Make(n);
      for i := 1 to |nodes|
        invariant fact == NodesFact(analysis, g, nodes, i)
      {
        NodesAreBelow(g, id, i);
        n := Canonicalize(nodes[i]);
        var d := Make(n);
        fact := analysis.merge(fact, d);
      }
    }

    /** Constant folding: a class proven constant ends up holding the literal, and
        any other is left alone. Either way it need not wait for that any more. */
    method Modify(id: Id, ghost rest: seq<Id>)
      requires Valid() && id < |unionfind.root|
      requires (forall w | w in unfolded :: w == id || w in rest) && forall w | w in rest :: w < |unionfind.root|
      modifies this, unionfind
      ensures Valid() && Advances(sem, analysis, old(Account()), Account(), 0) && id < |unionfind.root|
      ensures unfolded == rest && Later(old(View()), View()) && old(WellFormed(View()))
      ensures |asserted| >= old(|asserted|)
      ensures |asserted| == old(|asserted|) ==> pending == old(pending) && analysisPending == old(analysisPending)
      ensures old(FactAt(View(), id)).constant.None? ==> View() == old(View())
      ensures old(FactAt(View(), id)).constant.Some? ==>
                HoldsLiteral(View(), unionfind.root[id], old(FactAt(View(), id)).constant.value)
    {
      hide Forest, Settled, Recounted, NodeTotal, Occupied, Rebuilt, Respects, Constantless, Advances, Denotes, FloatEq,
           Bookkept, Later;
      ghost var g := View();
      GraphIsWellFormed(g, pending, Awaited(), classCount, nodeCount);
      RootsInRange(g);
      AdvancesNowhere(sem, analysis, Account());
      LaterItself(g);
      var r := Find(id);
      assert Slot(g, r);
      var fact := classes[r].value.data;
      if fact.constant.None? {
        Done(id, rest);
        return;
      }
      var c := fact.constant.value;
      if exists n | n in classes[r].value.nodes :: n.op.Const? && FloatEq(n.op.c, c) {
        ghost var n :| n in classes[r].value.nodes && n.op.Const? && FloatEq(n.op.c, c);
        assert Has(g, r, n) && IsLiteral(n, c);
        Done(id, rest);
        return;
      }
      FoldStep(sem, analysis, faithful, meaning, g, PendingSet(pending), log, asserted, id, c);
      UniteWithLiteral(id, c, rest);
      Done(id, rest);
    }

    /** A class that holds its literal need not wait. */
    ghost method Done(id: Id, rest: seq<Id>)
      requires Valid() && id < |unionfind.root| && Folding(View(), unionfind.root[id], rest + analysisPending)
      requires (forall w | w in unfolded :: w == id || w in rest) && forall w | w in rest :: w < |unionfind.root|
      modifies this`unfolded
      ensures Valid() && unfolded == rest && View() == old(View()) && Account() == old(Account())
    {
      hide Forest, Recounted, NodeTotal, Occupied, Settled, Rebuilt, Folding, WellFormed, AllFolding;
      assert forall w | w in analysisPending :: w in Awaited();
      BookkeptDone(View(), pending, Awaited(), id, rest + analysisPending, classCount, nodeCount);
      unfolded := rest;
    }

    /** Add a literal and unite a class with it. */
    method UniteWithLiteral(id: Id, c: Double, ghost rest: seq<Id>)
      requires Valid() && id < |unionfind.root| && !Constantless(analysis)
      requires Respects(sem, analysis) && faithful ==>
                 sem.knows(Const(c)) && meaning[id] == Denotes(sem, meaning, ENode(Const(c), []))
      requires WellFormed(View()) && FactAt(View(), id).constant == Some(c)
      requires (forall w | w in unfolded :: w == id || w in rest)
      modifies this, unionfind
      ensures Valid() && Advances(sem, analysis, old(Account()), Account(), 0) && unfolded == old(unfolded)
      ensures id < |unionfind.root| && HoldsLiteral(View(), unionfind.root[id], c) && Later(old(View()), View())
      ensures Folding(View(), unionfind.root[id], rest + analysisPending) && |unionfind.root| >= old(|unionfind.root|)
      ensures |asserted| > old(|asserted|)
    {
      hide Forest, Settled, Recounted, NodeTotal, Occupied, Rebuilt, Respects, Constantless, Denotes, Advances, Owns,
           Canon, HoldsLiteral, Later, WellFormed, FactAt, Pends, Folding, AllFolding, Bookkept, ReadyToFold;
      ghost var start := Account();
      ghost var g0 := View();
      var lit := Add(ENode(Const(c), []));
      ghost var between := Account();
      ghost var g := View();
      ghost var waiting, count, total := Awaited(), classCount, nodeCount;
      GraphIsWellFormed(g, pending, waiting, count, total);
      AddExtends(sem, start, between, ENode(Const(c), []), lit, Respects(sem, analysis));
      var changed := UnionBecause(id, lit, Fold);
      LaterTransitive(g0, g, View());
      UnionExtends(between, Account(), id, lit, Respects(sem, analysis));
      AdvancesByFolding(sem, analysis, start, between, Account());
      LiteralIsHeld(sem, analysis, faithful, meaning, View(), PendingSet(pending), log, asserted, lit, c);
      LiteralFolds(g, View(), old(pending), waiting, rest, analysisPending, id, lit, count, total);
    }

    /** Restore congruence, run the analysis, and rebuild the indices. Afterwards no
        fact is left to propagate, and no constant left to fold, unless the analysis
        was cut short: by a propagation of a thousand recomputations or more, or by a
        hundred rounds, which take as many constants folded. What was just added, and
        is known to be constant, is folded even then; and a graph that was rebuilt,
        with no fact left to propagate, stays as it is. */
    method Rebuild() returns (unions: nat, ghost visits: nat)
      requires Valid()
      modifies this, unionfind
      ensures Valid() && clean && Advances(sem, analysis, old(Account()), Account(), unions)
      ensures Later(old(View()), View())
      ensures visits < 1024 && |asserted| <= old(|asserted|) + MAX_REBUILD_ROUNDS ==>
                analysisPending == [] && unfolded == old(unfolded)
      ensures old(ReadyToFold(analysis, View(), pending, analysisPending)) ==>
                FoldsInto(old(View()), old(analysisPending), View())
      ensures old(clean && analysisPending == []) ==>
                && unions == 0 && SameClasses(old(View()), View()) && Account() == old(Account())
                && analysisPending == [] && unfolded == old(unfolded)
    {
      hide Forest, Settled, Recounted, NodeTotal, Occupied, Rebuilt, Bookkept, Respects, Constantless, Advances, Later,
           SameClasses, ReadyToFold, FoldsInto, Extends;
      ghost var mid;
      unions, visits, mid := Saturate();
      CleanIsDone(old(View()), old(pending), old(byOp));
      unionfind.CompressAll();
      Reindex();
      AdvancesExtends(sem, analysis, old(Account()), Account(), unions);
      RebuildIsLater(sem, analysis, old(faithful), old(meaning), old(View()), old(pending), old(log), old(asserted),
                     old(Account()), faithful, meaning, View(), pending, byOp, log, asserted, Account());
      RebuildIsLater(sem, analysis, mid.account.faithful, mid.account.meaning, mid.graph, mid.pending, mid.account.log,
                     mid.account.asserted, mid.account, faithful, meaning, View(), pending, byOp, log, asserted,
                     Account());
      if old(ReadyToFold(analysis, View(), pending, analysisPending)) {
        FoldedLasts(old(View()), old(analysisPending), mid.graph, View());
      }
    }

    /** The state after the first round. */
    ghost predicate Past(mid: Moment)
      reads this, unionfind
    {
      && WellFormed(mid.graph) && mid.account.root == mid.graph.root
      && Settled(sem, analysis, mid.account.faithful, mid.account.meaning, mid.graph, PendingSet(mid.pending),
                 mid.account.log, mid.account.asserted)
      && Extends(mid.account, Account(), Respects(sem, analysis))
    }

    /** Alternate congruence and analysis until both are done, or the analysis
        has had its rounds. */
    method Saturate() returns (unions: nat, ghost visits: nat, ghost mid: Moment)
      requires Valid()
      modifies this, unionfind
      ensures Valid() && pending == []
      ensures visits < 1024 && |asserted| <= old(|asserted|) + MAX_REBUILD_ROUNDS ==>
                analysisPending == [] && unfolded == old(unfolded)
      ensures Advances(sem, analysis, old(Account()), Account(), unions) && Past(mid)
      ensures old(ReadyToFold(analysis, View(), pending, analysisPending)) ==>
                FoldsInto(old(View()), old(analysisPending), mid.graph)
      ensures old(pending == [] && analysisPending == []) ==>
                unions == 0 && Rests(old(View()), old(Account()), old(clean), old(unfolded))
    {
      hide Forest, Settled, Recounted, NodeTotal, Occupied, Rebuilt, Bookkept, Respects, Constantless, Advances,
           ReadyToFold, FoldsInto, Extends, WellFormed, PendingSet;
      unions, visits, mid := 0, 0, Moment(View(), pending, Account());
      var rounds := 0;
      AdvancesNowhere(sem, analysis, Account());
      while true
        invariant Valid() && rounds <= MAX_REBUILD_ROUNDS && (visits < 1024 ==> unfolded == old(unfolded))
        invariant |asserted| >= old(|asserted|) + rounds
        invariant Advances(sem, analysis, old(Account()), Account(), unions)
        invariant if rounds == 0
                  then View() == old(View()) && pending == old(pending) && analysisPending == old(analysisPending)
                  else Past(mid)
        invariant rounds > 0 && old(ReadyToFold(analysis, View(), pending, analysisPending)) ==>
                    FoldsInto(old(View()), old(analysisPending), mid.graph)
        invariant old(pending == [] && analysisPending == []) ==>
                    unions == 0 && Rests(old(View()), old(Account()), old(clean), old(unfolded))
        decreases MAX_REBUILD_ROUNDS - rounds
      {
        ghost var before := Account();
        var n;
        ghost var more;
        n, more := CloseAndAnalyze();
        AdvancesTransitive(sem, analysis, old(Account()), before, Account(), unions, n);
        AdvancesExtends(sem, analysis, before, Account(), n);
        unions, visits := unions + n, if more > visits then more else visits;
        if rounds == 0 {
          mid := Moment(View(), pending, Account());
          GraphIsWellFormed(View(), pending, Awaited(), classCount, nodeCount);
          ExtendsItself(Account(), Respects(sem, analysis));
        } else {
          ExtendsTransitive(mid.account, before, Account(), Respects(sem, analysis));
        }
        if pending == [] && analysisPending == [] {
          break;
        }
        rounds := rounds + 1;
        if rounds > MAX_REBUILD_ROUNDS {
          before := Account();
          n := CloseFinally();
          AdvancesTransitive(sem, analysis, old(Account()), before, Account(), unions, n);
          AdvancesExtends(sem, analysis, before, Account(), n);
          ExtendsTransitive(mid.account, before, Account(), Respects(sem, analysis));
          unions := unions + n;
          break;
        }
      }
    }

    /** Nothing has changed, and nothing is left to do. */
    ghost predicate Rests(g: Graph, account: Ledger, wasClean: bool, unfolded0: seq<Id>)
      reads this, unionfind
    {
      View() == g && Account() == account && clean == wasClean && analysisPending == [] && unfolded == unfolded0
    }

    /** Give up on further precision, but not on congruence. */
    method CloseFinally() returns (unions: nat)
      requires Valid()
      modifies this, unionfind
      ensures Valid() && pending == [] && Advances(sem, analysis, old(Account()), Account(), unions)
      ensures asserted == old(asserted)
    {
      hide Forest, Settled, Recounted, NodeTotal, Occupied, Rebuilt, Bookkept, Respects, Constantless;
      ghost var g := View();
      SetAside();
      unions := RestoreCongruence();
      CoarsensGrows(g, unionfind.root);
    }

    /** One round, and how many recomputations it made. Something is left to do only if
        it folded a constant. */
    method CloseAndAnalyze() returns (unions: nat, ghost visits: nat)
      requires Valid()
      modifies this, unionfind
      ensures Valid() && Advances(sem, analysis, old(Account()), Account(), unions)
      ensures visits < 1024 ==> unfolded == old(unfolded)
      ensures |asserted| >= old(|asserted|)
      ensures |asserted| == old(|asserted|) ==> pending == [] && analysisPending == []
      ensures old(ReadyToFold(analysis, View(), pending, analysisPending)) ==>
                FoldsInto(old(View()), old(analysisPending), View())
      ensures old(pending == [] && analysisPending == []) ==>
                unions == 0 && Rests(old(View()), old(Account()), old(clean), old(unfolded))
    {
      hide Forest, Settled, Recounted, NodeTotal, Occupied, Rebuilt, Bookkept, Respects, Constantless, FoldsInto;
      ghost var g := View();
      ghost var before := Account();
      unions := RestoreCongruence();
      CoarsensGrows(g, unionfind.root);
      ghost var between := Account();
      visits := Analyze();
      AdvancesTransitive(sem, analysis, before, between, Account(), unions, 0);
    }

    /** One round of the analysis: propagate facts, then fold constants. */
    method Analyze() returns (ghost visits: nat)
      requires Valid() && pending == []
      modifies this, unionfind
      ensures Valid() && Advances(sem, analysis, old(Account()), Account(), 0)
      ensures visits < 1024 ==> unfolded == old(unfolded)
      ensures |asserted| >= old(|asserted|)
      ensures |asserted| == old(|asserted|) ==> pending == [] && analysisPending == []
      ensures old(ReadyToFold(analysis, View(), pending, analysisPending)) ==>
                FoldsInto(old(View()), old(analysisPending), View())
      ensures old(analysisPending) == [] ==> Rests(old(View()), old(Account()), old(clean), old(unfolded))
    {
      hide Forest, Settled, Recounted, NodeTotal, Occupied, Rebuilt, Bookkept, Respects, Constantless, ReadyToFold,
           AllPrompted, Moved, Refreshed, Settles, HoldsLiteral, Later, WellFormed, Advances, FoldsInto;
      ghost var g := View();
      ghost var visited, lost;
      var moved;
      moved, visited, lost := PropagateAnalysis();
      visits := |visited|;
      if old(ReadyToFold(analysis, View(), pending, analysisPending)) {
        ReadyIsSingle(analysis, g, pending, old(analysisPending));
        ReadyIsMoved(analysis, g, pending, old(analysisPending), visited, moved);
      }
      FoldAll(moved, lost, g, old(analysisPending));
    }

    /** Fold the constants among the classes whose facts moved. */
    method FoldAll(moved: seq<Id>, ghost lost: seq<Id>, ghost g: Graph, ghost waiting: seq<Id>)
      requires Valid() && pending == [] && analysisPending == [] && unfolded == lost + moved
      requires (forall m | m in moved :: m < |unionfind.root|) && forall w | w in lost :: w < |unionfind.root|
      modifies this, unionfind
      ensures Valid() && Advances(sem, analysis, old(Account()), Account(), 0) && unfolded == lost
      ensures |asserted| >= old(|asserted|)
      ensures |asserted| == old(|asserted|) ==> pending == [] && analysisPending == []
      ensures && moved != [] && old(View()) == g && WellFormed(g) && |waiting| == 1 && waiting[0] < |g.root|
              && FactAt(g, waiting[0]).constant.Some? && (forall m | m in moved :: m == waiting[0]) ==>
                FoldsInto(g, waiting, View())
      ensures moved == [] ==> Rests(old(View()), old(Account()), old(clean), lost)
    {
      hide Forest, Settled, Recounted, NodeTotal, Occupied, Rebuilt, Bookkept, Respects, Constantless, HoldsLiteral,
           Later, WellFormed;
      ghost var single := && old(View()) == g && WellFormed(g) && |waiting| == 1 && waiting[0] < |g.root|
                          && FactAt(g, waiting[0]).constant.Some? && forall m | m in moved :: m == waiting[0];
      AdvancesNowhere(sem, analysis, Account());
      assert moved == [] ==> lost + moved == lost;
      for i := 0 to |moved|
        invariant Valid() && Advances(sem, analysis, old(Account()), Account(), 0)
        invariant (forall m | m in moved :: m < |unionfind.root|) && forall w | w in lost :: w < |unionfind.root|
        invariant unfolded == lost + moved[i..] && |asserted| >= old(|asserted|)
        invariant |asserted| == old(|asserted|) ==> pending == [] && analysisPending == []
        invariant single ==> (i == 0 && View() == g) || FoldsInto(g, waiting, View())
        invariant moved == [] ==> Rests(old(View()), old(Account()), old(clean), lost)
      {
        ghost var before, now := Account(), View();
        assert moved[i] in moved;
        ghost var rest := lost + moved[i + 1..];
        forall w | w in rest
          ensures w < |unionfind.root|
        {
          assert w in lost || w in moved;
        }
        Modify(moved[i], rest);
        AdvancesTransitive(sem, analysis, old(Account()), before, Account(), 0, 0);
        if single && FoldsInto(g, waiting, now) {
          FoldedLasts(g, waiting, now, View());
        }
      }
      assert lost + moved[|moved|..] == lost;
    }

    /** Rebuild the class node lists, the hashcons and the parent lists. */
    method Reindex()
      requires Valid() && pending == []
      modifies this`classes, this`memo, this`byOp, this`nodeCount, this`clean
      ensures Valid() && clean && classCount == old(classCount)
      ensures old(clean) ==> SameClasses(old(View()), View())
    {
      hide Forest, Settled, Recounted, Rebuilt, NodeTotal, Occupied, AllRecanoned, AllSorted, Once, AllLinked,
           FiledUpTo, OpIndexed, WellFormed, Bookkept;
      ghost var g := View();
      CanonicalizeClasses();
      ghost var t := View();
      CanonicalizedClasses(sem, analysis, faithful, meaning, g, t, log, asserted);
      ghost var links := RelinkClasses(g);
      clean := true;
      ReindexedGraph(sem, analysis, faithful, meaning, g, t, View(), links, byOp, log, asserted,
                     pending, Awaited(), classCount, old(nodeCount), nodeCount);
      if old(clean) {
        ReindexedIsSame(g, View(), pending, old(byOp), byOp);
      }
    }

    /** Rebuild the hashcons, the operator index and the parent lists from the node
        lists. */
    method RelinkClasses(ghost g: Graph) returns (ghost links: seq<Link>)
      requires unionfind.Valid() && |classes| == |unionfind.root| && AllSorted(classes) && Once(classes)
      requires Settled(sem, analysis, faithful, meaning, g, PendingSet([]), log, asserted) && AllRecanoned(g, View())
      requires forall c, n | 0 <= c < |classes| && classes[c].Some? && n in classes[c].value.nodes ::
                 Below(n, |unionfind.root|)
      modifies this`classes, this`memo, this`byOp
      ensures forall l :: l in links <==> IsParent(old(View()), l.child, l.parent)
      ensures AllLinked(old(classes), classes, links) && OpIndexed(byOp, old(classes))
      ensures FiledUpTo(memo, old(classes), |old(classes)|, 0)
    {
      hide Forest, Settled, Recounted, AllRecanoned, AllSorted, Once, AllLinked, FiledUpTo, OpIndexed, WellFormed;
      ghost var t := View();
      var found := CollectLinks();
      links := found;
      LinkTargets(sem, analysis, faithful, meaning, g, t, found, log, asserted);
      memo, byOp := IndexClasses(classes);
      classes := LinkParents(classes, found);
    }

    /** Replace each class's nodes by their canonical forms, sorted and without
        repeats, and clear the parent lists. */
    method CanonicalizeClasses()
      requires Core() && held == []
      modifies this`classes, this`nodeCount
      ensures AllRecanoned(old(View()), View()) && AllSorted(classes) && nodeCount == NodeTotal(classes)
    {
      hide Forest, Recounted, Occupied, Sorted, Bookkept, WellFormed, Canon, NodeTotal;
      ghost var g := View();
      GraphIsWellFormed(g, pending, Awaited(), classCount, nodeCount);
      SlotsOfClasses(g);
      NoNodes(classes);
      nodeCount := 0;
      for id := 0 to |classes|
        invariant |classes| == |g.classes|
        invariant forall c | 0 <= c < id :: Recanoned(g.root, g.classes[c], classes[c])
        invariant forall c | 0 <= c < id && classes[c].Some? :: Sorted(classes[c].value.nodes)
        invariant forall c | id <= c < |classes| :: classes[c] == g.classes[c]
        invariant nodeCount == NodeTotal(classes[..id])
      {
        ghost var before := classes;
        if classes[id].Some? {
          var nodes := CanonicalizeNodes(classes[id].value.nodes);
          nodes := SortNodes(nodes);
          classes := classes[id := Some(classes[id].value.(nodes := nodes, parents := []))];
          nodeCount := nodeCount + |nodes|;
        }
        OneMoreClass(before, classes, id);
      }
      assert classes[..|classes|] == classes;
    }

    method CanonicalizeNodes(nodes: seq<ENode>) returns (canonical: seq<ENode>)
      requires unionfind.Valid() && forall n | n in nodes :: Below(n, |unionfind.root|)
      ensures forall m :: m in canonical <==>
                exists node :: node in nodes && Below(node, |unionfind.root|) && Canon(unionfind.root, node) == m
    {
      hide Forest, Canon;
      canonical := [];
      for i := 0 to |nodes|
        invariant |canonical| == i
        invariant forall j | 0 <= j < i ::
                    Below(nodes[j], |unionfind.root|) && canonical[j] == Canon(unionfind.root, nodes[j])
      {
        assert nodes[i] in nodes;
        var n := Canonicalize(nodes[i]);
        canonical := canonical + [n];
      }
      FormsOf(unionfind.root, nodes, canonical);
    }

    /** Every class a node of some class mentions, with that node. */
    method CollectLinks() returns (links: seq<Link>)
      requires unionfind.Valid() && |classes| == |unionfind.root|
      requires forall c, n | 0 <= c < |classes| && classes[c].Some? && n in classes[c].value.nodes ::
                 Below(n, |unionfind.root|)
      ensures forall l :: l in links <==> IsParent(View(), l.child, l.parent)
    {
      links := [];
      for id := 0 to |classes|
        invariant forall l :: l in links <==> l.parent.owner < id && IsParent(View(), l.child, l.parent)
      {
        if classes[id].Some? {
          var nodes := classes[id].value.nodes;
          ghost var before := links;
          for j := 0 to |nodes|
            invariant forall l :: l in links <==>
                        || l in before
                        || (l.parent.owner == id && l.parent.node in nodes[..j] && IsParent(View(), l.child, l.parent))
          {
            assert nodes[..j + 1] == nodes[..j] + [nodes[j]];
            assert nodes[j] in nodes && Has(View(), id, nodes[j]);
            var more := LinksOf(nodes[j], id);
            links := links + more;
          }
          assert nodes[..|nodes|] == nodes;
        }
      }
    }

    /** A link from each class the node mentions, once. */
    method LinksOf(node: ENode, owner: Id) returns (links: seq<Link>)
      requires unionfind.Valid() && Below(node, |unionfind.root|)
      ensures forall l :: l in links <==> l.parent == Parent(node, owner) && Mentions(unionfind.root, node, l.child)
    {
      links := [];
      ghost var root := unionfind.root;
      for k := 0 to |node.children|
        invariant forall l :: l in links <==>
                    l.parent == Parent(node, owner) && exists e | 0 <= e < k :: root[node.children[e]] == l.child
      {
        var child := Find(node.children[k]);
        var earlier := false;
        for e := 0 to k
          invariant earlier <==> exists d | 0 <= d < e :: root[node.children[d]] == child
        {
          var c := Find(node.children[e]);
          earlier := earlier || c == child;
        }
        if !earlier {
          links := links + [Link(child, Parent(node, owner))];
        }
      }
    }

    /** The forms seen, each with its owner, in no particular order. */
    method ListSeen(seen: map<ENode, Id>) returns (listed: seq<Parent>)
      ensures forall e :: e in listed <==> e.node in seen && e.owner == seen[e.node]
    {
      listed := [];
      var rest := seen.Keys;
      while rest != {}
        invariant rest <= seen.Keys
        invariant forall e :: e in listed <==> e.node in seen.Keys - rest && e.owner == seen[e.node]
      {
        var q :| q in rest;
        listed := listed + [Parent(q, seen[q])];
        rest := rest - {q};
      }
    }
  }

  lemma NoNodes(classes: seq<Option<EClass>>)
    ensures NodeTotal(classes[..0]) == 0
  {
  }

  lemma OneMoreClass(before: seq<Option<EClass>>, classes: seq<Option<EClass>>, id: nat)
    requires id < |classes| == |before| && forall c | 0 <= c < |classes| && c != id :: classes[c] == before[c]
    ensures NodeTotal(classes[..id + 1]) == NodeTotal(before[..id]) + NodesIn(classes[id])
  {
    assert classes[..id + 1][..id] == before[..id];
  }

  lemma SlotsOfClasses(g: Graph)
    requires WellFormed(g)
    ensures |g.classes| == |g.root|
    ensures forall c, n | 0 <= c < |g.classes| && g.classes[c].Some? && n in g.classes[c].value.nodes ::
              Below(n, |g.root|)
  {
    forall c, n | 0 <= c < |g.classes| && g.classes[c].Some? && n in g.classes[c].value.nodes
      ensures Below(n, |g.root|)
    {
      assert Slot(g, c);
    }
  }

  /** A list of canonical forms holds the forms of the nodes, and nothing else. */
  lemma FormsOf(root: seq<Id>, nodes: seq<ENode>, canonical: seq<ENode>)
    requires |canonical| == |nodes|
    requires forall j | 0 <= j < |nodes| :: Below(nodes[j], |root|) && canonical[j] == Canon(root, nodes[j])
    ensures forall m ::
              m in canonical <==> exists node :: node in nodes && Below(node, |root|) && Canon(root, node) == m
  {
    hide Canon;
    forall m | m in canonical
      ensures exists node :: node in nodes && Below(node, |root|) && Canon(root, node) == m
    {
      var j :| 0 <= j < |canonical| && canonical[j] == m;
      assert nodes[j] in nodes;
    }
    forall node | node in nodes && Below(node, |root|)
      ensures Canon(root, node) in canonical
    {
      var j :| 0 <= j < |nodes| && nodes[j] == node;
      assert canonical[j] in canonical;
    }
  }

  lemma PushOne(root: seq<Id>, first: seq<Option<EClass>>, before: seq<Option<EClass>>, after: seq<Option<EClass>>,
                entry: Parent, k: nat)
    requires Below(entry.node, |root|) && k < |entry.node.children|
    requires Pushed(root, first, before, entry, k)
    requires root[entry.node.children[k]] < |before| && before[root[entry.node.children[k]]].Some?
    requires var c := root[entry.node.children[k]];
             after == before[c := Some(before[c].value.(parents := before[c].value.parents + [entry]))]
    ensures Pushed(root, first, after, entry, k + 1)
  {
    forall i | 0 <= i < |first|
      ensures PushedAt(root, first[i], after[i], entry, k + 1, i)
    {
      assert PushedAt(root, first[i], before[i], entry, k, i);
      if exists j | 0 <= j < k + 1 :: root[entry.node.children[j]] == i {
        var j :| 0 <= j < k + 1 && root[entry.node.children[j]] == i;
        assert j == k || exists l | 0 <= l < k :: root[entry.node.children[l]] == i;
      }
      if exists j | 0 <= j < k :: root[entry.node.children[j]] == i {
        var j :| 0 <= j < k && root[entry.node.children[j]] == i;
        assert exists l | 0 <= l < k + 1 :: root[entry.node.children[l]] == i;
      }
      assert exists l | 0 <= l < k + 1 :: root[entry.node.children[l]] == root[entry.node.children[k]];
    }
  }

  /** Two e-graphs given the same nodes and equations have the same partition
      once both are rebuilt. */
  lemma SameInputsAgree(a: EGraph, b: EGraph, to: seq<Id>, back: seq<Id>, i: Id, j: Id)
    requires a.Valid() && a.clean && b.Valid() && b.clean
    requires Renames(to, a.View(), b.View()) && Renames(back, b.View(), a.View())
    requires InRange(|a.unionfind.root|, a.log, a.asserted) && InRange(|b.unionfind.root|, b.log, b.asserted)
    requires Carried(to, a.View(), a.log, a.asserted, b.View(), b.log, b.asserted)
    requires Carried(back, b.View(), b.log, b.asserted, a.View(), a.log, a.asserted)
    requires forall x | 0 <= x < |to| :: a.unionfind.root[back[to[x]]] == a.unionfind.root[x]
    requires i < |a.unionfind.root| && j < |a.unionfind.root|
    ensures a.unionfind.root[i] == a.unionfind.root[j] <==> b.unionfind.root[to[i]] == b.unionfind.root[to[j]]
  {
    hide Carried, Recounted, Bookkept, Forest;
    IndexedIsDormant(a.View());
    IndexedIsDormant(b.View());
    OrderDoesNotMatter(to, back, a.View(), a.log, a.asserted, b.View(), b.log, b.asserted, i, j);
  }
}
