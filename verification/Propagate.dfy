/** Recomputing the facts of an analysis: what a recomputation reads and keeps,
    and where propagating it leaves nothing more to do. */
module Propagation {
  import opened Options
  import opened Lang
  import opened Graphs
  import opened Congruences
  import opened Meanings
  import opened Steps

  lemma ClassAt(g: Graph, id: Id)
    requires WellFormed(g) && id < |g.root| && g.root[id] == id
    ensures |g.classes| == |g.root| && g.classes[id].Some? && g.classes[id].value.nodes != []
  {
    assert Slot(g, id);
  }

  lemma NodesAreBelow(g: Graph, id: Id, i: nat)
    requires WellFormed(g) && id < |g.classes| && g.classes[id].Some? && i < |g.classes[id].value.nodes|
    ensures var n := g.classes[id].value.nodes[i];
            Below(n, |g.root|) && Below(Canon(g.root, n), |g.root|) && Has(g, id, n)
  {
    assert Slot(g, id);
    CanonIsBelow(g, g.classes[id].value.nodes[i]);
  }

  /** The facts of the first `i` nodes combined. */
  function NodesFact(analysis: Analysis, g: Graph, nodes: seq<ENode>, i: nat): Fact
    requires WellFormed(g) && 1 <= i <= |nodes| && forall n | n in nodes :: Below(n, |g.root|)
  {
    CanonIsBelow(g, nodes[i - 1]);
    var d := FactOf(analysis, g, Canon(g.root, nodes[i - 1]));
    if i == 1 then d else analysis.merge(NodesFact(analysis, g, nodes, i - 1), d)
  }

  /** What the nodes of a class together say about its value. */
  function ClassFact(analysis: Analysis, g: Graph, id: Id): Fact
    requires WellFormed(g) && id < |g.root| && g.root[id] == id
  {
    ClassAt(g, id);
    assert Slot(g, id);
    NodesFact(analysis, g, g.classes[id].value.nodes, |g.classes[id].value.nodes|)
  }

  lemma {:induction false} NodesFactIsTrue(sem: Semantics, analysis: Analysis, meaning: seq<Value>, g: Graph, id: Id,
                                           i: nat)
    requires Respects(sem, analysis) && Meaningful(sem, meaning, g) && Factual(sem, meaning, g)
    requires id < |g.root| && g.classes[id].Some? && 1 <= i <= |g.classes[id].value.nodes|
    requires forall n | n in g.classes[id].value.nodes :: Below(n, |g.root|)
    ensures sem.holds(NodesFact(analysis, g, g.classes[id].value.nodes, i), meaning[id])
  {
    var node := g.classes[id].value.nodes[i - 1];
    NodesAreBelow(g, id, i - 1);
    CanonIsBelow(g, node);
    SameClassSameMeaning(sem, meaning, g);
    CongruentDenotes(sem, analysis, meaning, g.root, Canon(g.root, node), node);
    FactIsTrue(sem, analysis, meaning, g, Canon(g.root, node));
    assert Denotes(sem, meaning, node) == meaning[id];
    if i > 1 {
      NodesFactIsTrue(sem, analysis, meaning, g, id, i - 1);
    }
  }

  lemma {:induction false} NodesFactConstantless(analysis: Analysis, g: Graph, nodes: seq<ENode>, i: nat)
    requires Constantless(analysis)
    requires WellFormed(g) && 1 <= i <= |nodes| && forall n | n in nodes :: Below(n, |g.root|)
    ensures NodesFact(analysis, g, nodes, i).constant.None?
  {
    CanonIsBelow(g, nodes[i - 1]);
    if i > 1 {
      NodesFactConstantless(analysis, g, nodes, i - 1);
    }
  }

  /** A class given a new fact. */
  function Informed(g: Graph, id: Id, data: Fact): Graph
    requires id < |g.classes| && g.classes[id].Some?
  {
    g.(classes := g.classes[id := Some(g.classes[id].value.(data := data))])
  }

  lemma InformedView(g: Graph, id: Id, data: Fact)
    requires WellFormed(g) && id < |g.classes| && g.classes[id].Some?
    ensures WellFormed(Informed(g, id, data)) && SameView(g, Informed(g, id, data))
    ensures SameNodes(g, Informed(g, id, data))
  {
    var t := Informed(g, id, data);
    forall i | 0 <= i < |t.root|
      ensures Slot(t, i)
    {
      assert Slot(g, i);
    }
  }

  lemma RecomputeStep(sem: Semantics, analysis: Analysis, faithful: bool, meaning: seq<Value>, g: Graph,
                      pending: set<Id>, log: seq<Entry>, asserted: seq<Equation>, id: Id)
    requires WellFormed(g) && Settled(sem, analysis, faithful, meaning, g, pending, log, asserted)
    requires id < |g.root| && g.root[id] == id && id < |g.classes| && g.classes[id].Some?
    ensures Settled(sem, analysis, faithful, meaning, Informed(g, id, ClassFact(analysis, g, id)), pending, log,
                    asserted)
  {
    var t := Informed(g, id, ClassFact(analysis, g, id));
    InformedView(g, id, ClassFact(analysis, g, id));
    SameCovered(g, t);
    SameParentsReal(g, t);
    SameHashed(g, t, pending);
    SameMemoReal(g, t);
    SameNodesKeep(g, t, log, asserted);
    ClassAt(g, id);
    assert Slot(g, id);
    if Constantless(analysis) {
      NodesFactConstantless(analysis, g, g.classes[id].value.nodes, |g.classes[id].value.nodes|);
    }
    if Respects(sem, analysis) && faithful {
      NodesFactIsTrue(sem, analysis, meaning, g, id, |g.classes[id].value.nodes|);
    }
  }

  // ----- where nothing changes any more -----

  predicate IsClass(g: Graph, c: Id) {
    c < |g.root| && g.root[c] == c
  }

  /** Recomputing the class leaves its fact unchanged. */
  predicate Stable(analysis: Analysis, g: Graph, c: Id)
    requires WellFormed(g) && IsClass(g, c)
  {
    ClassAt(g, c);
    g.classes[c].value.data == ClassFact(analysis, g, c)
  }

  /** A node of class `c` has a child in class `x`. */
  ghost predicate Uses(g: Graph, c: Id, x: Id) {
    exists n :: Has(g, c, n) && Below(n, |g.root|) && Mentions(g.root, n, x)
  }

  /** The class is that of an id pending, or uses it. */
  ghost predicate Hears(g: Graph, pending: seq<Id>, c: Id) {
    exists p :: p in pending && p < |g.root| && (g.root[p] == c || Uses(g, c, g.root[p]))
  }

  /** Nothing is left to recompute, but in classes that use themselves and in those
      that were not up to date before and that no id pending concerned. */
  ghost predicate Settles(analysis: Analysis, g0: Graph, pending: seq<Id>, g: Graph)
    requires WellFormed(g0) && WellFormed(g) && g.root == g0.root
  {
    forall c | IsClass(g, c) ::
      Stable(analysis, g, c) || Uses(g, c, c) || (!Stable(analysis, g0, c) && !Hears(g0, pending, c))
  }

  /** Facts recomputed one class after another. */
  function Refreshed(analysis: Analysis, g: Graph, visited: seq<Id>): (h: Graph)
    requires WellFormed(g) && forall c | c in visited :: IsClass(g, c)
    ensures WellFormed(h) && h.root == g.root
  {
    if visited == [] then g
    else
      var last, before := visited[|visited| - 1], Refreshed(analysis, g, visited[..|visited| - 1]);
      assert last in visited && IsClass(g, last);
      ClassAt(before, last);
      InformedView(before, last, ClassFact(analysis, before, last));
      Informed(before, last, ClassFact(analysis, before, last))
  }

  lemma RefreshedMore(analysis: Analysis, g: Graph, visited: seq<Id>, id: Id)
    requires WellFormed(g) && (forall c | c in visited :: IsClass(g, c)) && IsClass(g, id)
    ensures forall c | c in visited + [id] :: IsClass(g, c)
    ensures var before := Refreshed(analysis, g, visited);
            && IsClass(before, id) && id < |before.classes| && before.classes[id].Some?
            && Refreshed(analysis, g, visited + [id]) == Informed(before, id, ClassFact(analysis, before, id))
  {
    var all := visited + [id];
    assert all[..|all| - 1] == visited && all[|all| - 1] == id;
    ClassAt(Refreshed(analysis, g, visited), id);
  }

  /** The class is that of an id pending. */
  ghost predicate Pends(g: Graph, pending: seq<Id>, c: Id) {
    exists p :: p in pending && p < |g.root| && g.root[p] == c
  }

  /** The classes visited whose fact moved on the way, or that were pending. */
  ghost function Moved(analysis: Analysis, g: Graph, pending: seq<Id>, visited: seq<Id>): set<Id>
    requires WellFormed(g) && forall c | c in visited :: IsClass(g, c)
  {
    if visited == [] then {}
    else
      var last, rest := visited[|visited| - 1], visited[..|visited| - 1];
      assert last in visited && IsClass(g, last);
      if Pends(g, pending, last) || !Stable(analysis, Refreshed(analysis, g, rest), last)
      then Moved(analysis, g, pending, rest) + {last} else Moved(analysis, g, pending, rest)
  }

  /** Any other class has the fact it had. */
  lemma {:induction false} OthersAreKept(analysis: Analysis, g: Graph, pending: seq<Id>, visited: seq<Id>, c: Id)
    requires WellFormed(g) && forall x | x in visited :: IsClass(g, x)
    requires c < |g.classes| && c !in Moved(analysis, g, pending, visited)
    ensures |Refreshed(analysis, g, visited).classes| == |g.classes|
    ensures Refreshed(analysis, g, visited).classes[c] == g.classes[c]
  {
    if visited != [] {
      var last, rest := visited[|visited| - 1], visited[..|visited| - 1];
      assert last in visited;
      OthersAreKept(analysis, g, pending, rest, c);
      ClassAt(Refreshed(analysis, g, rest), last);
    }
  }

  /** What has been returned so far, and who is still to be returned when visited. */
  ghost predicate Returned(analysis: Analysis, g: Graph, pending: seq<Id>, visited: seq<Id>, forced: set<Id>,
                           moved: seq<Id>)
    requires WellFormed(g) && forall c | c in visited :: IsClass(g, c)
  {
    && (forall c :: c in moved <==> c in Moved(analysis, g, pending, visited))
    && (forall c | Pends(g, pending, c) :: c in forced || c in moved)
    && (forall c | c in forced :: Pends(g, pending, c))
  }

  lemma ReturnedStarts(analysis: Analysis, g: Graph, pending: seq<Id>, seeds: seq<Id>)
    requires WellFormed(g) && forall p | p in pending :: p < |g.root| && g.root[p] in seeds
    requires forall q | q in seeds :: Pends(g, pending, q)
    ensures Returned(analysis, g, pending, [], (set q | q in seeds), []) && Refreshed(analysis, g, []) == g
  {
  }

  lemma ReturnedEnds(analysis: Analysis, g: Graph, pending: seq<Id>, visited: seq<Id>, forced: set<Id>,
                     moved: seq<Id>)
    requires WellFormed(g) && forall c | c in visited :: IsClass(g, c)
    requires Returned(analysis, g, pending, visited, forced, moved)
    ensures forall c :: c in moved <==> c in Moved(analysis, g, pending, visited)
    ensures forced == {} ==> forall c | Pends(g, pending, c) :: c in moved
  {
  }

  lemma MovedNext(analysis: Analysis, g: Graph, pending: seq<Id>, visited: seq<Id>, id: Id)
    requires WellFormed(g) && (forall c | c in visited :: IsClass(g, c)) && IsClass(g, id)
    ensures forall c | c in visited + [id] :: IsClass(g, c)
    ensures IsClass(Refreshed(analysis, g, visited), id)
    ensures Moved(analysis, g, pending, visited + [id])
              == Moved(analysis, g, pending, visited)
                 + if Pends(g, pending, id) || !Stable(analysis, Refreshed(analysis, g, visited), id) then {id} else {}
  {
    var all := visited + [id];
    assert all[..|all| - 1] == visited && all[|all| - 1] == id;
    hide Stable, Refreshed, Pends;
  }

  lemma ReturnedNext(analysis: Analysis, g: Graph, pending: seq<Id>, visited: seq<Id>, forced: set<Id>,
                     moved: seq<Id>, id: Id, spread: bool)
    requires WellFormed(g) && (forall c | c in visited :: IsClass(g, c)) && IsClass(g, id)
    requires Returned(analysis, g, pending, visited, forced, moved)
    requires spread <==> !Stable(analysis, Refreshed(analysis, g, visited), id) || id in forced
    ensures forall c | c in visited + [id] :: IsClass(g, c)
    ensures Returned(analysis, g, pending, visited + [id], if spread then forced - {id} else forced,
                     if spread then moved + [id] else moved)
  {
    hide Stable, Refreshed, Pends, Moved;
    MovedNext(analysis, g, pending, visited, id);
    var next := if spread then moved + [id] else moved;
    forall c
      ensures c in next <==> c in Moved(analysis, g, pending, visited + [id])
    {
    }
    forall c | Pends(g, pending, c)
      ensures c in (if spread then forced - {id} else forced) || c in next
    {
    }
  }

  /** What can be said of a class in the middle of a propagation: recomputing it
      changes nothing, or it is still to be recomputed, or it uses itself, or it
      was not up to date to begin with and nobody told it. */
  ghost predicate Accounted(analysis: Analysis, g0: Graph, seeds: seq<Id>, g: Graph, queue: seq<Id>, forced: set<Id>,
                            c: Id)
    requires WellFormed(g0) && WellFormed(g) && g.root == g0.root && IsClass(g, c)
  {
    || Stable(analysis, g, c) || c in queue || Uses(g, c, c) || (exists f :: f in forced && Uses(g, c, f))
    || (!Stable(analysis, g0, c) && !Hears(g0, seeds, c))
  }

  ghost predicate AllAccounted(analysis: Analysis, g0: Graph, seeds: seq<Id>, g: Graph, queue: seq<Id>, forced: set<Id>)
    requires WellFormed(g0) && WellFormed(g) && g.root == g0.root
  {
    forall c | IsClass(g, c) :: Accounted(analysis, g0, seeds, g, queue, forced, c)
  }

  /** What no node of a class mentions, its fact does not depend on. */
  lemma {:induction false} NodesFactIgnores(analysis: Analysis, g: Graph, id: Id, data: Fact, nodes: seq<ENode>, i: nat)
    requires WellFormed(g) && IsClass(g, id) && id < |g.classes| && g.classes[id].Some?
    requires WellFormed(Informed(g, id, data))
    requires 1 <= i <= |nodes| && forall n | n in nodes :: Below(n, |g.root|) && !Mentions(g.root, n, id)
    ensures NodesFact(analysis, Informed(g, id, data), nodes, i) == NodesFact(analysis, g, nodes, i)
    decreases i
  {
    var n := nodes[i - 1];
    assert n in nodes;
    FactIgnores(analysis, g, id, data, n);
    if i > 1 {
      NodesFactIgnores(analysis, g, id, data, nodes, i - 1);
    }
  }

  lemma FactIgnores(analysis: Analysis, g: Graph, id: Id, data: Fact, n: ENode)
    requires WellFormed(g) && IsClass(g, id) && id < |g.classes| && g.classes[id].Some?
    requires WellFormed(Informed(g, id, data))
    requires Below(n, |g.root|) && !Mentions(g.root, n, id)
    ensures Below(Canon(g.root, n), |g.root|)
    ensures FactOf(analysis, Informed(g, id, data), Canon(g.root, n)) == FactOf(analysis, g, Canon(g.root, n))
  {
    CanonIsBelow(g, n);
    var t, m := Informed(g, id, data), Canon(g.root, n);
    forall k | 0 <= k < |m.children|
      ensures FactAt(t, m.children[k]) == FactAt(g, m.children[k])
    {
      assert exists j | 0 <= j < |n.children| :: m.children[k] == g.root[n.children[j]];
      assert Slot(g, m.children[k]);
    }
    assert ChildFacts(t, m) == ChildFacts(g, m);
  }

  lemma StableIgnores(analysis: Analysis, g: Graph, id: Id, data: Fact, c: Id)
    requires WellFormed(g) && IsClass(g, id) && id < |g.classes| && g.classes[id].Some?
    requires WellFormed(Informed(g, id, data))
    requires IsClass(g, c) && !Uses(g, c, id)
    ensures ClassFact(analysis, Informed(g, id, data), c) == ClassFact(analysis, g, c)
    ensures c != id ==> (Stable(analysis, Informed(g, id, data), c) <==> Stable(analysis, g, c))
  {
    ClassAt(g, c);
    assert Slot(g, c);
    var nodes := g.classes[c].value.nodes;
    forall n | n in nodes
      ensures Below(n, |g.root|) && !Mentions(g.root, n, id)
    {
      assert Has(g, c, n);
      HasIsBelow(g, c, n);
    }
    NodesFactIgnores(analysis, g, id, data, nodes, |nodes|);
  }

  /** One recomputation: the class itself is up to date unless it uses itself, and
      whoever uses it is told if its fact moved or it was a seed. */
  lemma PropagateStep(analysis: Analysis, g0: Graph, seeds: seq<Id>, g: Graph, queue: seq<Id>, forced: set<Id>, id: Id,
                      rest: seq<Id>, more: seq<Id>, less: set<Id>, moved: bool)
    requires WellFormed(g0) && WellFormed(g) && g.root == g0.root && IsClass(g, id) && id < |g.classes|
    requires g.classes[id].Some?
    requires AllAccounted(analysis, g0, seeds, g, queue, forced) && forall q | q in queue :: q == id || q in rest
    requires moved <==> !Stable(analysis, g, id) || id in forced
    requires less == (if moved then forced - {id} else forced) && forall q | q in rest :: q in more
    requires moved ==> forall c | IsClass(g, c) && c != id && Uses(g, c, id) :: c in more
    ensures var h := Informed(g, id, ClassFact(analysis, g, id));
            WellFormed(h) && h.root == g0.root && AllAccounted(analysis, g0, seeds, h, more, less)
  {
    var data := ClassFact(analysis, g, id);
    var h := Informed(g, id, data);
    InformedView(g, id, data);
    forall c | IsClass(h, c)
      ensures Accounted(analysis, g0, seeds, h, more, less, c)
    {
      assert Accounted(analysis, g0, seeds, g, queue, forced, c);
      UsesSame(g, h, c);
      if !moved {
        assert h == g;
      } else if !Uses(g, c, id) {
        StableIgnores(analysis, g, id, data, c);
      }
    }
  }

  lemma UsesSame(g: Graph, h: Graph, c: Id)
    requires SameNodes(g, h)
    ensures forall x :: Uses(h, c, x) <==> Uses(g, c, x)
  {
    forall x
      ensures Uses(h, c, x) <==> Uses(g, c, x)
    {
      if Uses(g, c, x) {
        var n :| Has(g, c, n) && Below(n, |g.root|) && Mentions(g.root, n, x);
        assert Has(h, c, n);
      }
      if Uses(h, c, x) {
        var n :| Has(h, c, n) && Below(n, |h.root|) && Mentions(h.root, n, x);
        assert Has(g, c, n);
      }
    }
  }

  lemma SameNodesItself(g: Graph)
    ensures SameNodes(g, g)
  {
  }

  lemma SameNodesTransitive(f: Graph, g: Graph, h: Graph)
    requires SameNodes(f, g) && SameNodes(g, h)
    ensures SameNodes(f, h)
  {
  }

  lemma RestAreClasses(g0: Graph, g: Graph, queue: seq<Id>)
    requires g.root == g0.root && queue != [] && forall q | q in queue :: IsClass(g0, q)
    ensures IsClass(g, queue[|queue| - 1])
    ensures forall q | q in queue[..|queue| - 1] :: IsClass(g, q)
    ensures forall q | q in queue :: q == queue[|queue| - 1] || q in queue[..|queue| - 1]
  {
    forall q | q in queue[..|queue| - 1]
      ensures IsClass(g, q)
    {
      assert q in queue && IsClass(g0, q);
    }
    assert queue[|queue| - 1] in queue;
  }

  lemma UsersSame(g: Graph, h: Graph, id: Id)
    requires SameNodes(g, h)
    ensures forall c: Id :: Uses(h, c, id) <==> Uses(g, c, id)
  {
    forall c: Id
      ensures Uses(h, c, id) <==> Uses(g, c, id)
    {
      UsesSame(g, h, c);
    }
  }

  lemma PropagateStarts(analysis: Analysis, g: Graph, seeds: seq<Id>)
    requires WellFormed(g) && forall s | s in seeds :: IsClass(g, s)
    ensures AllAccounted(analysis, g, seeds, g, seeds, (set s | s in seeds))
  {
    forall c | IsClass(g, c)
      ensures Accounted(analysis, g, seeds, g, seeds, (set s | s in seeds), c)
    {
      if Hears(g, seeds, c) && c !in seeds {
        var s :| s in seeds && s < |g.root| && (g.root[s] == c || Uses(g, c, g.root[s]));
      }
    }
  }

  lemma PropagateEnds(analysis: Analysis, g0: Graph, pending: seq<Id>, seeds: seq<Id>, g: Graph, forced: set<Id>)
    requires WellFormed(g0) && WellFormed(g) && g.root == g0.root
    requires forall p | p in pending :: p < |g0.root| && g0.root[p] in seeds
    requires forall s | s in seeds :: IsClass(g0, s)
    requires AllAccounted(analysis, g0, seeds, g, [], forced) && forced == {}
    ensures Settles(analysis, g0, pending, g)
  {
    forall c | IsClass(g, c)
      ensures Stable(analysis, g, c) || Uses(g, c, c) || (!Stable(analysis, g0, c) && !Hears(g0, pending, c))
    {
      assert Accounted(analysis, g0, seeds, g, [], forced, c);
      if Hears(g0, pending, c) {
        var p :| p in pending && p < |g0.root| && (g0.root[p] == c || Uses(g0, c, g0.root[p]));
        assert g0.root[p] in seeds;
      }
    }
  }

  /** Each owner listed by a class uses it. */
  lemma OwnersUse(g: Graph, x: Id, e: Parent)
    requires WellFormed(g) && ParentsReal(g) && IsClass(g, x) && x < |g.classes| && g.classes[x].Some?
    requires e in g.classes[x].value.parents
    ensures e.owner < |g.root| && Uses(g, g.root[e.owner], x)
  {
    assert Slot(g, x) && HasParent(g, x, e);
    var c := g.root[e.owner];
    var n :| Has(g, c, n) && Below(n, |g.root|) && Canon(g.root, n) == Canon(g.root, e.node);
    CanonMentions(g.root, n, e.node, x);
  }

  /** The class was pending, or uses another visited before. */
  ghost predicate Prompted(g: Graph, pending: seq<Id>, visited: seq<Id>, c: Id) {
    Pends(g, pending, c) || exists x :: x in visited && Uses(g, c, x)
  }

  ghost predicate AllPrompted(g: Graph, pending: seq<Id>, visited: seq<Id>) {
    forall k | 0 <= k < |visited| :: Prompted(g, pending, visited[..k], visited[k])
  }

  lemma PromptedLater(g: Graph, pending: seq<Id>, visited: seq<Id>, id: Id, c: Id)
    requires Prompted(g, pending, visited, c)
    ensures Prompted(g, pending, visited + [id], c)
  {
    if !Pends(g, pending, c) {
      var x :| x in visited && Uses(g, c, x);
      assert x in visited + [id];
    }
  }

  lemma AllPromptedNext(g: Graph, pending: seq<Id>, visited: seq<Id>, id: Id)
    requires AllPrompted(g, pending, visited) && Prompted(g, pending, visited, id)
    ensures AllPrompted(g, pending, visited + [id])
  {
    hide Prompted;
    var all := visited + [id];
    forall k | 0 <= k < |all|
      ensures Prompted(g, pending, all[..k], all[k])
    {
      assert all[..k] == visited[..k];
    }
  }

  lemma NoneArePrompted(g: Graph, pending: seq<Id>)
    ensures AllPrompted(g, pending, [])
  {
  }

  lemma PendingArePrompted(g: Graph, pending: seq<Id>, seeds: seq<Id>)
    requires forall q | q in seeds :: Pends(g, pending, q)
    ensures forall q | q in seeds :: Prompted(g, pending, [], q)
  {
  }

  lemma QueuePrompted(g0: Graph, g: Graph, pending: seq<Id>, visited: seq<Id>, id: Id, queue: seq<Id>, more: seq<Id>)
    requires SameNodes(g0, g) && forall q | q in queue :: Prompted(g0, pending, visited, q)
    requires forall q | q in more :: q in queue || Uses(g, q, id)
    ensures forall q | q in more :: Prompted(g0, pending, visited + [id], q)
  {
    forall q | q in more
      ensures Prompted(g0, pending, visited + [id], q)
    {
      if q in queue {
        PromptedLater(g0, pending, visited, id, q);
      } else {
        UsesSame(g0, g, q);
        assert id in visited + [id];
      }
    }
  }

  /** If no class uses what is pending, nothing else is visited. */
  lemma {:induction false} OnlyThePending(g: Graph, pending: seq<Id>, visited: seq<Id>, n: nat)
    requires AllPrompted(g, pending, visited) && n <= |visited|
    requires forall c, x | Pends(g, pending, x) :: !Uses(g, c, x)
    ensures forall c | c in visited[..n] :: Pends(g, pending, c)
  {
    if n > 0 {
      OnlyThePending(g, pending, visited, n - 1);
      assert Prompted(g, pending, visited[..n - 1], visited[n - 1]);
      assert visited[..n] == visited[..n - 1] + [visited[n - 1]];
    }
  }

  /** The classes using one are among the owners of its parents. */
  lemma UsersAreOwners(g: Graph, x: Id, c: Id)
    requires WellFormed(g) && Covered(g) && g.held == [] && IsClass(g, x) && Uses(g, c, x)
    ensures x < |g.classes| && g.classes[x].Some?
    ensures exists e :: e in g.classes[x].value.parents && e.owner < |g.root| && g.root[e.owner] == c
  {
    ClassAt(g, x);
    var n :| Has(g, c, n) && Below(n, |g.root|) && Mentions(g.root, n, x);
    assert Lists(g, x, c, Canon(g.root, n));
    var e :| HasParent(g, x, e) && Below(e.node, |g.root|) && e.owner < |g.root|
             && Canon(g.root, e.node) == Canon(g.root, n) && g.root[e.owner] == c;
  }
}
