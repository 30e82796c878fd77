/** The partition a graph ends with is the least congruence containing what its
    callers added and asserted. */
module Congruences {
  import opened Lang
  import opened Graphs

  /** A node handed to the graph, and the id it came back as. */
  datatype Entry = Entry(node: ENode, id: Id)

  /** Two ids declared equal by a caller, or by constant folding. */
  datatype Equation = Equation(a: Id, b: Id)

  /** Every node handed to the graph has as many children as its operator takes. */
  predicate Proper(log: seq<Entry>) {
    forall e | e in log :: |e.node.children| == e.node.op.Arity()
  }

  predicate InRange(n: nat, log: seq<Entry>, asserted: seq<Equation>) {
    && (forall e | e in log :: Below(e.node, n) && e.id < n)
    && (forall q | q in asserted :: q.a < n && q.b < n)
  }

  /** A labelling of the ids that satisfies every asserted equation and gives
      one label to entries whose arguments agree. */
  predicate IsCongruence(part: seq<nat>, n: nat, log: seq<Entry>, asserted: seq<Equation>)
    requires InRange(n, log, asserted)
  {
    && |part| == n
    && (forall q | q in asserted :: part[q.a] == part[q.b])
    && (forall d, e | d in log && e in log && Congruent(part, d.node, e.node) :: part[d.id] == part[e.id])
  }

  /** A node of class `c` stands for an entry of the log. */
  ghost predicate Logged(part: seq<nat>, log: seq<Entry>, c: Id, node: ENode)
    requires Below(node, |part|) && c < |part|
  {
    exists e :: e in log && Below(e.node, |part|) && e.id < |part|
                && Congruent(part, e.node, node) && part[e.id] == part[c]
  }

  /** The labelling never separates what the graph has merged. */
  ghost predicate RefinedBy(part: seq<nat>, g: Graph, log: seq<Entry>)
    requires WellFormed(g)
  {
    && Coarsens(part, g.root)
    && (forall c: Id, node | Has(g, c, node) && Below(node, |part|) && c < |part| :: Logged(part, log, c, node))
  }

  /** Nothing is merged that some congruence keeps apart. */
  ghost predicate Sound(g: Graph, log: seq<Entry>, asserted: seq<Equation>) {
    && WellFormed(g)
    && InRange(|g.root|, log, asserted)
    && (forall part | IsCongruence(part, |g.root|, log, asserted) :: RefinedBy(part, g, log))
  }

  /** Everything added is present and everything asserted is merged. */
  ghost predicate Recorded(g: Graph, log: seq<Entry>, asserted: seq<Equation>) {
    && WellFormed(g)
    && InRange(|g.root|, log, asserted)
    && (forall e | e in log :: Owns(g, g.root[e.id], Canon(g.root, e.node)))
    && (forall q | q in asserted :: g.root[q.a] == g.root[q.b])
  }

  lemma CongruentIsTransitive(part: seq<nat>, a: ENode, b: ENode, c: ENode)
    requires Below(a, |part|) && Below(b, |part|) && Below(c, |part|)
    requires Congruent(part, a, b) && Congruent(part, b, c)
    ensures Congruent(part, a, c) && Congruent(part, b, a)
  {
    CanonDecidesCongruence(part, a, b);
    CanonDecidesCongruence(part, b, a);
    CanonDecidesCongruence(part, b, c);
    CanonDecidesCongruence(part, a, c);
  }

  /** A coarser labelling keeps congruent nodes congruent. */
  lemma CoarserCongruent(coarse: seq<nat>, fine: seq<nat>, a: ENode, b: ENode)
    requires Coarsens(coarse, fine) && Below(a, |fine|) && Below(b, |fine|)
    requires Canon(fine, a) == Canon(fine, b)
    ensures Congruent(coarse, a, b)
  {
    CanonOfCanon(coarse, fine, a);
    CanonOfCanon(coarse, fine, b);
    CanonDecidesCongruence(coarse, a, b);
  }

  /** Two classes owning one canonical form have one label. */
  lemma OwnersAgree(part: seq<nat>, g: Graph, log: seq<Entry>, asserted: seq<Equation>, ra: Id, rb: Id, m: ENode)
    requires Sound(g, log, asserted) && IsCongruence(part, |g.root|, log, asserted)
    requires Owns(g, ra, m) && Owns(g, rb, m)
    ensures ra < |g.root| && rb < |g.root| && part[ra] == part[rb]
  {
    var a :| Has(g, ra, a) && Below(a, |g.root|) && Canon(g.root, a) == m;
    var b :| Has(g, rb, b) && Below(b, |g.root|) && Canon(g.root, b) == m;
    assert RefinedBy(part, g, log);
    assert Logged(part, log, ra, a) && Logged(part, log, rb, b);
    var d :| d in log && Congruent(part, d.node, a) && part[d.id] == part[ra];
    var e :| e in log && Congruent(part, e.node, b) && part[e.id] == part[rb];
    CoarserCongruent(part, g.root, a, b);
    CongruentIsTransitive(part, e.node, b, b);
    CongruentIsTransitive(part, a, b, e.node);
    CongruentIsTransitive(part, d.node, a, e.node);
  }

  /** A union is sound when every congruence agrees to it. */
  lemma JoinSound(g: Graph, ra: Id, rb: Id, data: Fact, log: seq<Entry>, asserted: seq<Equation>)
    requires Sound(g, log, asserted) && Joinable(g, ra, rb)
    requires forall part | IsCongruence(part, |g.root|, log, asserted) :: part[ra] == part[rb]
    ensures Sound(Joined(g, ra, rb, data), log, asserted)
  {
    var j := Joined(g, ra, rb, data);
    JoinWellFormed(g, ra, rb, data);
    forall part | IsCongruence(part, |g.root|, log, asserted)
      ensures RefinedBy(part, j, log)
    {
      assert RefinedBy(part, g, log);
      forall c: Id, node | Has(j, c, node) && Below(node, |part|) && c < |part|
        ensures Logged(part, log, c, node)
      {
        JoinHas(g, ra, rb, data, c, node);
        assert Logged(part, log, if Has(g, c, node) then c else rb, node);
      }
    }
  }

  lemma JoinRecorded(g: Graph, ra: Id, rb: Id, data: Fact, log: seq<Entry>, asserted: seq<Equation>)
    requires Recorded(g, log, asserted) && Joinable(g, ra, rb)
    ensures Recorded(Joined(g, ra, rb, data), log, asserted)
  {
    var j := Joined(g, ra, rb, data);
    JoinWellFormed(g, ra, rb, data);
    forall e | e in log
      ensures Owns(j, j.root[e.id], Canon(j.root, e.node))
    {
      assert Slot(g, e.id);
      RootIsCoarser(g);
      CanonOfCanon(j.root, g.root, e.node);
      CanonOfCanon(g.root, g.root, e.node);
      JoinOwns(g, ra, rb, data, g.root[e.id], Canon(g.root, e.node));
    }
  }

  /** One partition, and classes containing the same nodes. */
  ghost predicate SameNodes(g: Graph, t: Graph) {
    t.root == g.root && (forall c: Id, node :: Has(t, c, node) <==> Has(g, c, node))
  }

  lemma SameNodesKeep(g: Graph, t: Graph, log: seq<Entry>, asserted: seq<Equation>)
    requires SameNodes(g, t) && WellFormed(t) && Sound(g, log, asserted) && Recorded(g, log, asserted)
    ensures Sound(t, log, asserted) && Recorded(t, log, asserted)
  {
    forall part | IsCongruence(part, |t.root|, log, asserted)
      ensures RefinedBy(part, t, log)
    {
      assert RefinedBy(part, g, log);
    }
    forall e | e in log
      ensures Owns(t, t.root[e.id], Canon(t.root, e.node))
    {
      var node :| Has(g, g.root[e.id], node) && Below(node, |g.root|) && Canon(g.root, node) == Canon(g.root, e.node);
      assert Has(t, g.root[e.id], node);
    }
  }

  /** Asserting an equation only strengthens what congruences must satisfy. */
  lemma AssertSound(g: Graph, log: seq<Entry>, asserted: seq<Equation>, q: Equation)
    requires Sound(g, log, asserted) && q.a < |g.root| && q.b < |g.root|
    ensures Sound(g, log, asserted + [q])
  {
    forall part | IsCongruence(part, |g.root|, log, asserted + [q])
      ensures RefinedBy(part, g, log)
    {
      assert forall p | p in asserted :: p in asserted + [q];
      assert IsCongruence(part, |g.root|, log, asserted);
    }
  }

  /** Adding a node the graph already has. */
  lemma HitSound(g: Graph, log: seq<Entry>, asserted: seq<Equation>, e: Entry)
    requires Sound(g, log, asserted) && Below(e.node, |g.root|) && e.id < |g.root|
    ensures Sound(g, log + [e], asserted)
  {
    forall part | IsCongruence(part, |g.root|, log + [e], asserted)
      ensures RefinedBy(part, g, log + [e])
    {
      assert forall d | d in log :: d in log + [e];
      assert IsCongruence(part, |g.root|, log, asserted);
      assert RefinedBy(part, g, log);
      forall c: Id, node | Has(g, c, node) && Below(node, |part|) && c < |part|
        ensures Logged(part, log + [e], c, node)
      {
        assert Logged(part, log, c, node);
      }
    }
  }

  lemma CongruentExtends(part: seq<nat>, more: seq<nat>, a: ENode, b: ENode)
    requires Below(a, |part|) && Below(b, |part|)
    ensures Congruent(part + more, a, b) <==> Congruent(part, a, b)
  {
  }

  /** A congruence of the longer record restricts to one of the shorter. */
  lemma Restricts(part: seq<nat>, n: nat, log: seq<Entry>, asserted: seq<Equation>, e: Entry)
    requires InRange(n, log, asserted) && Below(e.node, n) && e.id == n
    requires InRange(n + 1, log + [e], asserted) && IsCongruence(part, n + 1, log + [e], asserted)
    ensures IsCongruence(part[..n], n, log, asserted)
  {
    var less := part[..n];
    assert part == less + [part[n]];
    forall c, d | c in log && d in log && Congruent(less, c.node, d.node)
      ensures less[c.id] == less[d.id]
    {
      CongruentExtends(less, [part[n]], c.node, d.node);
      assert c in log + [e] && d in log + [e];
    }
  }

  /** Adding a node the graph does not have. */
  lemma AddSound(g: Graph, after: Graph, stored: ENode, fact: Fact, log: seq<Entry>, asserted: seq<Equation>, e: Entry)
    requires Sound(g, log, asserted) && Addable(g, after, stored, fact) && WellFormed(after)
    requires Below(e.node, |g.root|) && Canon(g.root, e.node) == stored && e.id == |g.root|
    ensures Sound(after, log + [e], asserted)
  {
    var n := |g.root|;
    forall part | IsCongruence(part, n + 1, log + [e], asserted)
      ensures RefinedBy(part, after, log + [e])
    {
      Restricts(part, n, log, asserted, e);
      AddRefined(g, after, stored, fact, part, log, e);
    }
  }

  lemma AddRefined(g: Graph, after: Graph, stored: ENode, fact: Fact, part: seq<nat>, log: seq<Entry>, e: Entry)
    requires Addable(g, after, stored, fact) && WellFormed(after) && |part| == |g.root| + 1
    requires RefinedBy(part[..|g.root|], g, log)
    requires Below(e.node, |g.root|) && Canon(g.root, e.node) == stored && e.id == |g.root|
    ensures RefinedBy(part, after, log + [e])
  {
    var n := |g.root|;
    var less := part[..n];
    assert part == less + [part[n]];
    forall i | 0 <= i <= n
      ensures after.root[i] <= n && part[after.root[i]] == part[i]
    {
      if i < n {
        assert Slot(g, i) && less[g.root[i]] == less[i];
      }
    }
    forall c: Id, node | Has(after, c, node) && Below(node, |part|) && c < |part|
      ensures Logged(part, log + [e], c, node)
    {
      AddHas(g, after, stored, fact, c, node);
      if Has(g, c, node) {
        HasIsBelow(g, c, node);
        assert Logged(less, log, c, node);
        var d :| d in log && Below(d.node, n) && d.id < n && Congruent(less, d.node, node) && less[d.id] == less[c];
        CongruentExtends(less, [part[n]], d.node, node);
        assert d in log + [e];
      } else {
        RootIsCoarser(g);
        CanonOfCanon(g.root, g.root, e.node);
        CoarserCongruent(less, g.root, e.node, stored);
        CongruentExtends(less, [part[n]], e.node, stored);
        assert e in log + [e];
      }
    }
  }

  lemma HitRecorded(g: Graph, log: seq<Entry>, asserted: seq<Equation>, e: Entry)
    requires Recorded(g, log, asserted) && Below(e.node, |g.root|) && e.id < |g.root|
    requires Owns(g, g.root[e.id], Canon(g.root, e.node))
    ensures Recorded(g, log + [e], asserted)
  {
  }

  lemma AddRecorded(g: Graph, after: Graph, stored: ENode, fact: Fact, log: seq<Entry>, asserted: seq<Equation>,
                    e: Entry)
    requires Recorded(g, log, asserted) && Addable(g, after, stored, fact) && WellFormed(after)
    requires Below(e.node, |g.root|) && Canon(g.root, e.node) == stored && e.id == |g.root|
    ensures Recorded(after, log + [e], asserted)
  {
    forall d | d in log + [e]
      ensures Below(d.node, |after.root|) && d.id < |after.root|
      ensures Owns(after, after.root[d.id], Canon(after.root, d.node))
    {
      CanonExtends(g.root, [|g.root|], d.node);
      if d in log {
        AddOwns(g, after, stored, fact, g.root[d.id], Canon(g.root, d.node));
      } else {
        CanonExtends(g.root, [|g.root|], stored);
        AddHas(g, after, stored, fact, |g.root|, stored);
      }
    }
  }

  /** With nothing pending, the partition is itself a congruence. */
  lemma RootIsCongruence(g: Graph, log: seq<Entry>, asserted: seq<Equation>)
    requires Dormant(g, {}) && Recorded(g, log, asserted)
    ensures IsCongruence(g.root, |g.root|, log, asserted)
  {
    forall d, e | d in log && e in log && Congruent(g.root, d.node, e.node)
      ensures g.root[d.id] == g.root[e.id]
    {
      CanonDecidesCongruence(g.root, d.node, e.node);
      var m := Canon(g.root, d.node);
      assert Owns(g, g.root[d.id], m) && Owns(g, g.root[e.id], m);
      var a :| Has(g, g.root[d.id], a) && Below(a, |g.root|) && Canon(g.root, a) == m;
      var b :| Has(g, g.root[e.id], b) && Below(b, |g.root|) && Canon(g.root, b) == m;
      CanonDecidesCongruence(g.root, a, b);
      DormantIsCongruent(g, a, b, g.root[d.id], g.root[e.id]);
    }
  }

  /** Two ids share a class exactly when every congruence of the record
      relates them: the partition is the least congruence. */
  lemma LeastCongruence(g: Graph, log: seq<Entry>, asserted: seq<Equation>, i: Id, j: Id)
    requires Dormant(g, {}) && Sound(g, log, asserted) && Recorded(g, log, asserted)
    requires i < |g.root| && j < |g.root|
    ensures g.root[i] == g.root[j] <==>
              forall part | IsCongruence(part, |g.root|, log, asserted) :: part[i] == part[j]
  {
    RootIsCongruence(g, log, asserted);
    forall part | IsCongruence(part, |g.root|, log, asserted)
      ensures g.root[i] == g.root[j] ==> part[i] == part[j]
    {
      assert RefinedBy(part, g, log);
      assert part[g.root[i]] == part[i] && part[g.root[j]] == part[j];
    }
  }

  // ----- two graphs of the same nodes and equations -----

  /** The ids of one graph as ids of another. */
  predicate Renames(to: seq<Id>, g: Graph, h: Graph) {
    |to| == |g.root| && forall i | 0 <= i < |to| :: to[i] < |h.root|
  }

  /** The other graph was given the node too, over the ids its children became,
      and returned the id the entry's became: up to classes. */
  predicate SameEntry(to: seq<Id>, root: seq<Id>, e: Entry, d: Entry)
    requires Below(e.node, |to|) && e.id < |to| && Below(d.node, |root|) && d.id < |root|
    requires forall i | 0 <= i < |to| :: to[i] < |root|
  {
    && d.node.op == e.node.op && |d.node.children| == |e.node.children|
    && (forall k | 0 <= k < |e.node.children| :: root[d.node.children[k]] == root[to[e.node.children[k]]])
    && root[d.id] == root[to[e.id]]
  }

  /** All that was added to one graph was added to the other, and all that was
      asserted of it asserted there, in whatever order and however mixed. */
  ghost predicate Carried(to: seq<Id>, g: Graph, log: seq<Entry>, asserted: seq<Equation>, h: Graph, log': seq<Entry>,
                          asserted': seq<Equation>)
    requires Renames(to, g, h) && InRange(|g.root|, log, asserted) && InRange(|h.root|, log', asserted')
  {
    && (forall e | e in log :: HasEntry(to, h.root, e, log'))
    && (forall q | q in asserted :: HasEquation(to, h.root, q, asserted'))
  }

  ghost predicate HasEntry(to: seq<Id>, root: seq<Id>, e: Entry, log: seq<Entry>)
    requires Below(e.node, |to|) && e.id < |to| && forall d | d in log :: Below(d.node, |root|) && d.id < |root|
    requires forall i | 0 <= i < |to| :: to[i] < |root|
  {
    exists d :: d in log && SameEntry(to, root, e, d)
  }

  ghost predicate HasEquation(to: seq<Id>, root: seq<Id>, q: Equation, asserted: seq<Equation>)
    requires q.a < |to| && q.b < |to| && forall p | p in asserted :: p.a < |root| && p.b < |root|
    requires forall i | 0 <= i < |to| :: to[i] < |root|
  {
    exists p :: p in asserted && root[p.a] == root[to[q.a]] && root[p.b] == root[to[q.b]]
  }

  function Renamed(to: seq<Id>, root: seq<Id>): (part: seq<Id>)
    requires forall i | 0 <= i < |to| :: to[i] < |root|
    ensures |part| == |to| && forall i | 0 <= i < |to| :: part[i] == root[to[i]]
  {
    seq(|to|, i requires 0 <= i < |to| => root[to[i]])
  }

  /** Congruent nodes are congruent as the other graph was given them. */
  lemma SameEntriesAgree(to: seq<Id>, root: seq<Id>, d: Entry, e: Entry, d': Entry, e': Entry)
    requires Below(d.node, |to|) && d.id < |to| && Below(e.node, |to|) && e.id < |to|
    requires Below(d'.node, |root|) && d'.id < |root| && Below(e'.node, |root|) && e'.id < |root|
    requires forall i | 0 <= i < |to| :: to[i] < |root|
    requires SameEntry(to, root, d, d') && SameEntry(to, root, e, e') && Congruent(Renamed(to, root), d.node, e.node)
    ensures Congruent(root, d'.node, e'.node)
  {
    var part := Renamed(to, root);
    if forall k | 0 <= k < |d.node.children| :: part[d.node.children[k]] == part[e.node.children[k]] {
      forall k | 0 <= k < |d'.node.children|
        ensures root[d'.node.children[k]] == root[e'.node.children[k]]
      {
        assert part[d.node.children[k]] == part[e.node.children[k]];
      }
    }
  }

  /** What one graph merges, a graph given no less merges. */
  lemma CarriedMerges(to: seq<Id>, g: Graph, log: seq<Entry>, asserted: seq<Equation>, h: Graph, log': seq<Entry>,
                      asserted': seq<Equation>, i: Id, j: Id)
    requires Sound(g, log, asserted) && Dormant(h, {}) && Recorded(h, log', asserted') && Renames(to, g, h)
    requires Carried(to, g, log, asserted, h, log', asserted')
    requires i < |g.root| && j < |g.root| && g.root[i] == g.root[j]
    ensures h.root[to[i]] == h.root[to[j]]
  {
    hide Dormant, Carried;
    var part := Renamed(to, h.root);
    RenamedIsCongruence(to, g, log, asserted, h, log', asserted');
    assert RefinedBy(part, g, log);
    assert part[g.root[i]] == part[i] && part[g.root[j]] == part[j];
  }

  /** The partition of the other graph, renamed, is a congruence of this one. */
  lemma RenamedIsCongruence(to: seq<Id>, g: Graph, log: seq<Entry>, asserted: seq<Equation>, h: Graph, log': seq<Entry>,
                            asserted': seq<Equation>)
    requires InRange(|g.root|, log, asserted) && Dormant(h, {}) && Recorded(h, log', asserted') && Renames(to, g, h)
    requires Carried(to, g, log, asserted, h, log', asserted')
    ensures IsCongruence(Renamed(to, h.root), |g.root|, log, asserted)
  {
    hide Congruent, HasEntry, Dormant, Owns, Canon;
    RootIsCongruence(h, log', asserted');
    var part := Renamed(to, h.root);
    forall q | q in asserted
      ensures part[q.a] == part[q.b]
    {
      assert HasEquation(to, h.root, q, asserted');
    }
    forall d, e | d in log && e in log && Congruent(part, d.node, e.node)
      ensures part[d.id] == part[e.id]
    {
      assert HasEntry(to, h.root, d, log') && HasEntry(to, h.root, e, log');
      RenamedEntries(to, h.root, log', asserted', d, e);
    }
  }

  lemma RenamedEntries(to: seq<Id>, root: seq<Id>, log: seq<Entry>, asserted: seq<Equation>, d: Entry, e: Entry)
    requires InRange(|root|, log, asserted) && IsCongruence(root, |root|, log, asserted)
    requires forall i | 0 <= i < |to| :: to[i] < |root|
    requires Below(d.node, |to|) && d.id < |to| && Below(e.node, |to|) && e.id < |to|
    requires HasEntry(to, root, d, log) && HasEntry(to, root, e, log) && Congruent(Renamed(to, root), d.node, e.node)
    ensures root[to[d.id]] == root[to[e.id]]
  {
    hide Congruent, SameEntry;
    var d' :| d' in log && SameEntry(to, root, d, d');
    var e' :| e' in log && SameEntry(to, root, e, e');
    SameEntriesAgree(to, root, d, e, d', e');
    SameIds(to, root, d, d');
    SameIds(to, root, e, e');
  }

  lemma SameIds(to: seq<Id>, root: seq<Id>, e: Entry, d: Entry)
    requires Below(e.node, |to|) && e.id < |to| && Below(d.node, |root|) && d.id < |root|
    requires (forall i | 0 <= i < |to| :: to[i] < |root|) && SameEntry(to, root, e, d)
    ensures root[d.id] == root[to[e.id]]
  {
  }

  /** Two graphs given the same nodes and the same equations have the same
      partition, however adding and asserting were mixed and ordered, and
      whatever ids came back. */
  lemma OrderDoesNotMatter(to: seq<Id>, back: seq<Id>, g: Graph, log: seq<Entry>, asserted: seq<Equation>, h: Graph,
                           log': seq<Entry>, asserted': seq<Equation>, i: Id, j: Id)
    requires Dormant(g, {}) && Sound(g, log, asserted) && Recorded(g, log, asserted)
    requires Dormant(h, {}) && Sound(h, log', asserted') && Recorded(h, log', asserted')
    requires Renames(to, g, h) && Carried(to, g, log, asserted, h, log', asserted')
    requires Renames(back, h, g) && Carried(back, h, log', asserted', g, log, asserted)
    requires forall x | 0 <= x < |to| :: g.root[back[to[x]]] == g.root[x]
    requires i < |g.root| && j < |g.root|
    ensures g.root[i] == g.root[j] <==> h.root[to[i]] == h.root[to[j]]
  {
    hide Dormant, Sound, Recorded, Carried;
    if g.root[i] == g.root[j] {
      CarriedMerges(to, g, log, asserted, h, log', asserted', i, j);
    }
    if h.root[to[i]] == h.root[to[j]] {
      CarriedMerges(back, h, log', asserted', g, log, asserted, to[i], to[j]);
    }
  }
}
