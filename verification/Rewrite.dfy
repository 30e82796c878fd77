/** Instantiating patterns, and rewrite rules: what to look for, when, and what
    to add. */
module Rewriting {
  import opened Options
  import opened Lang
  import opened UnionFinds
  import opened Graphs
  import opened Congruences
  import opened Meanings
  import opened Reindexing
  import opened Steps
  import opened Histories
  import opened Terms
  import opened Patterns
  import opened Matching
  import opened EGraphs
  import opened Conditions

  // ----- a clean graph -----

  /** In a clean graph every node has as many children as its operator takes, if
      every node added had. */
  lemma CleanIsSearchable(sem: Semantics, analysis: Analysis, faithful: bool, meaning: seq<Value>, g: Graph,
                          pending: seq<Id>, byOp: map<Op, seq<Id>>, log: seq<Entry>, asserted: seq<Equation>)
    requires Settled(sem, analysis, faithful, meaning, g, PendingSet(pending), log, asserted)
    requires Rebuilt(g, pending, byOp) && Proper(log)
    ensures Searchable(g)
  {
    IndexedIsDormant(g);
    RootIsCongruence(g, log, asserted);
    assert RefinedBy(g.root, g, log);
    forall c: Id, n | Has(g, c, n)
      ensures |n.children| == n.op.Arity()
    {
      HasIsBelow(g, c, n);
      assert Logged(g.root, log, c, n);
    }
  }

  /** A pattern names at most one class of a clean graph. */
  lemma {:induction false} NamesUnique(g: Graph, pat: Pattern, p: nat, s: Subst, c: Id, d: Id)
    requires Indexed(g) && Shaped(pat) && p < |pat.nodes| && Names(g, pat, p, s, c) && Names(g, pat, p, s, d)
    ensures c < |g.root| && d < |g.root| && g.root[c] == g.root[d]
    decreases p
  {
    if pat.nodes[p].Apply? {
      var n, m := NamesBy(g, pat, p, s, c);
      var n', m' := NamesBy(g, pat, p, s, d);
      forall k | 0 <= k < |m.children|
        ensures m.children[k] < |g.root| && m'.children[k] < |g.root| && g.root[m.children[k]] == g.root[m'.children[k]]
      {
        KidNames(g, pat, p, s, m.children, k);
        KidNames(g, pat, p, s, m'.children, k);
        NamesUnique(g, pat, pat.nodes[p].kids[k], s, m.children[k], m'.children[k]);
      }
      SameReading(g, g.root[c], g.root[d], n, m, n', m');
    }
  }

  lemma FlipIsCongruent(part: seq<nat>, n: ENode)
    requires Below(n, |part|)
    ensures Below(Flip(n), |part|) && Canon(part, Flip(n)) == Canon(part, n)
  {
    CanonDecidesCongruence(part, Flip(n), n);
  }

  /** Two nodes of a clean graph that can be read alike share a class. */
  lemma SameReading(g: Graph, c: Id, d: Id, n: ENode, m: ENode, n': ENode, m': ENode)
    requires Indexed(g) && Has(g, c, n) && Has(g, d, n') && (m == n || m == Flip(n)) && (m' == n' || m' == Flip(n'))
    requires m.op == m'.op && |m.children| == |m'.children|
    requires forall k | 0 <= k < |m.children| ::
               m.children[k] < |g.root| && m'.children[k] < |g.root| && g.root[m.children[k]] == g.root[m'.children[k]]
    ensures c == d
  {
    HasIsBelow(g, c, n);
    HasIsBelow(g, d, n');
    FlipIsCongruent(g.root, n);
    FlipIsCongruent(g.root, n');
    assert Congruent(g.root, m, m');
    CanonDecidesCongruence(g.root, m, m');
    assert Filing(g, c, n) && Filing(g, d, n');
  }

  // ----- instantiation -----

  /** Every variable of the pattern is bound to an id. */
  predicate Bindable(pat: Pattern, s: Subst, n: nat) {
    && (forall i | 0 <= i < |pat.nodes| && pat.nodes[i].Hole? :: pat.nodes[i].v in s)
    && (forall v | v in s :: s[v] < n)
  }

  lemma {:induction false} BindableVars(pat: Pattern, s: Subst, n: nat, p: nat)
    requires Shaped(pat) && Bindable(pat, s, n) && p < |pat.nodes|
    ensures VarsOf(pat, p) <= s.Keys
    decreases p, 1, 0
  {
    if pat.nodes[p].Apply? {
      BindableKids(pat, s, n, p, |pat.nodes[p].kids|);
    }
  }

  lemma {:induction false} BindableKids(pat: Pattern, s: Subst, n: nat, p: nat, k: nat)
    requires Shaped(pat) && Bindable(pat, s, n) && p < |pat.nodes| && pat.nodes[p].Apply? && k <= |pat.nodes[p].kids|
    ensures VarsOfKids(pat, p, k) <= s.Keys
    decreases p, 0, k
  {
    if k > 0 {
      KidVars(pat, p, k - 1, k);
      BindableKids(pat, s, n, p, k - 1);
      BindableVars(pat, s, n, pat.nodes[p].kids[k - 1]);
    }
  }

  /** Every part of the pattern already names a class. */
  ghost predicate AllNamed(g: Graph, pat: Pattern, s: Subst)
    requires Shaped(pat)
  {
    forall p | 0 <= p < |pat.nodes| :: Named(g, pat, p, s)
  }

  ghost predicate Named(g: Graph, pat: Pattern, p: nat, s: Subst)
    requires Shaped(pat) && p < |pat.nodes|
  {
    exists c: Id :: Names(g, pat, p, s, c)
  }

  /** The ids given to the children of a pattern node. */
  function KidIds(pat: Pattern, p: nat, ids: seq<Id>): (args: seq<Id>)
    requires Shaped(pat) && p < |pat.nodes| && pat.nodes[p].Apply? && |ids| == p
    ensures |args| == |pat.nodes[p].kids|
    ensures forall k | 0 <= k < |args| :: pat.nodes[p].kids[k] < p && args[k] == ids[pat.nodes[p].kids[k]]
  {
    assert KidsAreEarlier(pat.nodes, p);
    seq(|pat.nodes[p].kids|, k requires 0 <= k < |pat.nodes[p].kids| => ids[pat.nodes[p].kids[k]])
  }

  function KidNode(pat: Pattern, p: nat, ids: seq<Id>): (node: ENode)
    requires Shaped(pat) && p < |pat.nodes| && pat.nodes[p].Apply? && |ids| == p
    ensures |node.children| == node.op.Arity()
  {
    assert KidsAreEarlier(pat.nodes, p);
    ENode(pat.nodes[p].op, KidIds(pat, p, ids))
  }

  /** Parts that denote their values make a node that does. */
  lemma NodeHasValue(sem: Semantics, pat: Pattern, p: nat, values: map<Sym, Value>, meaning: seq<Value>, ids: seq<Id>)
    requires Shaped(pat) && p < |pat.nodes| && pat.nodes[p].Apply? && |ids| == p && VarsOf(pat, p) <= values.Keys
    requires forall k | 0 <= k < p :: ids[k] < |meaning|
    requires forall k | 0 <= k < p && VarsOf(pat, k) <= values.Keys :: meaning[ids[k]] == PatValue(sem, pat, k, values)
    ensures Below(KidNode(pat, p, ids), |meaning|)
    ensures Denotes(sem, meaning, KidNode(pat, p, ids)) == PatValue(sem, pat, p, values)
  {
    var node := KidNode(pat, p, ids);
    var n := |node.children|;
    forall k | 0 <= k < n
      ensures node.children[k] < |meaning| && KidValues(sem, pat, p, values, n)[k] == meaning[node.children[k]]
    {
      KidValueAt(sem, pat, p, values, k, n);
    }
    assert KidValues(sem, pat, p, values, n) == Arguments(meaning, node.children);
  }

  /** Parts that name their ids make a node whose class the pattern names. */
  lemma NodeIsNamed(g: Graph, pat: Pattern, p: nat, s: Subst, ids: seq<Id>, id: Id)
    requires WellFormed(g) && Shaped(pat) && p < |pat.nodes| && pat.nodes[p].Apply? && |ids| == p
    requires KidsName(g, pat, p, s, KidNode(pat, p, ids).children)
    requires Below(KidNode(pat, p, ids), |g.root|) && id < |g.root| && g.root[id] == id
    requires Owns(g, id, Canon(g.root, KidNode(pat, p, ids)))
    ensures Names(g, pat, p, s, id)
  {
    var node := KidNode(pat, p, ids);
    var own :| Has(g, id, own) && Below(own, |g.root|) && Canon(g.root, own) == Canon(g.root, node);
    var m := Rearranged(g, node, node, own);
    forall k | 0 <= k < |m.children|
      ensures pat.nodes[p].kids[k] < p && Names(g, pat, pat.nodes[p].kids[k], s, m.children[k])
    {
      KidNames(g, pat, p, s, node.children, k);
      NamesOfRoot(g, pat, pat.nodes[p].kids[k], s, node.children[k], m.children[k]);
    }
    assert KidsName(g, pat, p, s, m.children);
    assert own.op == pat.nodes[p].op by {
      CanonDecidesCongruence(g.root, own, node);
    }
  }

  /** A named part is found by the hashcons of a clean graph. */
  lemma NamedIsFiled(g: Graph, pat: Pattern, p: nat, s: Subst, ids: seq<Id>)
    requires Indexed(g) && Shaped(pat) && p < |pat.nodes| && pat.nodes[p].Apply? && |ids| == p && Named(g, pat, p, s)
    requires forall k | 0 <= k < p :: Names(g, pat, k, s, ids[k])
    requires Below(KidNode(pat, p, ids), |g.root|)
    ensures Canon(g.root, KidNode(pat, p, ids)) in g.memo
  {
    var node := KidNode(pat, p, ids);
    var c: Id :| Names(g, pat, p, s, c);
    var n, m := NamesBy(g, pat, p, s, c);
    forall k | 0 <= k < |m.children|
      ensures m.children[k] < |g.root| && g.root[m.children[k]] == g.root[node.children[k]]
    {
      KidNames(g, pat, p, s, m.children, k);
      NamesUnique(g, pat, pat.nodes[p].kids[k], s, m.children[k], node.children[k]);
    }
    ReadingIsFiled(g, g.root[c], n, m, node);
  }

  lemma ReadingIsFiled(g: Graph, c: Id, n: ENode, m: ENode, node: ENode)
    requires Indexed(g) && Has(g, c, n) && (m == n || m == Flip(n)) && Below(node, |g.root|)
    requires m.op == node.op && |m.children| == |node.children|
    requires forall k | 0 <= k < |m.children| ::
               m.children[k] < |g.root| && g.root[m.children[k]] == g.root[node.children[k]]
    ensures Canon(g.root, node) in g.memo
  {
    HasIsBelow(g, c, n);
    FlipIsCongruent(g.root, n);
    assert Congruent(g.root, m, node);
    CanonDecidesCongruence(g.root, m, node);
    assert Filing(g, c, n);
  }

  /** The part denotes what the pattern does under the substitution. */
  ghost predicate HasValue(sem: Semantics, pat: Pattern, p: nat, values: map<Sym, Value>, meaning: seq<Value>, id: Id)
    requires Shaped(pat) && p < |pat.nodes|
  {
    VarsOf(pat, p) <= values.Keys && id < |meaning| && meaning[id] == PatValue(sem, pat, p, values)
  }

  /** Part `p` has been given an id whose class it names, that denotes its value;
      and unless the id is new, it named the class to begin with. */
  ghost predicate PartDone(sem: Semantics, g0: Graph, before: Ledger, g: Graph, now: Ledger, truthful: bool,
                           pat: Pattern, s: Subst, p: nat, id: Id)
    requires Shaped(pat) && p < |pat.nodes| && Bindable(pat, s, |before.meaning|)
  {
    && id < |g.root| && Names(g, pat, p, s, id)
    && (id < |g0.root| ==> Names(g0, pat, p, s, id))
    && (truthful ==> HasValue(sem, pat, p, Assigned(before.meaning, s), now.meaning, id))
  }

  /** The graph only grew, by one class for each node that was new. */
  ghost predicate OnlyGrew(g0: Graph, before: Ledger, g: Graph, now: Ledger) {
    && Extends(before, now, false) && (now.faithful ==> before.faithful) && now.asserted == before.asserted
    && Enlarged(g0, g)
    && now.classCount - before.classCount == |g.root| - |g0.root|
    && now.quiet == before.quiet
    && (|g.root| == |g0.root| ==> g == g0)
  }

  lemma PartStaysDone(sem: Semantics, g0: Graph, before: Ledger, g: Graph, now: Ledger, h: Graph, next: Ledger,
                      truthful: bool,
                      pat: Pattern, s: Subst, p: nat, id: Id)
    requires Shaped(pat) && p < |pat.nodes| && Bindable(pat, s, |before.meaning|)
    requires PartDone(sem, g0, before, g, now, truthful, pat, s, p, id)
    requires Enlarged(g, h) && now.meaning <= next.meaning
    ensures PartDone(sem, g0, before, h, next, truthful, pat, s, p, id)
  {
    EnlargedIsLater(g, h);
    NamesLasts(g, h, pat, p, s, id);
  }

  lemma GrowsMore(g0: Graph, before: Ledger, g: Graph, now: Ledger, h: Graph, next: Ledger)
    requires OnlyGrew(g0, before, g, now) && OnlyGrew(g, now, h, next)
    ensures OnlyGrew(g0, before, h, next) && (h == g0 ==> g == g0)
  {
    hide Extends, Enlarged;
    ExtendsTransitive(before, now, next, false);
    EnlargedTransitive(g0, g, h);
    EnlargedIsLater(g0, g);
    EnlargedIsLater(g, h);
  }

  /** A variable is done with the id it is bound to. */
  lemma HoleIsDone(sem: Semantics, g0: Graph, before: Ledger, g: Graph, now: Ledger, truthful: bool, pat: Pattern,
                   s: Subst, p: nat)
    requires Shaped(pat) && p < |pat.nodes| && pat.nodes[p].Hole? && Bindable(pat, s, |before.meaning|)
    requires |before.meaning| == |g0.root| && OnlyGrew(g0, before, g, now) && WellFormed(g0)
    ensures PartDone(sem, g0, before, g, now, truthful, pat, s, p, s[pat.nodes[p].v])
  {
    var v := pat.nodes[p].v;
    assert s[v] < |g0.root| && Assigned(before.meaning, s)[v] == before.meaning[s[v]];
  }

  /** A node owned by an old class has old children, and that class owned it. */
  lemma OldNode(g0: Graph, h: Graph, node: ENode, id: Id)
    requires Enlarged(g0, h) && id < |g0.root| && h.root[id] == id && Below(node, |h.root|)
    requires Owns(h, id, Canon(h.root, node))
    ensures Below(node, |g0.root|) && g0.root[id] == id && Owns(g0, id, Canon(g0.root, node))
  {
    var own :| Has(h, id, own) && Below(own, |h.root|) && Canon(h.root, own) == Canon(h.root, node);
    assert Has(g0, id, own);
    HasIsBelow(g0, id, own);
    var m := Rearranged(h, own, own, node);
    assert h.root == g0.root + h.root[|g0.root|..];
    forall k | 0 <= k < |node.children|
      ensures node.children[k] < |g0.root|
    {
      var j :| 0 <= j < |m.children| && m.children[j] == node.children[k];
      assert Slot(g0, own.children[j]);
      assert h.root[node.children[k]] == h.root[own.children[j]] == g0.root[own.children[j]];
    }
    CanonExtends(g0.root, h.root[|g0.root|..], node);
    CanonExtends(g0.root, h.root[|g0.root|..], own);
  }

  /** A node added over parts that are done is done. */
  lemma NodeIsDone(sem: Semantics, g0: Graph, before: Ledger, g: Graph, now: Ledger, h: Graph, next: Ledger,
                   truthful: bool,
                   pat: Pattern, s: Subst, ids: seq<Id>, id: Id)
    requires Shaped(pat) && |ids| < |pat.nodes| && pat.nodes[|ids|].Apply? && Bindable(pat, s, |before.meaning|)
    requires forall k | 0 <= k < |ids| :: PartDone(sem, g0, before, g, now, truthful, pat, s, k, ids[k])
    requires OnlyGrew(g0, before, g, now) && OnlyGrew(g, now, h, next) && |now.meaning| == |g.root| && WellFormed(h)
    requires Below(KidNode(pat, |ids|, ids), |g.root|) && id < |h.root| == |next.meaning| && h.root[id] == id
    requires Below(KidNode(pat, |ids|, ids), |h.root|) && Owns(h, id, Canon(h.root, KidNode(pat, |ids|, ids)))
    requires truthful ==> next.meaning[id] == Denotes(sem, now.meaning, KidNode(pat, |ids|, ids))
    ensures PartDone(sem, g0, before, h, next, truthful, pat, s, |ids|, id)
  {
    hide Names, Extends, Canon, Owns;
    var p := |ids|;
    assert forall k | 0 <= k < p :: PartDone(sem, g0, before, g, now, truthful, pat, s, k, ids[k]);
    forall k | 0 <= k < p
      ensures Names(h, pat, k, s, ids[k])
    {
      EnlargedIsLater(g, h);
      NamesLasts(g, h, pat, k, s, ids[k]);
    }
    NodeIsNamed(h, pat, p, s, ids, id);
    if id < |g0.root| {
      EnlargedTransitive(g0, g, h);
      OldNode(g0, h, KidNode(pat, p, ids), id);
      NodeIsNamed(g0, pat, p, s, ids, id);
    }
    if truthful {
      BindableVars(pat, s, |before.meaning|, p);
      NodeHasValue(sem, pat, p, Assigned(before.meaning, s), now.meaning, ids);
    }
  }

  /** What is in the graph is true, and adding the pattern leaves it so. */
  ghost predicate IsTruthful(e: EGraph, pat: Pattern)
    reads e
  {
    Respects(e.sem, e.analysis) && e.faithful && AllVouched(e.sem, pat)
  }

  /** Add the pattern with the substitution applied: it names the class returned, and
      did before unless that is new. If every part of it is in the graph already,
      nothing is added. */
  method Instantiate(e: EGraph, pat: Pattern, s: Subst) returns (id: Id)
    requires e.Valid() && Shaped(pat) && Bindable(pat, s, |e.unionfind.root|)
    modifies e, e.unionfind
    ensures e.Valid() && Bindable(pat, s, |old(e.meaning)|) && Bindable(pat, s, |e.unionfind.root|)
    ensures OnlyGrew(old(e.View()), old(e.Account()), e.View(), e.Account())
    ensures PartDone(e.sem, old(e.View()), old(e.Account()), e.View(), e.Account(), old(IsTruthful(e, pat)), pat, s,
                     |pat.nodes| - 1, id)
    ensures old(IsTruthful(e, pat)) ==> e.faithful
    ensures old(e.clean) && AllNamed(old(e.View()), pat, s) ==> e.View() == old(e.View())
    ensures e.View() == old(e.View()) ==> e.clean == old(e.clean) && e.analysisPending == old(e.analysisPending)
    ensures e.nodeCount >= old(e.nodeCount) && e.history == old(e.history)
  {
    hide Settled, Forest, Recounted, NodeTotal, Occupied, Rebuilt, Bookkept, Respects, Names, Canon, Owns, Denotes,
         HasValue, PartDone, OnlyGrew, AllNamed, WellFormed, Extends;
    ghost var g0, before := e.View(), e.Account();
    ghost var truthful := IsTruthful(e, pat);
    var ids: seq<Id> := [];
    GraphIsWellFormed(g0, e.pending, e.Awaited(), e.classCount, e.nodeCount);
    GrewNothing(g0, before);
    for p := 0 to |pat.nodes|
      invariant e.Valid() && |ids| == p
      invariant OnlyGrew(g0, before, e.View(), e.Account())
      invariant truthful ==> IsTruthful(e, pat)
      invariant forall k | 0 <= k < p :: PartDone(e.sem, g0, before, e.View(), e.Account(), truthful, pat, s, k, ids[k])
      invariant old(e.clean) && AllNamed(g0, pat, s) ==> e.View() == g0
      invariant e.View() == g0 ==> e.clean == old(e.clean) && e.analysisPending == old(e.analysisPending)
      invariant e.nodeCount >= old(e.nodeCount) && e.history == old(e.history)
    {
      var id := InstantiateNode(e, pat, s, p, ids, g0, before, truthful);
      ids := ids + [id];
    }
    id := ids[|ids| - 1];
    GrewAtLeast(g0, before, e.View(), e.Account());
  }

  lemma GrewAtLeast(g0: Graph, before: Ledger, g: Graph, now: Ledger)
    requires OnlyGrew(g0, before, g, now)
    ensures |g.root| >= |g0.root|
  {
    EnlargedIsLater(g0, g);
  }

  /** One node of the pattern, its children instantiated. */
  method InstantiateNode(e: EGraph, pat: Pattern, s: Subst, p: nat, ids: seq<Id>, ghost g0: Graph, ghost before: Ledger,
                         ghost truthful: bool) returns (id: Id)
    requires e.Valid() && Shaped(pat) && p < |pat.nodes| && |ids| == p && Bindable(pat, s, |before.meaning|)
    requires |before.meaning| == |g0.root| && WellFormed(g0) && OnlyGrew(g0, before, e.View(), e.Account())
    requires truthful ==> IsTruthful(e, pat)
    requires forall k | 0 <= k < p :: PartDone(e.sem, g0, before, e.View(), e.Account(), truthful, pat, s, k, ids[k])
    modifies e, e.unionfind
    ensures e.Valid() && OnlyGrew(g0, before, e.View(), e.Account())
    ensures forall k | 0 <= k < p :: PartDone(e.sem, g0, before, e.View(), e.Account(), truthful, pat, s, k, ids[k])
    ensures PartDone(e.sem, g0, before, e.View(), e.Account(), truthful, pat, s, p, id)
    ensures old(e.clean) && old(e.View()) == g0 && AllNamed(g0, pat, s) ==> e.View() == g0
    ensures e.View() == old(e.View()) ==> e.clean == old(e.clean) && e.analysisPending == old(e.analysisPending)
    ensures e.View() == g0 ==> old(e.View()) == g0
    ensures e.nodeCount >= old(e.nodeCount) && e.history == old(e.history) && (truthful ==> e.faithful)
  {
    hide Settled, Forest, Recounted, NodeTotal, Occupied, Rebuilt, Bookkept, Respects, Names, Canon, Owns, Denotes,
         HasValue, PartDone, OnlyGrew, AllNamed, WellFormed, Extends;
    ghost var g, now := e.View(), e.Account();
    match pat.nodes[p] {
      case Hole(v) =>
        id := s[v];
        HoleIsDone(e.sem, g0, before, g, now, truthful, pat, s, p);
      case Apply(op, kids) =>
        PartsAreBelow(e.sem, g0, before, g, now, truthful, pat, s, ids);
        if e.clean && g == g0 && AllNamed(g0, pat, s) {
          PartIsFiled(e.sem, e.analysis, g0, before, g, now, truthful, pat, s, ids, e.pending, e.byOp);
        }
        id := AddPart(e, pat, p, ids, truthful);
        NodeStep(e.sem, g0, before, g, now, e.View(), e.Account(), truthful, pat, s, ids, id);
    }
  }

  lemma NodeStep(sem: Semantics, g0: Graph, before: Ledger, g: Graph, now: Ledger, h: Graph, next: Ledger,
                 truthful: bool,
                 pat: Pattern, s: Subst, ids: seq<Id>, id: Id)
    requires Shaped(pat) && |ids| < |pat.nodes| && pat.nodes[|ids|].Apply? && Bindable(pat, s, |before.meaning|)
    requires forall k | 0 <= k < |ids| :: PartDone(sem, g0, before, g, now, truthful, pat, s, k, ids[k])
    requires OnlyGrew(g0, before, g, now) && OnlyGrew(g, now, h, next) && |now.meaning| == |g.root| && WellFormed(h)
    requires Below(KidNode(pat, |ids|, ids), |g.root|) && id < |h.root| == |next.meaning| && h.root[id] == id
    requires Below(KidNode(pat, |ids|, ids), |h.root|) && Owns(h, id, Canon(h.root, KidNode(pat, |ids|, ids)))
    requires truthful ==> next.meaning[id] == Denotes(sem, now.meaning, KidNode(pat, |ids|, ids))
    ensures OnlyGrew(g0, before, h, next) && (h == g0 ==> g == g0)
    ensures forall k | 0 <= k < |ids| :: PartDone(sem, g0, before, h, next, truthful, pat, s, k, ids[k])
    ensures PartDone(sem, g0, before, h, next, truthful, pat, s, |ids|, id)
  {
    GrowsMore(g0, before, g, now, h, next);
    NodeIsDone(sem, g0, before, g, now, h, next, truthful, pat, s, ids, id);
    forall k | 0 <= k < |ids|
      ensures PartDone(sem, g0, before, h, next, truthful, pat, s, k, ids[k])
    {
      PartStaysDone(sem, g0, before, g, now, h, next, truthful, pat, s, k, ids[k]);
    }
  }

  /** Add the node of an operator over ids given to its children. */
  method AddPart(e: EGraph, pat: Pattern, p: nat, ids: seq<Id>, ghost truthful: bool) returns (id: Id)
    requires e.Valid() && Shaped(pat) && p < |pat.nodes| && pat.nodes[p].Apply? && |ids| == p
    requires Below(KidNode(pat, p, ids), |e.unionfind.root|)
    requires truthful ==> IsTruthful(e, pat)
    modifies e, e.unionfind
    ensures e.Valid() && OnlyGrew(old(e.View()), old(e.Account()), e.View(), e.Account()) && WellFormed(e.View())
    ensures id < |e.unionfind.root| && e.unionfind.root[id] == id && Below(KidNode(pat, p, ids), |e.unionfind.root|)
    ensures Owns(e.View(), id, Canon(e.unionfind.root, KidNode(pat, p, ids)))
    ensures truthful ==> e.meaning[id] == old(Denotes(e.sem, e.meaning, KidNode(pat, p, ids)))
    ensures old(Canon(e.unionfind.root, KidNode(pat, p, ids)) in e.memo) ==> e.View() == old(e.View())
    ensures e.View() == old(e.View()) ==> e.clean == old(e.clean) && e.analysisPending == old(e.analysisPending)
    ensures e.nodeCount >= old(e.nodeCount) && e.history == old(e.history) && (truthful ==> e.faithful)
  {
    hide Settled, Forest, Recounted, NodeTotal, Occupied, Rebuilt, Bookkept, Respects, Canon, Owns, Denotes,
         OnlyGrew, WellFormed, Extends;
    ghost var g, now := e.View(), e.Account();
    var args := CollectIds(pat, p, ids);
    id := e.Add(ENode(pat.nodes[p].op, args));
    GraphIsWellFormed(e.View(), e.pending, e.Awaited(), e.classCount, e.nodeCount);
    AddGrows(e.sem, g, now, e.View(), e.Account(), KidNode(pat, p, ids), id);
  }

  method CollectIds(pat: Pattern, p: nat, ids: seq<Id>) returns (args: seq<Id>)
    requires Shaped(pat) && p < |pat.nodes| && pat.nodes[p].Apply? && |ids| == p
    ensures args == KidIds(pat, p, ids)
  {
    assert KidsAreEarlier(pat.nodes, p);
    args := [];
    for k := 0 to |pat.nodes[p].kids|
      invariant |args| == k && forall j | 0 <= j < k :: args[j] == KidIds(pat, p, ids)[j]
    {
      args := args + [ids[pat.nodes[p].kids[k]]];
    }
  }

  lemma PartsAreBelow(sem: Semantics, g0: Graph, before: Ledger, g: Graph, now: Ledger, truthful: bool,
                      pat: Pattern, s: Subst, ids: seq<Id>)
    requires Shaped(pat) && |ids| < |pat.nodes| && pat.nodes[|ids|].Apply? && Bindable(pat, s, |before.meaning|)
    requires forall k | 0 <= k < |ids| :: PartDone(sem, g0, before, g, now, truthful, pat, s, k, ids[k])
    ensures Below(KidNode(pat, |ids|, ids), |g.root|)
  {
    forall k | 0 <= k < |ids|
      ensures ids[k] < |g.root|
    {
      assert PartDone(sem, g0, before, g, now, truthful, pat, s, k, ids[k]);
    }
  }

  lemma PartIsFiled(sem: Semantics, analysis: Analysis, g0: Graph, before: Ledger, g: Graph, now: Ledger,
                    truthful: bool,
                    pat: Pattern, s: Subst, ids: seq<Id>, pending: seq<Id>, byOp: map<Op, seq<Id>>)
    requires Shaped(pat) && |ids| < |pat.nodes| && pat.nodes[|ids|].Apply? && Bindable(pat, s, |before.meaning|)
    requires forall k | 0 <= k < |ids| :: PartDone(sem, g0, before, g, now, truthful, pat, s, k, ids[k])
    requires g == g0 && Rebuilt(g, pending, byOp) && AllNamed(g0, pat, s) && Below(KidNode(pat, |ids|, ids), |g.root|)
    ensures Canon(g.root, KidNode(pat, |ids|, ids)) in g.memo
  {
    forall k | 0 <= k < |ids|
      ensures Names(g, pat, k, s, ids[k])
    {
      assert PartDone(sem, g0, before, g, now, truthful, pat, s, k, ids[k]);
    }
    assert Named(g0, pat, |ids|, s);
    NamedIsFiled(g, pat, |ids|, s, ids);
  }

  lemma AddGrows(sem: Semantics, g: Graph, before: Ledger, h: Graph, now: Ledger, node: ENode, id: Id)
    requires Enlarged(g, h) && (h == g || h.root == g.root + [id])
    requires before.root == g.root && now.root == h.root
    requires now.classCount - before.classCount == |h.root| - |g.root| && now.quiet == before.quiet
    requires now.log == before.log + [Entry(node, id)] && |node.children| == node.op.Arity()
    requires now.asserted == before.asserted && before.meaning <= now.meaning
    requires now.traced == before.traced && now.faithful == (before.faithful && Vouched(sem, node))
    ensures OnlyGrew(g, before, h, now)
  {
    AddExtends(sem, before, now, node, id, false);
    EnlargedIsLater(g, h);
    if |h.root| == |g.root| {
      assert h.root == g.root;
    }
  }

  lemma GrewNothing(g: Graph, a: Ledger)
    requires WellFormed(g)
    ensures OnlyGrew(g, a, g, a)
  {
  }

  // ----- rules -----

  datatype Rule = Rule(name: string, lhs: Pattern, rhs: Pattern, condition: Option<Condition>)

  predicate IsTrivial(pat: Pattern) {
    |pat.nodes| == 1 && pat.nodes[0].Hole?
  }

  /** The left side is not a bare variable, and binds whatever the right side
      uses. */
  predicate GoodRule(r: Rule) {
    && Shaped(r.lhs) && Shaped(r.rhs) && !IsTrivial(r.lhs)
    && (forall i | 0 <= i < |r.rhs.nodes| && r.rhs.nodes[i].Hole? ::
          r.rhs.nodes[i].v in VarsOf(r.lhs, |r.lhs.nodes| - 1))
    && AllUsed(r.rhs)
  }

  /** The rule's condition holds of a match in the graph. */
  ghost predicate Fires(g: Graph, r: Rule, d: Fact, facts: map<Sym, Fact>, s: Subst) {
    r.condition.None? || HoldsOf(g, r.condition.value, d, facts, s)
  }

  /** What the rule's condition says of values. */
  ghost predicate Licensed(sem: Semantics, r: Rule, d: Fact, facts: map<Sym, Fact>, values: map<Sym, Value>) {
    r.condition.None? || Grants(sem, r.condition.value, d, facts, values)
  }

  /** The facts are true of the values. */
  ghost predicate FactsHold(sem: Semantics, facts: map<Sym, Fact>, values: map<Sym, Value>) {
    facts.Keys == values.Keys && forall v | v in facts :: sem.holds(facts[v], values[v])
  }

  /** Wherever the facts its condition reads are true, and what it grants holds, the
      two sides denote one value; and what it adds is vouched for. */
  ghost predicate SoundRule(sem: Semantics, r: Rule)
    requires GoodRule(r)
  {
    && AllVouched(sem, r.rhs)
    && forall values: map<Sym, Value>, facts: map<Sym, Fact>, d: Fact
      | && VarsOf(r.lhs, |r.lhs.nodes| - 1) <= values.Keys && VarsOf(r.rhs, |r.rhs.nodes| - 1) <= values.Keys
        && FactsHold(sem, facts, values) && sem.holds(d, PatValue(sem, r.lhs, |r.lhs.nodes| - 1, values))
        && Licensed(sem, r, d, facts, values)
      :: PatValue(sem, r.lhs, |r.lhs.nodes| - 1, values) == PatValue(sem, r.rhs, |r.rhs.nodes| - 1, values)
  }

  /** The substitution binds what the left side uses. */
  predicate BindsRule(r: Rule, s: Subst, n: nat)
    requires GoodRule(r)
  {
    VarsOf(r.lhs, |r.lhs.nodes| - 1) <= s.Keys && forall v | v in s :: s[v] < n
  }

  /** The left side under the substitution denotes what the class does. */
  ghost predicate TrueMatch(sem: Semantics, r: Rule, meaning: seq<Value>, c: Id, s: Subst)
    requires GoodRule(r) && BindsRule(r, s, |meaning|) && c < |meaning|
  {
    PatValue(sem, r.lhs, |r.lhs.nodes| - 1, Assigned(meaning, s)) == meaning[c]
  }

  lemma RuleIsBindable(r: Rule, s: Subst, n: nat)
    requires GoodRule(r) && BindsRule(r, s, n)
    ensures Shaped(r.rhs) && Bindable(r.rhs, s, n) && AllUsed(r.rhs)
  {
  }

  /** A sound rule fired on a true match adds an equal term. */
  lemma FiringIsSound(sem: Semantics, r: Rule, meaning: seq<Value>, c: Id, s: Subst, facts: map<Sym, Fact>, d: Fact)
    requires GoodRule(r) && BindsRule(r, s, |meaning|) && c < |meaning| && TrueMatch(sem, r, meaning, c, s)
    requires SoundRule(sem, r) && Licensed(sem, r, d, facts, Assigned(meaning, s))
    requires FactsHold(sem, facts, Assigned(meaning, s)) && sem.holds(d, meaning[c])
    ensures VarsOf(r.rhs, |r.rhs.nodes| - 1) <= s.Keys
    ensures PatValue(sem, r.rhs, |r.rhs.nodes| - 1, Assigned(meaning, s)) == meaning[c] && AllVouched(sem, r.rhs)
  {
    BindableVars(r.rhs, s, |meaning|, |r.rhs.nodes| - 1);
    var values := Assigned(meaning, s);
    assert FactsHold(sem, facts, values);
  }

  /** The fact of a class. */
  method FactOfClass(e: EGraph, c: Id) returns (d: Fact)
    requires e.Core() && c < |e.unionfind.root|
    ensures d == FactAt(e.View(), c)
  {
    hide Forest, Recounted, NodeTotal, Occupied;
    assert Slot(e.View(), c) && Slot(e.View(), e.unionfind.root[c]);
    var r := e.Find(c);
    d := e.classes[r].value.data;
  }

  /** The facts of the classes a substitution binds. */
  method FactsOf(e: EGraph, s: Subst) returns (facts: map<Sym, Fact>)
    requires e.Core() && forall v | v in s :: s[v] < |e.unionfind.root|
    ensures facts.Keys == s.Keys && forall v | v in s :: facts[v] == FactAt(e.View(), s[v])
  {
    hide Forest, Recounted, NodeTotal, Occupied, WellFormed, Bookkept;
    GraphIsWellFormed(e.View(), e.pending, e.Awaited(), e.classCount, e.nodeCount);
    facts := map[];
    var rest := s.Keys;
    while rest != {}
      invariant rest <= s.Keys && facts.Keys == s.Keys - rest
      invariant forall v | v in facts :: facts[v] == FactAt(e.View(), s[v])
    {
      var v :| v in rest;
      var d := FactOfClass(e, s[v]);
      facts := facts[v := d];
      rest := rest - {v};
    }
  }

  lemma FactIsTrueAt(sem: Semantics, meaning: seq<Value>, g: Graph, x: Id)
    requires Meaningful(sem, meaning, g) && Factual(sem, meaning, g) && x < |g.root|
    ensures sem.holds(FactAt(g, x), meaning[x])
  {
    assert Slot(g, x) && Slot(g, g.root[x]) && meaning[g.root[x]] == meaning[x];
  }

  /** The facts of a faithful graph are true. */
  lemma FactsAreTrue(sem: Semantics, analysis: Analysis, faithful: bool, meaning: seq<Value>, g: Graph, s: Subst, c: Id,
                     facts: map<Sym, Fact>)
    requires WellFormed(g) && Faithful(sem, analysis, faithful, meaning, g) && Respects(sem, analysis) && faithful
    requires c < |g.root| && forall v | v in s :: s[v] < |g.root|
    requires facts.Keys == s.Keys && forall v | v in s :: facts[v] == FactAt(g, s[v])
    ensures |meaning| == |g.root| && FactsHold(sem, facts, Assigned(meaning, s)) && sem.holds(FactAt(g, c), meaning[c])
  {
    hide Respects, Meaningful, Factual, WellFormed, FactAt, Constantless, Foldless;
    forall x: Id | x < |g.root|
      ensures sem.holds(FactAt(g, x), meaning[x])
    {
      FactIsTrueAt(sem, meaning, g, x);
    }
  }

  /** The right side under the substitution denotes what the class does. */
  ghost predicate AddsEqual(sem: Semantics, r: Rule, meaning: seq<Value>, c: Id, s: Subst)
    requires GoodRule(r) && BindsRule(r, s, |meaning|) && c < |meaning|
  {
    && VarsOf(r.rhs, |r.rhs.nodes| - 1) <= s.Keys
    && PatValue(sem, r.rhs, |r.rhs.nodes| - 1, Assigned(meaning, s)) == meaning[c]
  }

  function FactsAt(g: Graph, s: Subst): map<Sym, Fact>
    requires WellFormed(g) && forall v | v in s :: s[v] < |g.root|
  {
    map v | v in s :: FactAt(g, s[v])
  }

  /** The rule's condition holds of a match as the graph stands. */
  ghost predicate FiresAt(g: Graph, r: Rule, c: Id, s: Subst)
    requires WellFormed(g) && c < |g.root| && forall v | v in s :: s[v] < |g.root|
  {
    Fires(g, r, FactAt(g, c), FactsAt(g, s), s)
  }

  /** Whether the rule's condition holds of a match; if it does, firing adds an
      equal term. */
  method Check(e: EGraph, r: Rule, c: Id, s: Subst) returns (fires: bool)
    requires e.Valid() && GoodRule(r) && c < |e.unionfind.root| && BindsRule(r, s, |e.meaning|)
    ensures WellFormed(e.View()) && (fires <==> FiresAt(e.View(), r, c, s)) && (r.condition.None? ==> fires)
    ensures fires && e.faithful && MatchIsSound(e, r, c, s) ==>
              AddsEqual(e.sem, r, e.meaning, c, s) && IsTruthful(e, r.rhs)
  {
    hide Forest, Recounted, NodeTotal, Occupied, WellFormed, Bookkept, Respects, Rebuilt, SoundRule, TrueMatch,
         FactsHold, Coherent, PatValue, HoldsOf, Grants, FactAt, Meaningful;
    GraphIsWellFormed(e.View(), e.pending, e.Awaited(), e.classCount, e.nodeCount);
    var facts := FactsOf(e, s);
    var d := FactOfClass(e, c);
    assert facts == FactsAt(e.View(), s);
    fires := true;
    if r.condition.Some? {
      fires := Test(e, r.condition.value, d, facts, s);
    }
    if fires && e.faithful && MatchIsSound(e, r, c, s) {
      if r.condition.Some? {
        HeldIsGranted(e.sem, e.analysis, e.meaning, e.View(), r.condition.value, d, facts, s);
      }
      FactsAreTrue(e.sem, e.analysis, e.faithful, e.meaning, e.View(), s, c, facts);
      FiringIsSound(e.sem, r, e.meaning, c, s, facts, d);
    }
  }

  /** What applying matches does: the graph grows, `unions` pairs of classes are
      merged and, given `sound`, only equal ones. */
  ghost predicate Applied(g: Graph, before: Ledger, h: Graph, after: Ledger, unions: nat, sound: bool) {
    && Extends(before, after, sound) && |h.root| >= |g.root|
    && after.classCount + unions == before.classCount + |h.root| - |g.root|
    && (unions == 0 ==> after.quiet == before.quiet)
  }

  lemma AppliedNothing(g: Graph, a: Ledger, sound: bool)
    ensures Applied(g, a, g, a, 0, sound)
  {
  }

  lemma AppliedWeaker(g: Graph, a: Ledger, h: Graph, b: Ledger, n: nat, sound: bool, less: bool)
    requires Applied(g, a, h, b, n, sound) && (less ==> sound)
    ensures Applied(g, a, h, b, n, less)
  {
  }

  lemma AppliedTransitive(f: Graph, a: Ledger, g: Graph, b: Ledger, h: Graph, c: Ledger, m: nat, n: nat, sound: bool)
    requires Applied(f, a, g, b, m, sound) && Applied(g, b, h, c, n, sound)
    ensures Applied(f, a, h, c, m + n, sound)
  {
    ExtendsTransitive(a, b, c, sound);
  }

  /** Apply a rule to one match. If its condition holds now, the right side is
      instantiated and united with the class, which holds it from then on; a clean
      graph that has it already is left alone. Otherwise nothing happens. */
  method ApplyMatch(e: EGraph, r: Rule, c: Id, s: Subst) returns (changed: bool)
    requires e.Valid() && GoodRule(r) && c < |e.unionfind.root| && BindsRule(r, s, |e.meaning|)
    modifies e, e.unionfind
    ensures e.Valid() && old(WellFormed(e.View())) && WellFormed(e.View()) && Later(old(e.View()), e.View())
    ensures old(FiresAt(e.View(), r, c, s)) ==> Names(e.View(), r.rhs, |r.rhs.nodes| - 1, s, c)
    ensures !old(FiresAt(e.View(), r, c, s)) ==>
              && !changed && e.View() == old(e.View()) && e.Account() == old(e.Account()) && e.clean == old(e.clean)
              && e.analysisPending == old(e.analysisPending)
    ensures old(e.clean) && !changed ==>
              e.View() == old(e.View()) && e.clean && e.analysisPending == old(e.analysisPending)
    ensures Applied(old(e.View()), old(e.Account()), e.View(), e.Account(), if changed then 1 else 0,
                    old(MatchIsSound(e, r, c, s)))
    ensures e.nodeCount >= old(e.nodeCount)
  {
    hide Settled, Forest, Recounted, NodeTotal, Occupied, Rebuilt, Bookkept, Respects, Names, WellFormed, SoundRule,
         TrueMatch, PartDone, Coarsens, OnlyGrew, Extends, GoodRule, Applied, Bindable, Later, AllNamed, FiresAt;
    ghost var before, g, clean := e.Account(), e.View(), e.clean;
    ghost var sound := MatchIsSound(e, r, c, s);
    AppliedNothing(g, before, sound);
    var fires := Check(e, r, c, s);
    LaterItself(g);
    if !fires {
      return false;
    }
    RuleIsBindable(r, s, |e.meaning|);
    ghost var truthful := IsTruthful(e, r.rhs);
    var id := Instantiate(e, r.rhs, s);
    ghost var between, mid := e.Account(), e.View();
    InstantiatedId(e.sem, g, before, mid, between, truthful, r.rhs, s, id, c);
    changed := e.Union(c, id);
    FiringExtends(e.sem, g, before, mid, between, e.View(), e.Account(), changed, truthful, r.rhs, s, c, id, sound);
    InPlace(g, mid, e.View(), r, s, c, id);
  }

  lemma InstantiatedId(sem: Semantics, g0: Graph, before: Ledger, g: Graph, now: Ledger, truthful: bool,
                       pat: Pattern, s: Subst, id: Id, c: Id)
    requires Shaped(pat) && Bindable(pat, s, |before.meaning|) && OnlyGrew(g0, before, g, now) && c < |g0.root|
    requires PartDone(sem, g0, before, g, now, truthful, pat, s, |pat.nodes| - 1, id)
    ensures id < |g.root| && |g0.root| <= |g.root| && Names(g, pat, |pat.nodes| - 1, s, id)
    ensures WellFormed(g0) && WellFormed(g) && Later(g0, g)
    ensures AllUsed(pat) && g.root[id] == g.root[c] ==> AllNamed(g0, pat, s)
  {
    EnlargedIsLater(g0, g);
    if AllUsed(pat) && g.root[id] == g.root[c] {
      assert Slot(g0, c) && g.root[c] == g0.root[c];
      forall p | 0 <= p < |pat.nodes|
        ensures Named(g0, pat, p, s)
      {
        PartsNamed(g0, pat, s, id, p);
      }
    }
  }

  /** United with its class, the right side names that class. */
  lemma InPlace(g: Graph, mid: Graph, h: Graph, r: Rule, s: Subst, c: Id, id: Id)
    requires WellFormed(mid) && WellFormed(h) && Later(g, mid) && Later(mid, h) && GoodRule(r)
    requires c < |h.root| && id < |h.root| && h.root[c] == h.root[id] && Names(mid, r.rhs, |r.rhs.nodes| - 1, s, id)
    ensures Later(g, h) && Names(h, r.rhs, |r.rhs.nodes| - 1, s, c)
  {
    LaterTransitive(g, mid, h);
    NamesLasts(mid, h, r.rhs, |r.rhs.nodes| - 1, s, id);
    NamesOfRoot(h, r.rhs, |r.rhs.nodes| - 1, s, id, c);
  }

  /** Uniting a class with a term that denotes its value declares nothing false. */
  lemma FiringExtends(sem: Semantics, g0: Graph, before: Ledger, g: Graph, now: Ledger, h: Graph, after: Ledger,
                      changed: bool,
                      truthful: bool, pat: Pattern, s: Subst, c: Id, id: Id, sound: bool)
    requires Shaped(pat) && Bindable(pat, s, |before.meaning|) && OnlyGrew(g0, before, g, now)
    requires PartDone(sem, g0, before, g, now, truthful, pat, s, |pat.nodes| - 1, id)
    requires c < |before.meaning| && |now.meaning| == |g.root| && now.root == g.root && before.root == g0.root
    requires Coarsens(after.root, now.root) && after.log == now.log
    requires after.asserted == now.asserted + [Equation(c, id)]
    requires after.meaning == now.meaning && after.traced == now.traced && h.root == after.root
    requires after.faithful == (now.faithful && now.meaning[c] == now.meaning[id])
    requires sound && before.faithful ==>
               truthful && now.faithful && VarsOf(pat, |pat.nodes| - 1) <= s.Keys
               && PatValue(sem, pat, |pat.nodes| - 1, Assigned(before.meaning, s)) == before.meaning[c]
    requires after.classCount == now.classCount - (if changed then 1 else 0)
    requires !changed ==> h == g && after.quiet == now.quiet
    ensures Applied(g0, before, h, after, if changed then 1 else 0, sound)
  {
    UnionExtends(now, after, c, id, sound);
    ExtendsTransitive(before, now, after, sound);
  }

  /** The hypotheses under which a firing asserts only a true equation. */
  ghost predicate MatchIsSound(e: EGraph, r: Rule, c: Id, s: Subst)
    reads e, e.unionfind
    requires GoodRule(r) && BindsRule(r, s, |e.meaning|) && c < |e.meaning|
  {
    Respects(e.sem, e.analysis) && SoundRule(e.sem, r) && (e.faithful ==> TrueMatch(e.sem, r, e.meaning, c, s))
  }

  // ----- the derivative of what cannot vary -----

  /** By the variable `x`, the body `e`: zero, if the body provably cannot vary. */
  function IndependentRule(x: Sym, e: Sym): Rule {
    Rule.Rule("diff-independent", Pattern([Hole(x), Hole(e), Apply(Diff, [0, 1])]),
              Pattern([Apply(Const(POSITIVE_ZERO), [])]), Some(IsIndependent(e, x)))
  }

  /** A derivative by a variable of what some term without it denotes is zero. */
  ghost predicate Differentiates(sem: Semantics) {
    forall v: Sym, x: Value, body: Value | IsVariable(sem, x, v) && HasTermWithout(sem, body, v) ::
      sem.eval(Diff, [x, body]) == sem.eval(Const(POSITIVE_ZERO), [])
  }

  /** Then the rule that drops such derivatives is sound: what the search for a
      witness answers is all it needs. */
  lemma IndependentRuleIsSound(sem: Semantics, x: Sym, e: Sym)
    requires Differentiates(sem) && sem.knows(Const(POSITIVE_ZERO))
    ensures GoodRule(IndependentRule(x, e)) && SoundRule(sem, IndependentRule(x, e))
  {
    var r := IndependentRule(x, e);
    assert forall i | 0 <= i < |r.lhs.nodes| :: KidsAreEarlier(r.lhs.nodes, i);
    assert forall i | 0 <= i < |r.rhs.nodes| :: KidsAreEarlier(r.rhs.nodes, i);
    forall values: map<Sym, Value>, facts: map<Sym, Fact>, d: Fact
      | VarsOf(r.lhs, 2) <= values.Keys && VarsOf(r.rhs, 0) <= values.Keys && Licensed(sem, r, d, facts, values)
      ensures PatValue(sem, r.lhs, 2, values) == PatValue(sem, r.rhs, 0, values)
    {
      KidVars(r.lhs, 2, 0, 2);
      KidVars(r.lhs, 2, 1, 2);
      KidValueAt(sem, r.lhs, 2, values, 0, 2);
      KidValueAt(sem, r.lhs, 2, values, 1, 2);
      assert KidValues(sem, r.lhs, 2, values, 2) == [values[x], values[e]];
      var v :| IsVariable(sem, values[x], v) && HasTermWithout(sem, values[e], v);
    }
  }
}
