/** Each operation of the e-graph as a step from one snapshot to the next, and
    the proof that it keeps what must hold between operations. */
module Steps {
  import opened Options
  import opened Lang
  import opened UnionFinds
  import opened Graphs
  import opened Congruences
  import opened Meanings

  /** What holds of the graph between operations. */
  ghost predicate Coherent(g: Graph, pending: set<Id>, log: seq<Entry>, asserted: seq<Equation>) {
    Dormant(g, pending) && Sound(g, log, asserted) && Recorded(g, log, asserted)
  }

  /** If operators behave, and while only nodes vouched for were added and only
      equal values declared equal, merged ids denote one value and every
      fact is true. */
  ghost predicate Faithful(sem: Semantics, analysis: Analysis, faithful: bool, meaning: seq<Value>, g: Graph) {
    && |meaning| == |g.root|
    && (Respects(sem, analysis) && faithful ==> Meaningful(sem, meaning, g) && Factual(sem, meaning, g))
    && (Constantless(analysis) ==> Foldless(g))
  }

  /** The analysis never proves a class constant: no analysis at all, say. */
  ghost predicate Constantless(analysis: Analysis) {
    && (forall op: Op, facts: seq<Fact> :: analysis.make(op, facts).constant.None?)
    && (forall f: Fact, h: Fact | f.constant.None? && h.constant.None? :: analysis.merge(f, h).constant.None?)
  }

  /** No class is known to be constant. */
  ghost predicate Foldless(g: Graph) {
    forall c: Id | c < |g.classes| && g.classes[c].Some? :: g.classes[c].value.data.constant.None?
  }

  /** Everything that survives from one operation to the next. */
  ghost predicate Settled(sem: Semantics, analysis: Analysis, faithful: bool, meaning: seq<Value>,
                          g: Graph, pending: set<Id>, log: seq<Entry>, asserted: seq<Equation>) {
    Coherent(g, pending, log, asserted) && Faithful(sem, analysis, faithful, meaning, g)
  }

  function FactAt(g: Graph, id: Id): Fact
    requires WellFormed(g) && id < |g.root|
  {
    assert Slot(g, id) && Slot(g, g.root[id]);
    g.classes[g.root[id]].value.data
  }

  function ChildFacts(g: Graph, node: ENode): (facts: seq<Fact>)
    requires WellFormed(g) && Below(node, |g.root|)
    ensures |facts| == |node.children|
    ensures forall k | 0 <= k < |facts| :: facts[k] == FactAt(g, node.children[k])
  {
    seq(|node.children|, k requires 0 <= k < |node.children| => FactAt(g, node.children[k]))
  }

  /** The fact implied by one node, given the facts of its children. */
  function FactOf(analysis: Analysis, g: Graph, node: ENode): Fact
    requires WellFormed(g) && Below(node, |g.root|)
  {
    analysis.make(node.op, ChildFacts(g, node))
  }

  lemma FactIsTrue(sem: Semantics, analysis: Analysis, meaning: seq<Value>, g: Graph, node: ENode)
    requires Respects(sem, analysis) && Meaningful(sem, meaning, g) && Factual(sem, meaning, g)
    requires Below(node, |g.root|) && Vouched(sem, node)
    ensures sem.holds(FactOf(analysis, g, node), Denotes(sem, meaning, node))
  {
    var facts, values := ChildFacts(g, node), Arguments(meaning, node.children);
    forall k | 0 <= k < |facts|
      ensures sem.holds(facts[k], values[k])
    {
      var c := node.children[k];
      assert Slot(g, c) && Slot(g, g.root[c]) && meaning[g.root[c]] == meaning[c];
    }
    assert AllHold(sem, facts, values);
  }

  /** What a rebuilt hashcons misses is in no class. */
  lemma MissIsAbsent(g: Graph, n: ENode)
    requires Indexed(g) && n !in g.memo
    ensures forall c: Id :: !Owns(g, c, n)
  {
    assert forall c: Id, own | Has(g, c, own) :: Filing(g, c, own);
  }

  /** Adding a node the hashcons finds. */
  lemma HitStep(sem: Semantics, analysis: Analysis, faithful: bool, meaning: seq<Value>,
                g: Graph, pending: set<Id>, log: seq<Entry>, asserted: seq<Equation>, node: ENode, id: Id)
    requires Settled(sem, analysis, faithful, meaning, g, pending, log, asserted)
    requires Below(node, |g.root|) && Canon(g.root, node) in g.memo && g.memo[Canon(g.root, node)] < |g.root|
    requires id == g.root[g.memo[Canon(g.root, node)]]
    ensures Settled(sem, analysis, faithful && Vouched(sem, node), meaning, g, pending, log + [Entry(node, id)],
                    asserted)
    ensures id < |g.root| && g.root[id] == id && Owns(g, id, Canon(g.root, node))
    ensures |meaning| == |g.root|
    ensures Respects(sem, analysis) && faithful ==> meaning[id] == Denotes(sem, meaning, node)
  {
    var n := Canon(g.root, node);
    CanonIsBelow(g, node);
    assert Slot(g, g.memo[n]);
    assert Owns(g, g.root[g.memo[n]], Canon(g.root, n));
    HitSound(g, log, asserted, Entry(node, id));
    HitRecorded(g, log, asserted, Entry(node, id));
    if Respects(sem, analysis) && faithful {
      OwnerDenotes(sem, analysis, meaning, g, id, node);
    }
  }

  /** Adding a node the hashcons misses. */
  lemma MissKeeps(g: Graph, after: Graph, node: ENode, fact: Fact, pending: set<Id>, log: seq<Entry>,
                  asserted: seq<Equation>)
    requires Coherent(g, pending, log, asserted) && Below(node, |g.root|)
    requires Canon(g.root, node) !in g.memo && Added(g, after, Canon(g.root, node), fact)
    ensures Coherent(after, pending, log + [Entry(node, |g.root|)], asserted)
    ensures Owns(after, |g.root|, Canon(after.root, node)) && after.root[|g.root|] == |g.root|
  {
    var n := Canon(g.root, node);
    RootIsCoarser(g);
    CanonOfCanon(g.root, g.root, node);
    AddKeeps(g, after, n, fact, pending);
    AddSound(g, after, n, fact, log, asserted, Entry(node, |g.root|));
    AddRecorded(g, after, n, fact, log, asserted, Entry(node, |g.root|));
    assert Entry(node, |g.root|) in log + [Entry(node, |g.root|)];
  }

  lemma MissFaithful(sem: Semantics, analysis: Analysis, faithful: bool, meaning: seq<Value>,
                     g: Graph, after: Graph, node: ENode, fact: Fact)
    requires WellFormed(g) && Faithful(sem, analysis, faithful, meaning, g) && Below(node, |g.root|)
    requires Canon(g.root, node) !in g.memo && Added(g, after, Canon(g.root, node), fact)
    requires Below(Canon(g.root, node), |g.root|) && fact == FactOf(analysis, g, Canon(g.root, node))
    ensures Faithful(sem, analysis, faithful && Vouched(sem, node),
                     meaning + [Denotes(sem, meaning, Canon(g.root, node))], after)
    ensures Respects(sem, analysis) && faithful && Vouched(sem, node) ==>
              Denotes(sem, meaning, Canon(g.root, node)) == Denotes(sem, meaning, node)
  {
    if Respects(sem, analysis) && faithful && Vouched(sem, node) {
      var n := Canon(g.root, node);
      CanonIsBelow(g, node);
      SameClassSameMeaning(sem, meaning, g);
      CongruentDenotes(sem, analysis, meaning, g.root, n, node);
      AddWellFormed(g, after, n, fact);
      AddMeaningful(sem, meaning, g, after, n, fact);
      FactIsTrue(sem, analysis, meaning, g, n);
      AddFactual(sem, meaning, g, after, n, fact, Denotes(sem, meaning, n));
    }
  }

  /** Adding a node the hashcons misses. */
  lemma MissStep(sem: Semantics, analysis: Analysis, faithful: bool, meaning: seq<Value>, g: Graph, after: Graph,
                 pending: set<Id>, log: seq<Entry>, asserted: seq<Equation>, node: ENode, fact: Fact)
    requires WellFormed(g) && Settled(sem, analysis, faithful, meaning, g, pending, log, asserted)
    requires |meaning| == |g.root| && Below(node, |g.root|) && Below(Canon(g.root, node), |g.root|)
    requires Canon(g.root, node) !in g.memo && Added(g, after, Canon(g.root, node), fact)
    requires fact == FactOf(analysis, g, Canon(g.root, node))
    ensures Settled(sem, analysis, faithful && Vouched(sem, node),
                    meaning + [Denotes(sem, meaning, Canon(g.root, node))],
                    after, pending, log + [Entry(node, |g.root|)], asserted)
    ensures after.root == g.root + [|g.root|] && Below(node, |after.root|)
    ensures Owns(after, |g.root|, Canon(after.root, node))
    ensures Respects(sem, analysis) && faithful && Vouched(sem, node) ==>
              Denotes(sem, meaning, Canon(g.root, node)) == Denotes(sem, meaning, node)
  {
    MissKeeps(g, after, node, fact, pending, log, asserted);
    MissFaithful(sem, analysis, faithful, meaning, g, after, node, fact);
  }

  // ----- unions -----

  lemma JoinFaithful(sem: Semantics, analysis: Analysis, faithful: bool, meaning: seq<Value>, g: Graph, ra: Id, rb: Id)
    requires Joinable(g, ra, rb) && Faithful(sem, analysis, faithful, meaning, g)
    requires Respects(sem, analysis) && faithful ==> meaning[ra] == meaning[rb]
    ensures Faithful(sem, analysis, faithful, meaning,
                     Joined(g, ra, rb, analysis.merge(g.classes[ra].value.data, g.classes[rb].value.data)))
  {
    if Respects(sem, analysis) && faithful {
      var data := analysis.merge(g.classes[ra].value.data, g.classes[rb].value.data);
      JoinMeaningful(sem, meaning, g, ra, rb, data);
      JoinFactual(sem, analysis, meaning, g, ra, rb);
    }
  }

  lemma ClassesFollowRoots(g: Graph, part: seq<nat>, a: Id, b: Id)
    requires WellFormed(g) && Coarsens(part, g.root) && a < |g.root| && b < |g.root|
    ensures g.root[a] < |g.root| && g.root[b] < |g.root|
    ensures part[g.root[a]] == part[g.root[b]] <==> part[a] == part[b]
  {
    assert part[g.root[a]] == part[a] && part[g.root[b]] == part[b];
  }

  /** Asserting an equation between ids that are already merged. */
  lemma EqualStep(sem: Semantics, analysis: Analysis, faithful: bool, meaning: seq<Value>,
                  g: Graph, pending: set<Id>, log: seq<Entry>, asserted: seq<Equation>, a: Id, b: Id)
    requires Settled(sem, analysis, faithful, meaning, g, pending, log, asserted)
    requires a < |g.root| && b < |g.root| && g.root[a] == g.root[b]
    ensures |meaning| == |g.root|
    ensures Settled(sem, analysis, faithful && meaning[a] == meaning[b], meaning, g, pending, log,
                    asserted + [Equation(a, b)])
    ensures Coarsens(g.root, g.root)
  {
    RootIsCoarser(g);
    AssertSound(g, log, asserted, Equation(a, b));
  }

  /** Asserting an equation that merges two classes. */
  lemma UnionStep(sem: Semantics, analysis: Analysis, faithful: bool, meaning: seq<Value>, g: Graph, pending: set<Id>,
                  log: seq<Entry>, asserted: seq<Equation>, a: Id, b: Id, ra: Id, rb: Id)
    requires Settled(sem, analysis, faithful, meaning, g, pending, log, asserted) && |meaning| == |g.root|
    requires a < |g.root| && b < |g.root| && Pair(ra, rb, g.root[a], g.root[b]) && Joinable(g, ra, rb)
    ensures Settled(sem, analysis, faithful && meaning[a] == meaning[b], meaning,
                    Joined(g, ra, rb, analysis.merge(g.classes[ra].value.data, g.classes[rb].value.data)),
                    pending + {ra}, log, asserted + [Equation(a, b)])
    ensures Coarsens(Merged(g.root, ra, rb), g.root) && Merged(g.root, ra, rb)[a] == Merged(g.root, ra, rb)[b]
    ensures Joined(g, ra, rb, analysis.merge(g.classes[ra].value.data, g.classes[rb].value.data)).root
              == Merged(g.root, ra, rb)
  {
    hide Dormant, Sound, Recorded, IsCongruence, Respects, Meaningful, Factual, Foldless, Constantless;
    var data := analysis.merge(g.classes[ra].value.data, g.classes[rb].value.data);
    JoinKeeps(g, ra, rb, data, pending);
    UnionSound(g, log, asserted, a, b, ra, rb, data);
    UnionRecorded(g, log, asserted, a, b, ra, rb, data);
    UnionMeans(sem, analysis, faithful, meaning, g, a, b, ra, rb);
    JoinFaithful(sem, analysis, faithful && meaning[a] == meaning[b], meaning, g, ra, rb);
    MergedCoarsens(g, ra, rb);
  }

  lemma UnionSound(g: Graph, log: seq<Entry>, asserted: seq<Equation>, a: Id, b: Id, ra: Id, rb: Id, data: Fact)
    requires Sound(g, log, asserted) && Joinable(g, ra, rb)
    requires a < |g.root| && b < |g.root| && Pair(ra, rb, g.root[a], g.root[b])
    ensures Sound(Joined(g, ra, rb, data), log, asserted + [Equation(a, b)])
  {
    var q := Equation(a, b);
    AssertSound(g, log, asserted, q);
    forall part | IsCongruence(part, |g.root|, log, asserted + [q])
      ensures part[ra] == part[rb]
    {
      UnionRespected(g, log, asserted, a, b, ra, rb, part);
    }
    JoinSound(g, ra, rb, data, log, asserted + [q]);
  }

  lemma UnionRespected(g: Graph, log: seq<Entry>, asserted: seq<Equation>, a: Id, b: Id, ra: Id, rb: Id, part: seq<nat>)
    requires Sound(g, log, asserted) && a < |g.root| && b < |g.root| && Pair(ra, rb, g.root[a], g.root[b])
    requires InRange(|g.root|, log, asserted + [Equation(a, b)])
    requires IsCongruence(part, |g.root|, log, asserted + [Equation(a, b)])
    ensures ra < |part| && rb < |part| && part[ra] == part[rb]
  {
    var q := Equation(a, b);
    assert q in asserted + [q];
    assert forall d | d in asserted :: d in asserted + [q];
    assert IsCongruence(part, |g.root|, log, asserted);
    assert RefinedBy(part, g, log);
    ClassesFollowRoots(g, part, a, b);
  }

  lemma UnionRecorded(g: Graph, log: seq<Entry>, asserted: seq<Equation>, a: Id, b: Id, ra: Id, rb: Id, data: Fact)
    requires Recorded(g, log, asserted) && Joinable(g, ra, rb)
    requires a < |g.root| && b < |g.root| && Pair(ra, rb, g.root[a], g.root[b])
    ensures Recorded(Joined(g, ra, rb, data), log, asserted + [Equation(a, b)])
  {
    hide Owns;
    JoinRecorded(g, ra, rb, data, log, asserted);
    assert Merged(g.root, ra, rb)[a] == Merged(g.root, ra, rb)[b];
  }

  lemma UnionMeans(sem: Semantics, analysis: Analysis, faithful: bool, meaning: seq<Value>, g: Graph, a: Id, b: Id,
                   ra: Id, rb: Id)
    requires Faithful(sem, analysis, faithful, meaning, g) && a < |g.root| && b < |g.root|
    requires Pair(ra, rb, g.root[a], g.root[b])
    requires Joinable(g, ra, rb)
    ensures Respects(sem, analysis) && faithful && meaning[a] == meaning[b] ==> meaning[ra] == meaning[rb]
  {
    hide Respects;
  }

  // ----- repairs -----

  /** What holds in the middle of a repair, `done` parents in. */
  ghost predicate MidRepair(sem: Semantics, analysis: Analysis, faithful: bool, meaning: seq<Value>, g: Graph,
                            pending: set<Id>, log: seq<Entry>, asserted: seq<Equation>, seen: map<ENode, Id>,
                            done: nat) {
    && Repairing(g, pending, seen, done)
    && Sound(g, log, asserted) && Recorded(g, log, asserted)
    && Faithful(sem, analysis, faithful, meaning, g)
  }

  /** The same nodes under the same partition, with the same facts. */
  ghost predicate SameClasses(g: Graph, t: Graph) {
    && SameNodes(g, t) && WellFormed(t) && |g.classes| == |t.classes|
    && (forall c | 0 <= c < |g.classes| :: g.classes[c].Some? == t.classes[c].Some?)
    && (forall c | 0 <= c < |g.classes| && g.classes[c].Some? :: g.classes[c].value.data == t.classes[c].value.data)
  }

  lemma SameClassesKeep(sem: Semantics, analysis: Analysis, faithful: bool, meaning: seq<Value>,
                        g: Graph, t: Graph, log: seq<Entry>, asserted: seq<Equation>)
    requires SameClasses(g, t) && Sound(g, log, asserted) && Recorded(g, log, asserted)
    requires Faithful(sem, analysis, faithful, meaning, g)
    ensures Sound(t, log, asserted) && Recorded(t, log, asserted)
    ensures Faithful(sem, analysis, faithful, meaning, t)
  {
    SameNodesKeep(g, t, log, asserted);
  }

  lemma BeginRepair(sem: Semantics, analysis: Analysis, faithful: bool, meaning: seq<Value>, g: Graph, at: Id,
                    pending: set<Id>, log: seq<Entry>, asserted: seq<Equation>)
    requires Settled(sem, analysis, faithful, meaning, g, pending + {at}, log, asserted)
    requires g.held == [] && at < |g.classes| && g.classes[at].Some?
    ensures MidRepair(sem, analysis, faithful, meaning, Taken(g, at), pending, log, asserted, map[], 0)
  {
    TakeKeeps(g, at, pending + {at});
    assert Slot(g, at);
    SameClassesKeep(sem, analysis, faithful, meaning, g, Taken(g, at), log, asserted);
  }

  /** Step one: the hashcons forgets a parent under its stored form. */
  lemma DropStep(sem: Semantics, analysis: Analysis, faithful: bool, meaning: seq<Value>, g: Graph,
                 pending: set<Id>, log: seq<Entry>, asserted: seq<Equation>, p: Parent)
    requires MidRepair(sem, analysis, faithful, meaning, g, pending, log, asserted, map[], 0) && p in g.held
    ensures MidRepair(sem, analysis, faithful, meaning, g.(memo := g.memo - {p.node}), pending, log, asserted, map[], 0)
  {
    DropKeeps(g, pending + {g.at}, p);
    SameClassesKeep(sem, analysis, faithful, meaning, g, g.(memo := g.memo - {p.node}), log, asserted);
  }

  lemma BothOwn(g: Graph, pending: set<Id>, seen: map<ENode, Id>, done: nat, p: Parent, key: ENode)
    requires Repairing(g, pending, seen, done)
    requires p in g.held && FormOf(g, pending, p, key) && key in seen
    ensures seen[key] < |g.root|
    ensures Owns(g, g.root[seen[key]], Canon(g.root, key)) && Owns(g, g.root[p.owner], Canon(g.root, key))
  {
    assert SeenGood(g, pending, key, seen[key]);
    assert HasParent(g, g.root[g.at], p);
  }

  /** The owners of two parents with one canonical form denote one thing. */
  lemma OwnersMayMerge(sem: Semantics, analysis: Analysis, faithful: bool, meaning: seq<Value>, g: Graph,
                       pending: set<Id>,
                       log: seq<Entry>, asserted: seq<Equation>, seen: map<ENode, Id>, done: nat, p: Parent, key: ENode,
                       ra: Id, rb: Id)
    requires MidRepair(sem, analysis, faithful, meaning, g, pending, log, asserted, seen, done)
    requires p in g.held && FormOf(g, pending, p, key) && key in seen && seen[key] < |g.root|
    requires Pair(ra, rb, g.root[seen[key]], g.root[p.owner]) && ra < |g.root| && rb < |g.root|
    ensures forall part | IsCongruence(part, |g.root|, log, asserted) :: part[ra] == part[rb]
    ensures |meaning| == |g.root| && (Respects(sem, analysis) && faithful ==> meaning[ra] == meaning[rb])
  {
    hide Repairing, Owns, Recorded, Meaningful, Factual, Respects;
    BothOwn(g, pending, seen, done, p, key);
    forall part | IsCongruence(part, |g.root|, log, asserted)
      ensures part[ra] == part[rb]
    {
      OwnersAgree(part, g, log, asserted, g.root[seen[key]], g.root[p.owner], Canon(g.root, key));
    }
    if Respects(sem, analysis) && faithful {
      OwnerDenotes(sem, analysis, meaning, g, g.root[seen[key]], key);
      OwnerDenotes(sem, analysis, meaning, g, g.root[p.owner], key);
    }
  }

  lemma JoinFormOf(g: Graph, ra: Id, rb: Id, data: Fact, pending: set<Id>, seen: map<ENode, Id>, done: nat,
                   p: Parent, key: ENode)
    requires Joinable(g, ra, rb) && FormOf(g, pending, p, key) && key in seen
    requires Repairing(Joined(g, ra, rb, data), pending + {ra}, seen, done)
    ensures FormOf(Joined(g, ra, rb, data), pending + {ra}, p, key)
  {
    var j := Joined(g, ra, rb, data);
    JoinWellFormed(g, ra, rb, data);
    CanonOfCanon(j.root, g.root, key);
    CanonOfCanon(j.root, g.root, p.node);
    assert SeenGood(j, pending + {ra}, key, seen[key]);
  }

  lemma JoinOwner(g: Graph, ra: Id, rb: Id, data: Fact, x: Id, y: Id)
    requires Joinable(g, ra, rb) && x < |g.root| && y < |g.root| && Pair(ra, rb, g.root[x], g.root[y])
    ensures var j := Joined(g, ra, rb, data);
            && |j.root| == |g.root| && Coarsens(j.root, g.root)
            && j.root[x] == j.root[y] == ra
            && g.root[y] < |g.root| && j.root[g.root[y]] == ra && j.root[ra] == ra
  {
    JoinWellFormed(g, ra, rb, data);
    assert Slot(g, ra) && Slot(g, rb);
  }

  /** The two owners are one class. */
  predicate OwnersMerged(before: seq<Id>, after: seq<Id>, a: Id, b: Id, r: Id) {
    && |after| == |before| && a < |after| && b < |after| && r < |after|
    && after[a] == after[b] == r && before[b] < |after| && after[before[b]] == r && after[r] == r
  }

  /** Step two: two parents became congruent, so their owners are merged. */
  lemma CongruenceStep(sem: Semantics, analysis: Analysis, faithful: bool, meaning: seq<Value>, g: Graph,
                       pending: set<Id>,
                       log: seq<Entry>, asserted: seq<Equation>, seen: map<ENode, Id>, done: nat, p: Parent, key: ENode,
                       ra: Id, rb: Id)
    requires MidRepair(sem, analysis, faithful, meaning, g, pending, log, asserted, seen, done)
    requires p in g.held && p.owner < |g.root| && FormOf(g, pending, p, key) && key in seen && seen[key] < |g.root|
    requires Pair(ra, rb, g.root[seen[key]], g.root[p.owner]) && Joinable(g, ra, rb)
    ensures var j := Joined(g, ra, rb, analysis.merge(g.classes[ra].value.data, g.classes[rb].value.data));
            && MidRepair(sem, analysis, faithful, meaning, j, pending + {ra}, log, asserted, seen, done)
            && FormOf(j, pending + {ra}, p, key)
            && Coarsens(j.root, g.root) && OwnersMerged(g.root, j.root, seen[key], p.owner, ra)
  {
    hide Repairing, Sound, Recorded, FormOf, Coarsens;
    var data := analysis.merge(g.classes[ra].value.data, g.classes[rb].value.data);
    OwnersMayMerge(sem, analysis, faithful, meaning, g, pending, log, asserted, seen, done, p, key, ra, rb);
    JoinRepairing(g, ra, rb, data, pending, seen, done);
    JoinSound(g, ra, rb, data, log, asserted);
    JoinRecorded(g, ra, rb, data, log, asserted);
    JoinFaithful(sem, analysis, faithful, meaning, g, ra, rb);
    JoinFormOf(g, ra, rb, data, pending, seen, done, p, key);
    JoinOwner(g, ra, rb, data, seen[key], p.owner);
  }

  /** Then the form is filed under the owner. */
  lemma SeeStep(sem: Semantics, analysis: Analysis, faithful: bool, meaning: seq<Value>, g: Graph, pending: set<Id>,
                log: seq<Entry>, asserted: seq<Equation>, seen: map<ENode, Id>, done: nat, key: ENode, owner: Id)
    requires MidRepair(sem, analysis, faithful, meaning, g, pending, log, asserted, seen, done) && done < |g.held|
    requires FormOf(g, pending, g.held[done], key)
    requires owner < |g.root| && g.root[owner] == g.root[g.held[done].owner]
    requires key in seen && seen[key] < |g.root| ==> g.root[seen[key]] == g.root[owner]
    ensures MidRepair(sem, analysis, faithful, meaning, g.(memo := g.memo[key := owner]), pending, log, asserted,
                      seen[key := owner], done + 1)
  {
    hide Sound, Recorded, Meaningful, Factual, Respects, Constantless, Foldless, FormOf;
    SeeNext(g, pending, seen, done, g.held[done], key, owner);
    SameClassesKeep(sem, analysis, faithful, meaning, g, g.(memo := g.memo[key := owner]), log, asserted);
  }

  lemma EndRepair(sem: Semantics, analysis: Analysis, faithful: bool, meaning: seq<Value>, g: Graph, t: Graph,
                  pending: set<Id>, log: seq<Entry>, asserted: seq<Equation>, seen: map<ENode, Id>)
    requires MidRepair(sem, analysis, faithful, meaning, g, pending, log, asserted, seen, |g.held|)
    requires Released(g, t, seen)
    ensures Settled(sem, analysis, faithful, meaning, t, pending, log, asserted)
  {
    ReleaseKeeps(g, t, pending, seen);
    SameClassesKeep(sem, analysis, faithful, meaning, g, t, log, asserted);
  }

  /** Starting a repair of the class of `start`. */
  lemma BeginStep(sem: Semantics, analysis: Analysis, faithful: bool, meaning: seq<Value>, g: Graph,
                  pending: set<Id>, start: Id, log: seq<Entry>, asserted: seq<Equation>)
    requires Settled(sem, analysis, faithful, meaning, g, pending + {start}, log, asserted)
    requires g.held == [] && start < |g.root|
    ensures g.root[start] < |g.root| == |g.classes| && g.classes[g.root[start]].Some?
    ensures MidRepair(sem, analysis, faithful, meaning, Taken(g, g.root[start]), pending, log, asserted, map[], 0)
  {
    var at := g.root[start];
    assert Slot(g, start) && Slot(g, at);
    forall w | w in pending + {start} && w < |g.root|
      ensures exists v :: v in pending + {at} && v < |g.root| && g.root[v] == g.root[w]
    {
      var v := if w == start then at else w;
      assert v in pending + {at} && g.root[v] == g.root[w];
    }
    PendingClasses(g, pending + {start}, pending + {at});
    BeginRepair(sem, analysis, faithful, meaning, g, at, pending, log, asserted);
  }

  lemma MidRepairIsWellFormed(sem: Semantics, analysis: Analysis, faithful: bool, meaning: seq<Value>, g: Graph,
                              pending: set<Id>, log: seq<Entry>, asserted: seq<Equation>, seen: map<ENode, Id>,
                              done: nat)
    requires MidRepair(sem, analysis, faithful, meaning, g, pending, log, asserted, seen, done)
    ensures WellFormed(g)
  {
  }

  /** What callers need of a settled graph. */
  lemma SettledMeans(sem: Semantics, analysis: Analysis, faithful: bool, meaning: seq<Value>, g: Graph,
                     pending: set<Id>, log: seq<Entry>, asserted: seq<Equation>)
    requires Settled(sem, analysis, faithful, meaning, g, pending, log, asserted)
    ensures WellFormed(g) && |meaning| == |g.root| && Recorded(g, log, asserted)
    ensures Respects(sem, analysis) && faithful ==> Meaningful(sem, meaning, g)
  {
    hide Dormant, Sound, Recorded, Respects, Meaningful, Factual, Constantless, Foldless;
    RecordedIsWellFormed(g, log, asserted);
  }

  lemma RecordedIsWellFormed(g: Graph, log: seq<Entry>, asserted: seq<Equation>)
    requires Recorded(g, log, asserted)
    ensures WellFormed(g)
  {
  }

  lemma SettledIsWellFormed(sem: Semantics, analysis: Analysis, faithful: bool, meaning: seq<Value>, g: Graph,
                            pending: set<Id>, log: seq<Entry>, asserted: seq<Equation>)
    requires Settled(sem, analysis, faithful, meaning, g, pending, log, asserted)
    ensures WellFormed(g)
  {
  }

  /** The next parent, in canonical form. */
  lemma ParentForm(sem: Semantics, analysis: Analysis, faithful: bool, meaning: seq<Value>, g: Graph, pending: set<Id>,
                   log: seq<Entry>, asserted: seq<Equation>, seen: map<ENode, Id>, done: nat, p: Parent)
    requires MidRepair(sem, analysis, faithful, meaning, g, pending, log, asserted, seen, done)
    requires done < |g.held| && p == g.held[done]
    ensures Below(p.node, |g.root|) && p.owner < |g.root| && FormOf(g, pending, p, Canon(g.root, p.node))
    ensures g.root[p.owner] < |g.root| && g.root[g.root[p.owner]] == g.root[p.owner]
    ensures Canon(g.root, p.node) in seen ==> seen[Canon(g.root, p.node)] < |g.root|
  {
    assert p in g.held;
    CanonIsBelow(g, p.node);
    assert Slot(g, p.owner);
    if Canon(g.root, p.node) in seen {
      assert SeenGood(g, pending, Canon(g.root, p.node), seen[Canon(g.root, p.node)]);
    }
  }

  // ----- reindexing -----

  /** Classes hold the canonical forms of the nodes they held, and the parent
      lists and the hashcons were rebuilt from them. */
  ghost predicate ReindexedFrom(g: Graph, f: Graph) {
    && WellFormed(g)
    && f.root == g.root && |f.classes| == |g.classes| && f.held == [] && g.held == []
    && (forall i | 0 <= i < |g.classes| :: Renewed(g.classes[i], f.classes[i]))
    && (forall c: Id, m :: Has(f, c, m) <==> Owns(g, c, m))
    && (forall m | m in f.memo :: Has(f, f.memo[m], m))
    && (forall c: Id, m | Has(f, c, m) :: m in f.memo && f.memo[m] == c)
    && (forall x: Id, e :: HasParent(f, x, e) <==> IsParent(f, x, e))
  }

  predicate Renewed(before: Option<EClass>, after: Option<EClass>) {
    && before.Some? == after.Some?
    && (before.Some? ==> after.value == before.value.(nodes := after.value.nodes, parents := after.value.parents))
  }

  /** A graph with canonical nodes keeps them all, and every fact. */
  lemma RenewedIsSame(g: Graph, f: Graph)
    requires ReindexedFrom(g, f) && Indexed(g) && WellFormed(f)
    ensures SameClasses(g, f)
  {
    forall c: Id, m
      ensures Has(f, c, m) <==> Has(g, c, m)
    {
      if Has(g, c, m) {
        assert Filing(g, c, m) && Owns(g, c, m);
      }
      if Has(f, c, m) {
        var n :| Has(g, c, n) && Below(n, |g.root|) && Canon(g.root, n) == m;
        assert Filing(g, c, n);
      }
    }
    forall c | 0 <= c < |g.classes|
      ensures g.classes[c].Some? == f.classes[c].Some?
      ensures g.classes[c].Some? ==> g.classes[c].value.data == f.classes[c].value.data
    {
      assert Renewed(g.classes[c], f.classes[c]);
    }
  }

  lemma ReindexHas(g: Graph, f: Graph, c: Id, m: ENode)
    requires ReindexedFrom(g, f) && Has(f, c, m)
    ensures c < |g.root| && g.root[c] == c && Below(m, |g.root|) && Canon(g.root, m) == m && Owns(g, c, m)
  {
    var node :| Has(g, c, node) && Below(node, |g.root|) && Canon(g.root, node) == m;
    HasIsBelow(g, c, node);
    CanonIsBelow(g, node);
  }

  lemma ReindexOwns(g: Graph, f: Graph, c: Id, m: ENode)
    requires ReindexedFrom(g, f) && Owns(g, c, m)
    ensures Owns(f, c, m)
  {
    assert Has(f, c, m);
    ReindexHas(g, f, c, m);
  }

  lemma ReindexWellFormed(g: Graph, f: Graph)
    requires ReindexedFrom(g, f)
    ensures WellFormed(f)
  {
    forall i | 0 <= i < |f.root|
      ensures Slot(f, i)
    {
      assert Slot(g, i) && Renewed(g.classes[i], f.classes[i]);
      if f.classes[i].Some? {
        var c := f.classes[i].value;
        var node := g.classes[i].value.nodes[0];
        assert Has(g, i, node);
        assert Owns(g, i, Canon(g.root, node)) && Has(f, i, Canon(g.root, node));
        forall m | m in c.nodes
          ensures Below(m, |f.root|)
        {
          assert Has(f, i, m);
          ReindexHas(g, f, i, m);
        }
        forall e | e in c.parents
          ensures Below(e.node, |f.root|) && e.owner < |f.root|
        {
          assert HasParent(f, i, e);
          ReindexHas(g, f, e.owner, e.node);
        }
      }
    }
    forall m | m in f.memo
      ensures Below(m, |f.root|) && f.memo[m] < |f.root|
    {
      ReindexHas(g, f, f.memo[m], m);
    }
  }

  lemma ReindexIndexed(g: Graph, f: Graph)
    requires ReindexedFrom(g, f)
    ensures Indexed(f)
  {
    ReindexWellFormed(g, f);
    forall c: Id, m | Has(f, c, m)
      ensures Filing(f, c, m)
    {
      ReindexHas(g, f, c, m);
    }
  }

  lemma ReindexSound(g: Graph, f: Graph, log: seq<Entry>, asserted: seq<Equation>)
    requires ReindexedFrom(g, f) && WellFormed(f) && Sound(g, log, asserted)
    ensures Sound(f, log, asserted)
  {
    forall part | IsCongruence(part, |f.root|, log, asserted)
      ensures RefinedBy(part, f, log)
    {
      assert RefinedBy(part, g, log);
      forall c: Id, m | Has(f, c, m) && Below(m, |part|) && c < |part|
        ensures Logged(part, log, c, m)
      {
        var node :| Has(g, c, node) && Below(node, |g.root|) && Canon(g.root, node) == m;
        assert Logged(part, log, c, node);
        var e :| e in log && Below(e.node, |part|) && e.id < |part|
                 && Congruent(part, e.node, node) && part[e.id] == part[c];
        CanonIsBelow(g, node);
        CoarserCongruent(part, g.root, node, m);
        CongruentIsTransitive(part, e.node, node, m);
      }
    }
  }

  lemma ReindexRecorded(g: Graph, f: Graph, log: seq<Entry>, asserted: seq<Equation>)
    requires ReindexedFrom(g, f) && WellFormed(f) && Recorded(g, log, asserted)
    ensures Recorded(f, log, asserted)
  {
    forall e | e in log
      ensures Owns(f, f.root[e.id], Canon(f.root, e.node))
    {
      ReindexOwns(g, f, g.root[e.id], Canon(g.root, e.node));
    }
  }

  lemma ReindexFaithful(sem: Semantics, analysis: Analysis, faithful: bool, meaning: seq<Value>, g: Graph, f: Graph)
    requires ReindexedFrom(g, f) && WellFormed(f) && Faithful(sem, analysis, faithful, meaning, g)
    ensures Faithful(sem, analysis, faithful, meaning, f)
  {
    assert forall i | 0 <= i < |g.classes| :: Renewed(g.classes[i], f.classes[i]);
    if Respects(sem, analysis) && faithful {
      forall c: Id, m | Has(f, c, m) && Below(m, |f.root|) && c < |f.root|
        ensures Vouched(sem, m) && Denotes(sem, meaning, m) == meaning[c]
      {
        ReindexHas(g, f, c, m);
        OwnerDenotes(sem, analysis, meaning, g, c, m);
      }
    }
  }

  /** Reindexing a graph with nothing pending. */
  lemma ReindexStep(sem: Semantics, analysis: Analysis, faithful: bool, meaning: seq<Value>, g: Graph, f: Graph,
                    log: seq<Entry>, asserted: seq<Equation>)
    requires Settled(sem, analysis, faithful, meaning, g, {}, log, asserted) && ReindexedFrom(g, f)
    ensures Settled(sem, analysis, faithful, meaning, f, {}, log, asserted) && Indexed(f)
  {
    ReindexIndexed(g, f);
    IndexedIsDormant(f);
    ReindexSound(g, f, log, asserted);
    ReindexRecorded(g, f, log, asserted);
    ReindexFaithful(sem, analysis, faithful, meaning, g, f);
  }

  // ----- what lasts -----

  /** Ids are never forgotten, and merged ids stay merged. */
  predicate Grows(before: seq<Id>, after: seq<Id>) {
    && |before| <= |after|
    && (forall i, j | 0 <= i < |before| && 0 <= j < |before| && before[i] == before[j] :: after[i] == after[j])
  }

  lemma CoarsensGrows(g: Graph, after: seq<Id>)
    requires Coarsens(after, g.root)
    ensures Grows(g.root, after)
  {
    forall i, j | 0 <= i < |g.root| && 0 <= j < |g.root| && g.root[i] == g.root[j]
      ensures after[i] == after[j]
    {
      assert after[g.root[i]] == after[i] && after[g.root[j]] == after[j];
    }
  }

  lemma GrowsTransitive(a: seq<Id>, b: seq<Id>, c: seq<Id>)
    requires Grows(a, b) && Grows(b, c)
    ensures Grows(a, c)
  {
  }

  /** A later graph: ids stay merged, and a class keeps its nodes, under the later
      representatives. */
  ghost predicate Later(g: Graph, h: Graph) {
    Grows(g.root, h.root) && forall x: Id, n | Has(g, x, n) && Below(n, |g.root|) :: Lasts(h, x, n)
  }

  ghost predicate Lasts(h: Graph, x: Id, n: ENode) {
    Below(n, |h.root|) && x < |h.root| && Owns(h, h.root[x], Canon(h.root, n))
  }

  lemma LaterIsGrown(g: Graph, h: Graph)
    requires Later(g, h)
    ensures |g.root| <= |h.root|
  {
  }

  lemma LaterItself(g: Graph)
    requires WellFormed(g)
    ensures Later(g, g)
  {
    forall x: Id, n | Has(g, x, n) && Below(n, |g.root|)
      ensures Lasts(g, x, n)
    {
      assert Slot(g, x);
    }
  }

  /** Congruent nodes stay congruent. */
  lemma CongruentLasts(root: seq<Id>, later: seq<Id>, a: ENode, b: ENode)
    requires Grows(root, later) && Below(a, |root|) && Below(b, |root|) && Canon(root, a) == Canon(root, b)
    ensures Below(a, |later|) && Below(b, |later|) && Canon(later, a) == Canon(later, b)
  {
    CanonDecidesCongruence(root, a, b);
    assert Below(a, |later|) && Below(b, |later|);
    CanonDecidesCongruence(later, a, b);
  }

  lemma LaterTransitive(f: Graph, g: Graph, h: Graph)
    requires WellFormed(g) && Later(f, g) && Later(g, h)
    ensures Later(f, h)
  {
    GrowsTransitive(f.root, g.root, h.root);
    forall x: Id, n | Has(f, x, n) && Below(n, |f.root|)
      ensures Lasts(h, x, n)
    {
      assert Lasts(g, x, n);
      var own :| Has(g, g.root[x], own) && Below(own, |g.root|) && Canon(g.root, own) == Canon(g.root, n);
      assert Slot(g, x) && Slot(g, g.root[x]);
      assert Lasts(h, g.root[x], own);
      CongruentLasts(g.root, h.root, own, n);
    }
  }

  lemma JoinLater(g: Graph, ra: Id, rb: Id, data: Fact)
    requires Joinable(g, ra, rb)
    ensures Later(g, Joined(g, ra, rb, data))
  {
    var j := Joined(g, ra, rb, data);
    JoinWellFormed(g, ra, rb, data);
    CoarsensGrows(g, j.root);
    forall x: Id, n | Has(g, x, n) && Below(n, |g.root|)
      ensures Lasts(j, x, n)
    {
      JoinHas(g, ra, rb, data, x, n);
    }
  }

  /** New classes, and the old ones with the nodes and the facts they had. */
  ghost predicate Enlarged(g: Graph, h: Graph) {
    && WellFormed(g) && WellFormed(h) && g.root <= h.root
    && (forall i | |g.root| <= i < |h.root| :: h.root[i] == i)
    && (forall x: Id, n | x < |g.root| :: Has(h, x, n) <==> Has(g, x, n))
    && (forall x | 0 <= x < |g.root| :: FactAt(h, x) == FactAt(g, x))
  }

  lemma EnlargedItself(g: Graph)
    requires WellFormed(g)
    ensures Enlarged(g, g)
  {
  }

  lemma EnlargedTransitive(f: Graph, g: Graph, h: Graph)
    requires Enlarged(f, g) && Enlarged(g, h)
    ensures Enlarged(f, h)
  {
    hide FactAt, WellFormed;
    assert f.root <= h.root;
    forall i | |f.root| <= i < |h.root|
      ensures h.root[i] == i
    {
      assert i < |g.root| ==> h.root[i] == g.root[i];
    }
  }

  lemma EnlargedIsLater(g: Graph, h: Graph)
    requires Enlarged(g, h)
    ensures Later(g, h) && |g.root| <= |h.root|
  {
    forall x: Id, n | Has(g, x, n) && Below(n, |g.root|)
      ensures Lasts(h, x, n)
    {
      assert Slot(g, x) && Has(h, x, n);
    }
  }

  lemma AddEnlarges(g: Graph, after: Graph, n: ENode, fact: Fact)
    requires WellFormed(g) && Added(g, after, n, fact)
    ensures Enlarged(g, after) && FactAt(after, |g.root|) == fact
  {
    AddWellFormed(g, after, n, fact);
    var id := |g.root|;
    assert PushedAt(g.root, (g.classes + [Some(EClass(id, [n], fact, []))])[id], after.classes[id], Parent(n, id),
                    |n.children|, id);
    forall x: Id, m | x < |g.root|
      ensures Has(after, x, m) <==> Has(g, x, m)
    {
      AddHas(g, after, n, fact, x, m);
    }
    forall x | 0 <= x < |g.root|
      ensures FactAt(after, x) == FactAt(g, x)
    {
      var c := g.root[x];
      assert Slot(g, x) && Slot(g, c);
      assert PushedAt(g.root, (g.classes + [Some(EClass(id, [n], fact, []))])[c], after.classes[c], Parent(n, id),
                      |n.children|, c);
    }
  }

  /** A rebuilt graph is later than any whose record it has. */
  lemma RebuiltLater(g: Graph, log: seq<Entry>, asserted: seq<Equation>, f: Graph, more: seq<Entry>,
                     further: seq<Equation>)
    requires Sound(g, log, asserted) && log <= more && asserted <= further && Grows(g.root, f.root)
    requires Dormant(f, {}) && Sound(f, more, further) && Recorded(f, more, further)
    ensures Later(g, f)
  {
    RootIsCongruence(f, more, further);
    PrefixIsCongruence(g, log, asserted, f, more, further);
    assert RefinedBy(f.root[..|g.root|], g, log);
    hide Sound, Dormant, IsCongruence, Coarsens, Owns, Logged;
    forall x: Id, n | Has(g, x, n) && Below(n, |g.root|)
      ensures Lasts(f, x, n)
    {
      assert Slot(g, x);
      assert Logged(f.root[..|g.root|], log, x, n);
      LoggedLasts(g, log, f, more, further, x, n);
    }
  }

  lemma LoggedLasts(g: Graph, log: seq<Entry>, f: Graph, more: seq<Entry>, further: seq<Equation>, x: Id, n: ENode)
    requires |g.root| <= |f.root| && log <= more && Recorded(f, more, further) && x < |g.root| && Below(n, |g.root|)
    requires Logged(f.root[..|g.root|], log, x, n)
    ensures Lasts(f, x, n)
  {
    hide Congruent, Canon, Owns, IsCongruence;
    var part := f.root[..|g.root|];
    var e :| e in log && Below(e.node, |part|) && e.id < |part| && Congruent(part, e.node, n) && part[e.id] == part[x];
    assert e in more && f.root == part + f.root[|g.root|..];
    CongruentExtends(part, f.root[|g.root|..], e.node, n);
    CanonDecidesCongruence(f.root, e.node, n);
    assert Owns(f, f.root[e.id], Canon(f.root, e.node));
  }

  lemma PrefixIsCongruence(g: Graph, log: seq<Entry>, asserted: seq<Equation>, f: Graph, more: seq<Entry>,
                           further: seq<Equation>)
    requires Sound(g, log, asserted) && log <= more && asserted <= further && Grows(g.root, f.root)
    requires InRange(|f.root|, more, further) && IsCongruence(f.root, |f.root|, more, further)
    ensures IsCongruence(f.root[..|g.root|], |g.root|, log, asserted)
  {
    var part := f.root[..|g.root|];
    assert forall e | e in log :: e in more;
    assert forall q | q in asserted :: q in further;
    forall d, e | d in log && e in log && Congruent(part, d.node, e.node)
      ensures part[d.id] == part[e.id]
    {
      assert Congruent(f.root, d.node, e.node);
    }
  }
}
