/** When a graph holds everything the rules could add, and what keeps it so. */
module Closures {
  import opened Lang
  import opened Graphs
  import opened Congruences
  import opened NodeOrders
  import opened Reindexing
  import opened Steps
  import opened Terms
  import opened Extraction
  import opened Differentiation
  import opened Patterns
  import opened Enumerations
  import opened Matching
  import opened Conditions
  import opened Rewriting
  import opened EGraphs
  import opened Schedulers

  predicate GoodRules(rules: seq<Rule>) {
    forall i | 0 <= i < |rules| :: GoodRule(rules[i])
  }

  /** The rule's condition holds of the match as the graph stands. */
  ghost predicate Triggers(g: Graph, r: Rule, c: Id, s: Subst) {
    WellFormed(g) && c < |g.root| && (forall v | v in s :: s[v] < |g.root|) && FiresAt(g, r, c, s)
  }

  /** Wherever the left side of the rule is found and its condition holds, the right
      side is found too. */
  ghost predicate ClosedUnder(g: Graph, r: Rule)
    requires GoodRule(r)
  {
    forall c: Id, s: Subst | Representative(g, c) && MatchAt(g, r.lhs, c, s) && Triggers(g, r, c, s) ::
      IsIn(g, r.rhs, s, c)
  }

  /** The search for the rule meets no limit in a clean graph. */
  ghost predicate RuleFits(g: Graph, r: Rule)
    requires GoodRule(r)
  {
    SearchFits(TableOf(g), r.lhs, true)
  }

  /** The graph holds every consequence of the rules, or of those without condition,
      whose search meets no limit in it. */
  ghost predicate FitsClosed(g: Graph, rules: seq<Rule>, conditional: bool)
    requires GoodRules(rules)
  {
    forall i | 0 <= i < |rules| && (conditional || rules[i].condition.None?) && RuleFits(g, rules[i]) ::
      ClosedUnder(g, rules[i])
  }

  /** If every search fits, the graph holds every consequence. */
  lemma FittingIsClosed(g: Graph, rules: seq<Rule>, conditional: bool)
    requires WellFormed(g) && GoodRules(rules) && FitsClosed(g, rules, conditional)
    requires forall i | 0 <= i < |rules| :: RuleFits(g, rules[i])
    ensures conditional ==> forall i | 0 <= i < |rules| :: ClosedUnder(g, rules[i])
    ensures forall i | 0 <= i < |rules| && rules[i].condition.None? :: ClosedEverywhere(g, rules[i])
  {
    hide RuleFits, ClosedUnder, ClosedEverywhere, WellFormed, GoodRule;
    forall i | 0 <= i < |rules| && rules[i].condition.None?
      ensures ClosedEverywhere(g, rules[i])
    {
      ClosedMeansEverywhere(g, rules[i]);
    }
  }

  /** Wherever the left side is found, by whatever ids, so is the right side. */
  ghost predicate ClosedEverywhere(g: Graph, r: Rule)
    requires GoodRule(r)
  {
    forall c: Id, s: Subst | IsIn(g, r.lhs, s, c) :: IsIn(g, r.rhs, s, c)
  }

  /** The substitution with its ids replaced by representatives, on some of its
      variables. */
  function Canonicalized(g: Graph, s: Subst, vars: set<Sym>): Subst
    requires forall v | v in vars :: v in s && s[v] < |g.root|
  {
    map v | v in vars :: g.root[s[v]]
  }

  lemma ClosedMeansEverywhere(g: Graph, r: Rule)
    requires WellFormed(g) && GoodRule(r) && r.condition.None? && ClosedUnder(g, r)
    ensures ClosedEverywhere(g, r)
  {
    hide Names, WellFormed, GoodRule, ClosedUnder;
    RuleIsShaped(r);
    forall c: Id, s: Subst | IsIn(g, r.lhs, s, c)
      ensures IsIn(g, r.rhs, s, c)
    {
      ClosedAt(g, r, c, s);
    }
  }

  lemma ClosedAt(g: Graph, r: Rule, c: Id, s: Subst)
    requires WellFormed(g) && GoodRule(r) && r.condition.None? && ClosedUnder(g, r) && IsIn(g, r.lhs, s, c)
    ensures IsIn(g, r.rhs, s, c)
  {
    hide Names, WellFormed;
    var lhs, rhs := |r.lhs.nodes| - 1, |r.rhs.nodes| - 1;
    NamesBinds(g, r.lhs, lhs, s, c);
    NamesInRange(g, r.lhs, lhs, s, c);
    RootsInRange(g);
    var t := Canonicalized(g, s, VarsOf(r.lhs, lhs));
    NamesDepends(g, r.lhs, lhs, s, t, c, g.root[c]);
    assert MatchAt(g, r.lhs, g.root[c], t);
    assert Representative(g, g.root[c]) && Triggers(g, r, g.root[c], t);
    BindableVars(r.rhs, t, |g.root|, rhs);
    RhsVars(r, rhs);
    NamesDepends(g, r.rhs, rhs, t, s, g.root[c], c);
  }

  lemma NamesInRange(g: Graph, pat: Pattern, p: nat, s: Subst, c: Id)
    requires Shaped(pat) && p < |pat.nodes| && Names(g, pat, p, s, c)
    ensures c < |g.root|
  {
  }

  lemma RuleIsShaped(r: Rule)
    requires GoodRule(r)
    ensures Shaped(r.lhs) && Shaped(r.rhs)
  {
  }

  /** The right side uses only variables of the left. */
  lemma {:induction false} RhsVars(r: Rule, p: nat)
    requires GoodRule(r) && p < |r.rhs.nodes|
    ensures VarsOf(r.rhs, p) <= VarsOf(r.lhs, |r.lhs.nodes| - 1)
    decreases p, 1, 0
  {
    if r.rhs.nodes[p].Apply? {
      RhsKidVars(r, p, |r.rhs.nodes[p].kids|);
    }
  }

  lemma {:induction false} RhsKidVars(r: Rule, p: nat, k: nat)
    requires GoodRule(r) && p < |r.rhs.nodes| && r.rhs.nodes[p].Apply? && k <= |r.rhs.nodes[p].kids|
    ensures VarsOfKids(r.rhs, p, k) <= VarsOf(r.lhs, |r.lhs.nodes| - 1)
    decreases p, 0, k
  {
    if k > 0 {
      KidVars(r.rhs, p, k - 1, k);
      RhsKidVars(r, p, k - 1);
      RhsVars(r, r.rhs.nodes[p].kids[k - 1]);
    }
  }

  // ----- what keeps a graph closed -----

  /** The entry a node of a rebuilt graph stands for. */
  lemma EntryOf(g: Graph, log: seq<Entry>, asserted: seq<Equation>, x: Id, n: ENode) returns (e: Entry)
    requires Indexed(g) && Congruences.Sound(g, log, asserted) && Recorded(g, log, asserted) && Has(g, x, n)
    ensures x < |g.root| && g.root[x] == x && Below(n, |g.root|)
    ensures e in log && Below(e.node, |g.root|) && e.id < |g.root|
    ensures Congruent(g.root, e.node, n) && g.root[e.id] == g.root[x]
  {
    IndexedIsDormant(g);
    RootIsCongruence(g, log, asserted);
    assert RefinedBy(g.root, g, log);
    HasIsBelow(g, x, n);
    assert Logged(g.root, log, x, n);
    e :| e in log && Below(e.node, |g.root|) && e.id < |g.root| && Congruent(g.root, e.node, n)
         && g.root[e.id] == g.root[x];
  }

  /** Two rebuilt graphs with one record and one partition hold the same forms. */
  lemma SameForms(g: Graph, f: Graph, log: seq<Entry>, asserted: seq<Equation>, x: Id, m: ENode)
    requires Indexed(g) && Congruences.Sound(g, log, asserted) && Recorded(g, log, asserted)
    requires WellFormed(f) && Recorded(f, log, asserted) && f.root == g.root && Owns(g, x, m)
    ensures Owns(f, x, m)
  {
    hide Indexed, Congruences.Sound, Canon;
    var n :| Has(g, x, n) && Below(n, |g.root|) && Canon(g.root, n) == m;
    var e := EntryOf(g, log, asserted, x, n);
    CanonDecidesCongruence(g.root, e.node, n);
    assert Owns(f, f.root[e.id], Canon(f.root, e.node));
  }

  /** The classes of two such graphs list the same nodes, in one order. */
  lemma SameTables(g: Graph, f: Graph, log: seq<Entry>, asserted: seq<Equation>)
    requires Indexed(g) && Congruences.Sound(g, log, asserted) && Recorded(g, log, asserted) && AllSorted(g.classes)
    requires Indexed(f) && Congruences.Sound(f, log, asserted) && Recorded(f, log, asserted) && AllSorted(f.classes)
    requires f.root == g.root
    ensures TableOf(f) == TableOf(g)
  {
    hide Congruences.Sound, Recorded, Indexed, Owns, Sorted, Slot;
    IndexedIsWellFormed(g);
    IndexedIsWellFormed(f);
    var t, u := TableOf(g), TableOf(f);
    forall c | 0 <= c < |t.rows|
      ensures t.rows[c] == u.rows[c]
    {
      RowsOfRoots(g, f, c);
      if g.classes[c].Some? {
        forall n
          ensures n in t.rows[c] <==> n in u.rows[c]
        {
          if n in t.rows[c] {
            SameNode(g, f, log, asserted, c, n);
          }
          if n in u.rows[c] {
            SameNode(f, g, log, asserted, c, n);
          }
        }
        SortedIsUnique(t.rows[c], u.rows[c]);
      }
    }
    assert t.rows == u.rows;
  }

  lemma IndexedIsWellFormed(g: Graph)
    requires Indexed(g)
    ensures WellFormed(g)
  {
  }

  lemma RowsOfRoots(g: Graph, f: Graph, c: Id)
    requires WellFormed(g) && WellFormed(f) && f.root == g.root && c < |g.root|
    ensures c < |g.classes| && c < |f.classes| && (g.classes[c].Some? <==> f.classes[c].Some?)
  {
    assert Slot(g, c) && Slot(f, c);
  }

  /** A node of one is a node of the other: stored nodes are canonical. */
  lemma SameNode(g: Graph, f: Graph, log: seq<Entry>, asserted: seq<Equation>, c: Id, n: ENode)
    requires Indexed(g) && Congruences.Sound(g, log, asserted) && Recorded(g, log, asserted)
    requires Indexed(f) && Congruences.Sound(f, log, asserted) && Recorded(f, log, asserted) && f.root == g.root
    requires Has(g, c, n)
    ensures Has(f, c, n)
  {
    hide Congruences.Sound, Recorded, Canon;
    assert Filing(g, c, n);
    assert Owns(g, c, n);
    SameForms(g, f, log, asserted, c, n);
    var own :| Has(f, c, own) && Below(own, |f.root|) && Canon(f.root, own) == n;
    assert Filing(f, c, own);
  }

  /** A graph rebuilt without change of partition or record holds what it held. */
  lemma ClosedTransfers(g: Graph, f: Graph, log: seq<Entry>, asserted: seq<Equation>, rules: seq<Rule>)
    requires Indexed(g) && Congruences.Sound(g, log, asserted) && Recorded(g, log, asserted) && AllSorted(g.classes)
    requires Indexed(f) && Congruences.Sound(f, log, asserted) && Recorded(f, log, asserted) && AllSorted(f.classes)
    requires f.root == g.root && GoodRules(rules) && FitsClosed(g, rules, false)
    ensures FitsClosed(f, rules, false)
  {
    hide Names, GoodRule, TableOf, SearchFits, AllSorted, Indexed, Recorded, Congruences.Sound, MatchAt, Triggers,
         WellFormed, Owns;
    SameTables(g, f, log, asserted);
    IndexedIsWellFormed(g);
    IndexedIsWellFormed(f);
    forall x: Id, m
      ensures Owns(g, x, m) <==> Owns(f, x, m)
    {
      if Owns(g, x, m) {
        SameForms(g, f, log, asserted, x, m);
      }
      if Owns(f, x, m) {
        SameForms(f, g, log, asserted, x, m);
      }
    }
    forall i | 0 <= i < |rules| && rules[i].condition.None? && RuleFits(f, rules[i])
      ensures ClosedUnder(f, rules[i])
    {
      RuleIsShaped(rules[i]);
      assert RuleFits(g, rules[i]) && ClosedUnder(g, rules[i]);
      forall c: Id, s: Subst | Representative(f, c) && MatchAt(f, rules[i].lhs, c, s) && Triggers(f, rules[i], c, s)
        ensures IsIn(f, rules[i].rhs, s, c)
      {
        MatchTransfers(f, g, rules[i], c, s);
        assert IsIn(g, rules[i].rhs, s, c);
        NamesTransfers(g, f, rules[i].rhs, |rules[i].rhs.nodes| - 1, s, c);
      }
    }
  }

  lemma MatchTransfers(f: Graph, g: Graph, r: Rule, c: Id, s: Subst)
    requires WellFormed(f) && WellFormed(g) && f.root == g.root && GoodRule(r) && r.condition.None?
    requires forall x: Id, m | Owns(f, x, m) :: Owns(g, x, m)
    requires MatchAt(f, r.lhs, c, s) && Triggers(f, r, c, s)
    ensures MatchAt(g, r.lhs, c, s) && Triggers(g, r, c, s)
  {
    NamesTransfers(f, g, r.lhs, |r.lhs.nodes| - 1, s, c);
  }

  /** Graphs with the same nodes represent the same terms. */
  lemma {:induction false} SameRepresents(g: Graph, f: Graph, c: Id, t: Term)
    requires SameNodes(g, f) && Represents(g, c, t)
    ensures Represents(f, c, t)
    decreases t
  {
    var n, m := NodeFor(g, c, t);
    forall k | 0 <= k < |t.args|
      ensures Represents(f, m.children[k], t.args[k])
    {
      SameRepresents(g, f, m.children[k], t.args[k]);
    }
    assert Has(f, f.root[c], n) && Fits(f, m, t);
    assert n == Flip(m) || n == m;
  }

  lemma SameWitness(g: Graph, f: Graph, c: Id, v: Sym)
    requires SameNodes(g, f) && SameNodes(f, g)
    ensures HasWitness(g, c, v) <==> HasWitness(f, c, v)
    ensures HoldsVar(g, c, v) <==> HoldsVar(f, c, v)
  {
    if HasWitness(g, c, v) {
      var t :| Represents(g, c, t) && Lacks(v, t);
      SameRepresents(g, f, c, t);
    }
    if HasWitness(f, c, v) {
      var t :| Represents(f, c, t) && Lacks(v, t);
      SameRepresents(f, g, c, t);
    }
  }

  /** Every condition answers as it did. */
  lemma {:induction false} SameAnswer(g: Graph, f: Graph, cond: Condition, d: Fact, facts: map<Sym, Fact>, s: Subst)
    requires SameNodes(g, f) && SameNodes(f, g)
    ensures HoldsOf(g, cond, d, facts, s) <==> HoldsOf(f, cond, d, facts, s)
    decreases cond
  {
    hide HasWitness, HoldsVar;
    forall c: Id, v: Sym
      ensures HasWitness(g, c, v) <==> HasWitness(f, c, v)
      ensures HoldsVar(g, c, v) <==> HoldsVar(f, c, v)
    {
      SameWitness(g, f, c, v);
    }
    if cond.Both? {
      SameAnswer(g, f, cond.first, d, facts, s);
      SameAnswer(g, f, cond.second, d, facts, s);
    }
  }

  lemma SameTrigger(g: Graph, f: Graph, r: Rule, c: Id, s: Subst)
    requires SameClasses(g, f) && WellFormed(g)
    ensures Triggers(g, r, c, s) <==> Triggers(f, r, c, s)
  {
    if c < |g.root| && forall v | v in s :: s[v] < |g.root| {
      forall x: Id | x < |g.root|
        ensures FactAt(g, x) == FactAt(f, x)
      {
        assert Slot(g, x) && Slot(g, g.root[x]);
      }
      assert FactsAt(g, s) == FactsAt(f, s);
      if r.condition.Some? {
        SameAnswer(g, f, r.condition.value, FactAt(g, c), FactsAt(g, s), s);
      }
    }
  }

  lemma {:induction false} SameNames(g: Graph, f: Graph, pat: Pattern, p: nat, s: Subst, c: Id)
    requires SameNodes(g, f) && Shaped(pat) && p < |pat.nodes| && Names(g, pat, p, s, c)
    ensures Names(f, pat, p, s, c)
    decreases p
  {
    if pat.nodes[p].Apply? {
      var n, m := NamesBy(g, pat, p, s, c);
      forall k | 0 <= k < |m.children|
        ensures pat.nodes[p].kids[k] < p && Names(f, pat, pat.nodes[p].kids[k], s, m.children[k])
      {
        KidNames(g, pat, p, s, m.children, k);
        SameNames(g, f, pat, pat.nodes[p].kids[k], s, m.children[k]);
      }
      assert KidsName(f, pat, p, s, m.children);
      assert Has(f, f.root[c], n);
    }
  }

  lemma SameRows(g: Graph, f: Graph)
    requires SameClasses(g, f) && AllSorted(g.classes) && AllSorted(f.classes)
    ensures TableOf(f) == TableOf(g)
  {
    hide Sorted, Slot;
    var t, u := TableOf(g), TableOf(f);
    forall c | 0 <= c < |t.rows|
      ensures t.rows[c] == u.rows[c]
    {
      if g.classes[c].Some? {
        forall n
          ensures n in t.rows[c] <==> n in u.rows[c]
        {
          assert Has(g, c, n) <==> Has(f, c, n);
        }
        SortedIsUnique(t.rows[c], u.rows[c]);
      }
    }
    assert t.rows == u.rows;
  }

  /** A graph that keeps its classes, its nodes and its facts stays closed, under
      rules with conditions too. */
  lemma ClosedStays(g: Graph, f: Graph, rules: seq<Rule>)
    requires SameClasses(g, f) && WellFormed(g) && AllSorted(g.classes) && AllSorted(f.classes)
    requires GoodRules(rules) && FitsClosed(g, rules, true)
    ensures FitsClosed(f, rules, true)
  {
    hide Names, GoodRule, TableOf, SearchFits, AllSorted, WellFormed, Triggers, MatchAt;
    SameRows(g, f);
    forall i | 0 <= i < |rules| && RuleFits(f, rules[i])
      ensures ClosedUnder(f, rules[i])
    {
      RuleIsShaped(rules[i]);
      assert RuleFits(g, rules[i]) && ClosedUnder(g, rules[i]);
      forall c: Id, s: Subst | Representative(f, c) && MatchAt(f, rules[i].lhs, c, s) && Triggers(f, rules[i], c, s)
        ensures IsIn(f, rules[i].rhs, s, c)
      {
        SameMatch(f, g, rules[i].lhs, c, s);
        SameTrigger(g, f, rules[i], c, s);
        assert IsIn(g, rules[i].rhs, s, c);
        SameNames(g, f, rules[i].rhs, |rules[i].rhs.nodes| - 1, s, c);
      }
    }
  }

  lemma SameMatch(f: Graph, g: Graph, pat: Pattern, c: Id, s: Subst)
    requires SameNodes(f, g) && Shaped(pat) && MatchAt(f, pat, c, s)
    ensures MatchAt(g, pat, c, s)
  {
    SameNames(f, g, pat, |pat.nodes| - 1, s, c);
  }
}
