/** Patterns, what it means for one to name a class, and which substitutions
    make it do so. */
module Patterns {
  import opened Lang
  import opened Graphs
  import opened Meanings
  import opened Steps
  import opened Terms

  /** A pattern variable, or an operator applied to earlier pattern nodes. */
  datatype PatNode = Hole(v: Sym) | Apply(op: Op, kids: seq<nat>)

  /** The root is the last node. */
  datatype Pattern = Pattern(nodes: seq<PatNode>)

  predicate KidsAreEarlier(nodes: seq<PatNode>, i: nat)
    requires i < |nodes|
  {
    nodes[i].Apply? ==>
      |nodes[i].kids| == nodes[i].op.Arity() && forall k | 0 <= k < |nodes[i].kids| :: nodes[i].kids[k] < i
  }

  predicate Shaped(pat: Pattern) {
    pat.nodes != [] && forall i | 0 <= i < |pat.nodes| :: KidsAreEarlier(pat.nodes, i)
  }

  type Subst = map<Sym, Id>

  /** Every operator of the pattern is vouched for. */
  predicate AllVouched(sem: Semantics, pat: Pattern) {
    forall i | 0 <= i < |pat.nodes| && pat.nodes[i].Apply? :: sem.knows(pat.nodes[i].op)
  }

  /** The variables below a pattern node. */
  function VarsOf(pat: Pattern, p: nat): set<Sym>
    requires Shaped(pat) && p < |pat.nodes|
    decreases p, 1, 0
  {
    match pat.nodes[p]
    case Hole(v) => {v}
    case Apply(_, kids) =>
      assert KidsAreEarlier(pat.nodes, p);
      VarsOfKids(pat, p, |kids|)
  }

  /** The variables below the first `k` children. */
  function VarsOfKids(pat: Pattern, p: nat, k: nat): set<Sym>
    requires Shaped(pat) && p < |pat.nodes| && pat.nodes[p].Apply? && k <= |pat.nodes[p].kids|
    decreases p, 0, k
  {
    if k == 0 then {}
    else
      assert KidsAreEarlier(pat.nodes, p);
      VarsOfKids(pat, p, k - 1) + VarsOf(pat, pat.nodes[p].kids[k - 1])
  }

  lemma {:induction false} KidVars(pat: Pattern, p: nat, j: nat, k: nat)
    requires Shaped(pat) && p < |pat.nodes| && pat.nodes[p].Apply? && j < k <= |pat.nodes[p].kids|
    ensures pat.nodes[p].kids[j] < p && VarsOf(pat, pat.nodes[p].kids[j]) <= VarsOfKids(pat, p, k)
    decreases k
  {
    assert KidsAreEarlier(pat.nodes, p);
    if j < k - 1 {
      KidVars(pat, p, j, k - 1);
    }
  }

  // ----- naming -----

  /** The pattern under the substitution is a term of the class of `c`. */
  ghost predicate Names(g: Graph, pat: Pattern, p: nat, s: Subst, c: Id)
    requires Shaped(pat) && p < |pat.nodes|
    decreases p, 1
  {
    c < |g.root|
    && match pat.nodes[p]
       case Hole(v) => v in s && s[v] < |g.root| && g.root[s[v]] == g.root[c]
       case Apply(op, _) =>
         exists n :: Has(g, g.root[c], n) && n.op == op
                     && (KidsName(g, pat, p, s, n.children) || KidsName(g, pat, p, s, Flip(n).children))
  }

  /** The children of the pattern node name the given classes. */
  ghost predicate KidsName(g: Graph, pat: Pattern, p: nat, s: Subst, args: seq<Id>)
    requires Shaped(pat) && p < |pat.nodes| && pat.nodes[p].Apply?
    decreases p, 0
  {
    && |args| == |pat.nodes[p].kids|
    && (forall k | 0 <= k < |args| ::
          assert KidsAreEarlier(pat.nodes, p);
          Names(g, pat, pat.nodes[p].kids[k], s, args[k]))
  }

  /** A node of the class the pattern was read from, and the order its children
      were read in. */
  lemma NamesBy(g: Graph, pat: Pattern, p: nat, s: Subst, c: Id) returns (n: ENode, m: ENode)
    requires Shaped(pat) && p < |pat.nodes| && pat.nodes[p].Apply? && Names(g, pat, p, s, c)
    ensures c < |g.root| && Has(g, g.root[c], n) && n.op == m.op == pat.nodes[p].op && (m == n || m == Flip(n))
    ensures KidsName(g, pat, p, s, m.children)
  {
    n :| Has(g, g.root[c], n) && n.op == pat.nodes[p].op
         && (KidsName(g, pat, p, s, n.children) || KidsName(g, pat, p, s, Flip(n).children));
    m := if KidsName(g, pat, p, s, n.children) then n else Flip(n);
  }

  lemma KidNames(g: Graph, pat: Pattern, p: nat, s: Subst, args: seq<Id>, k: nat)
    requires Shaped(pat) && p < |pat.nodes| && pat.nodes[p].Apply? && KidsName(g, pat, p, s, args) && k < |args|
    ensures k < |pat.nodes[p].kids| && pat.nodes[p].kids[k] < p && Names(g, pat, pat.nodes[p].kids[k], s, args[k])
  {
    assert KidsAreEarlier(pat.nodes, p);
  }

  /** A pattern names nothing unless its variables are bound. */
  lemma {:induction false} NamesBinds(g: Graph, pat: Pattern, p: nat, s: Subst, c: Id)
    requires Shaped(pat) && p < |pat.nodes| && Names(g, pat, p, s, c)
    ensures forall v | v in VarsOf(pat, p) :: v in s && s[v] < |g.root|
    decreases p, 1, 0
  {
    if pat.nodes[p].Apply? {
      var n, m := NamesBy(g, pat, p, s, c);
      KidsBind(g, pat, p, s, m.children, |pat.nodes[p].kids|);
    }
  }

  lemma {:induction false} KidsBind(g: Graph, pat: Pattern, p: nat, s: Subst, args: seq<Id>, k: nat)
    requires Shaped(pat) && p < |pat.nodes| && pat.nodes[p].Apply? && KidsName(g, pat, p, s, args)
    requires k <= |pat.nodes[p].kids|
    ensures forall v | v in VarsOfKids(pat, p, k) :: v in s && s[v] < |g.root|
    decreases p, 0, k
  {
    if k > 0 {
      KidsBind(g, pat, p, s, args, k - 1);
      KidNames(g, pat, p, s, args, k - 1);
      NamesBinds(g, pat, pat.nodes[p].kids[k - 1], s, args[k - 1]);
    }
  }

  /** `t` binds the variables to the classes `s` binds them to. */
  ghost predicate SameOn(g: Graph, vars: set<Sym>, s: Subst, t: Subst) {
    forall v | v in vars && v in s :: v in t && s[v] < |g.root| && t[v] < |g.root| && g.root[s[v]] == g.root[t[v]]
  }

  /** What a pattern names depends only on the classes its variables are bound
      to. */
  lemma {:induction false} NamesDepends(g: Graph, pat: Pattern, p: nat, s: Subst, t: Subst, c: Id, d: Id)
    requires Shaped(pat) && p < |pat.nodes| && Names(g, pat, p, s, c) && SameOn(g, VarsOf(pat, p), s, t)
    requires d < |g.root| && g.root[c] == g.root[d]
    ensures Names(g, pat, p, t, d)
    decreases p
  {
    if pat.nodes[p].Apply? {
      var n, m := NamesBy(g, pat, p, s, c);
      forall k | 0 <= k < |m.children|
        ensures pat.nodes[p].kids[k] < p && Names(g, pat, pat.nodes[p].kids[k], t, m.children[k])
      {
        KidNames(g, pat, p, s, m.children, k);
        KidVars(pat, p, k, |pat.nodes[p].kids|);
        NamesDepends(g, pat, pat.nodes[p].kids[k], s, t, m.children[k], m.children[k]);
      }
      assert KidsName(g, pat, p, t, m.children);
    }
  }

  /** A pattern keeps naming a class as long as the class keeps its forms. */
  lemma {:induction false} NamesTransfers(g: Graph, f: Graph, pat: Pattern, p: nat, s: Subst, c: Id)
    requires WellFormed(g) && WellFormed(f) && f.root == g.root
    requires forall x: Id, m | Owns(g, x, m) :: Owns(f, x, m)
    requires Shaped(pat) && p < |pat.nodes| && Names(g, pat, p, s, c)
    ensures Names(f, pat, p, s, c)
    decreases p
  {
    if pat.nodes[p].Apply? {
      var n, m := NamesBy(g, pat, p, s, c);
      var n', m' := FormTransfers(g, f, g.root[c], n, m);
      forall k | 0 <= k < |m'.children|
        ensures pat.nodes[p].kids[k] < p && Names(f, pat, pat.nodes[p].kids[k], s, m'.children[k])
      {
        KidNames(g, pat, p, s, m.children, k);
        NamesTransfers(g, f, pat, pat.nodes[p].kids[k], s, m.children[k]);
        NamesOfRoot(f, pat, pat.nodes[p].kids[k], s, m.children[k], m'.children[k]);
      }
      assert KidsName(f, pat, p, s, m'.children);
    }
  }

  /** A pattern names a class of every later graph. */
  lemma {:induction false} NamesLasts(g: Graph, h: Graph, pat: Pattern, p: nat, s: Subst, c: Id)
    requires WellFormed(g) && WellFormed(h) && Later(g, h)
    requires Shaped(pat) && p < |pat.nodes| && Names(g, pat, p, s, c)
    ensures Names(h, pat, p, s, c)
    decreases p
  {
    match pat.nodes[p] {
      case Hole(v) =>
        assert h.root[s[v]] == h.root[c];
      case Apply(_, _) =>
        var n, m := NamesBy(g, pat, p, s, c);
        var n', m' := FormLasts(g, h, c, n, m);
        forall k | 0 <= k < |m'.children|
          ensures pat.nodes[p].kids[k] < p && Names(h, pat, pat.nodes[p].kids[k], s, m'.children[k])
        {
          KidNames(g, pat, p, s, m.children, k);
          NamesLasts(g, h, pat, pat.nodes[p].kids[k], s, m.children[k]);
          NamesOfRoot(h, pat, pat.nodes[p].kids[k], s, m.children[k], m'.children[k]);
        }
        assert KidsName(h, pat, p, s, m'.children);
    }
  }

  /** The form of a node, found in a later graph and read in the same order. */
  lemma FormLasts(g: Graph, h: Graph, c: Id, n: ENode, m: ENode) returns (n': ENode, m': ENode)
    requires WellFormed(g) && WellFormed(h) && Later(g, h) && c < |g.root| && Has(g, g.root[c], n)
    requires m == n || m == Flip(n)
    ensures c < |h.root| && Has(h, h.root[c], n') && (m' == n' || m' == Flip(n'))
    ensures n'.op == m'.op == m.op && |m'.children| == |m.children|
    ensures forall k | 0 <= k < |m.children| ::
              m.children[k] < |h.root| && m'.children[k] < |h.root| && h.root[m'.children[k]] == h.root[m.children[k]]
  {
    HasIsBelow(g, g.root[c], n);
    assert Slot(g, c) && Lasts(h, g.root[c], n);
    assert h.root[g.root[c]] == h.root[c];
    n' :| Has(h, h.root[c], n') && Below(n', |h.root|) && Canon(h.root, n') == Canon(h.root, n);
    m' := Rearranged(h, n, m, n');
  }

  /** Every part of the pattern is used, as in any read from an expression. */
  predicate AllUsed(pat: Pattern) {
    forall i | 0 <= i < |pat.nodes| - 1 :: IsUsed(pat, i)
  }

  predicate IsUsed(pat: Pattern, i: nat) {
    exists p :: i < p < |pat.nodes| && RefersTo(pat.nodes[p], i)
  }

  predicate RefersTo(node: PatNode, i: nat) {
    node.Apply? && i in node.kids
  }

  /** Then, where the pattern names a class, every part does. */
  lemma {:induction false} PartsNamed(g: Graph, pat: Pattern, s: Subst, c: Id, i: nat)
    requires Shaped(pat) && AllUsed(pat) && IsIn(g, pat, s, c) && i < |pat.nodes|
    ensures exists d :: Names(g, pat, i, s, d)
    decreases |pat.nodes| - i
  {
    if i < |pat.nodes| - 1 {
      assert IsUsed(pat, i);
      var p :| i < p < |pat.nodes| && RefersTo(pat.nodes[p], i);
      var k :| 0 <= k < |pat.nodes[p].kids| && pat.nodes[p].kids[k] == i;
      PartsNamed(g, pat, s, c, p);
      var d :| Names(g, pat, p, s, d);
      var n, m := NamesBy(g, pat, p, s, d);
      KidNames(g, pat, p, s, m.children, k);
    }
  }

  lemma NamesOfRoot(g: Graph, pat: Pattern, p: nat, s: Subst, c: Id, d: Id)
    requires Shaped(pat) && p < |pat.nodes| && Names(g, pat, p, s, c) && d < |g.root| && g.root[c] == g.root[d]
    ensures Names(g, pat, p, s, d)
  {
    NamesBinds(g, pat, p, s, c);
    NamesDepends(g, pat, p, s, s, c, d);
  }

  /** The form of a node of `g`, found in `f` and read in the same order. */
  lemma FormTransfers(g: Graph, f: Graph, x: Id, n: ENode, m: ENode) returns (n': ENode, m': ENode)
    requires WellFormed(g) && WellFormed(f) && f.root == g.root && Has(g, x, n) && (m == n || m == Flip(n))
    requires forall y: Id, form | Owns(g, y, form) :: Owns(f, y, form)
    ensures Has(f, x, n') && (m' == n' || m' == Flip(n')) && n'.op == m'.op == m.op && |m'.children| == |m.children|
    ensures forall k | 0 <= k < |m.children| ::
              m.children[k] < |g.root| && m'.children[k] < |g.root| && g.root[m'.children[k]] == g.root[m.children[k]]
  {
    HasIsBelow(g, x, n);
    assert Owns(g, x, Canon(g.root, n));
    n' :| Has(f, x, n') && Below(n', |f.root|) && Canon(f.root, n') == Canon(g.root, n);
    m' := Rearranged(g, n, m, n');
  }

  /** A congruent node can be read in the same order. */
  lemma Rearranged(g: Graph, n: ENode, m: ENode, other: ENode) returns (m': ENode)
    requires Below(n, |g.root|) && Below(other, |g.root|) && Canon(g.root, n) == Canon(g.root, other)
    requires m == n || m == Flip(n)
    ensures m' == other || m' == Flip(other)
    ensures m'.op == m.op && |m'.children| == |m.children| && Below(m', |g.root|)
    ensures forall k | 0 <= k < |m.children| ::
              m.children[k] < |g.root| && g.root[m'.children[k]] == g.root[m.children[k]]
  {
    CanonDecidesCongruence(g.root, n, other);
    if forall k | 0 <= k < |n.children| :: g.root[n.children[k]] == g.root[other.children[k]] {
      m' := if m == n then other else Flip(other);
    } else {
      m' := if m == n then Flip(other) else other;
    }
  }

  /** The whole pattern under the substitution is a term of the class of `c`. */
  ghost predicate IsIn(g: Graph, pat: Pattern, s: Subst, c: Id)
    requires Shaped(pat)
  {
    Names(g, pat, |pat.nodes| - 1, s, c)
  }

  // ----- matches -----

  /** Representatives only. */
  predicate Canonical(g: Graph, s: Subst) {
    forall v | v in s :: s[v] < |g.root| && g.root[s[v]] == s[v]
  }

  predicate Widens(s: Subst, t: Subst) {
    forall v | v in s :: v in t && t[v] == s[v]
  }

  /** `t` extends `s` to exactly the variables below `p`, so that the pattern
      names the class. */
  ghost predicate Matches(g: Graph, pat: Pattern, p: nat, c: Id, s: Subst, t: Subst)
    requires Shaped(pat) && p < |pat.nodes|
  {
    && t.Keys == s.Keys + VarsOf(pat, p) && Widens(s, t) && Canonical(g, t)
    && Names(g, pat, p, t, c)
  }

  /** The same, for the first `k` children against as many classes. */
  ghost predicate MatchesKids(g: Graph, pat: Pattern, p: nat, args: seq<Id>, k: nat, s: Subst, t: Subst)
    requires Shaped(pat) && p < |pat.nodes| && pat.nodes[p].Apply? && k <= |pat.nodes[p].kids| == |args|
  {
    && t.Keys == s.Keys + VarsOfKids(pat, p, k) && Widens(s, t) && Canonical(g, t)
    && (forall j | 0 <= j < k :: KidNamed(g, pat, p, args, t, j))
  }

  ghost predicate KidNamed(g: Graph, pat: Pattern, p: nat, args: seq<Id>, t: Subst, j: nat)
    requires Shaped(pat) && p < |pat.nodes| && pat.nodes[p].Apply? && j < |pat.nodes[p].kids| == |args|
  {
    assert KidsAreEarlier(pat.nodes, p);
    Names(g, pat, pat.nodes[p].kids[j], t, args[j])
  }

  /** Matching a node is matching the children of some node of the class, read in
      either order if the operator commutes. */
  lemma MatchByNode(g: Graph, pat: Pattern, p: nat, c: Id, s: Subst, t: Subst) returns (n: ENode, m: ENode)
    requires Shaped(pat) && p < |pat.nodes| && pat.nodes[p].Apply? && Matches(g, pat, p, c, s, t)
    ensures c < |g.root| && Has(g, g.root[c], n) && n.op == m.op == pat.nodes[p].op && (m == n || m == Flip(n))
    ensures |m.children| == |pat.nodes[p].kids| && MatchesKids(g, pat, p, m.children, |m.children|, s, t)
  {
    n, m := NamesBy(g, pat, p, t, c);
    forall j | 0 <= j < |m.children|
      ensures KidNamed(g, pat, p, m.children, t, j)
    {
      KidNames(g, pat, p, t, m.children, j);
    }
  }

  lemma NodeMatches(g: Graph, pat: Pattern, p: nat, c: Id, n: ENode, m: ENode, s: Subst, t: Subst)
    requires Shaped(pat) && p < |pat.nodes| && pat.nodes[p].Apply?
    requires c < |g.root| && Has(g, g.root[c], n) && n.op == pat.nodes[p].op && (m == n || m == Flip(n))
    requires |m.children| == |pat.nodes[p].kids| && MatchesKids(g, pat, p, m.children, |m.children|, s, t)
    ensures Matches(g, pat, p, c, s, t)
  {
    forall k | 0 <= k < |m.children|
      ensures pat.nodes[p].kids[k] < p && Names(g, pat, pat.nodes[p].kids[k], t, m.children[k])
    {
      assert KidNamed(g, pat, p, m.children, t, k);
      assert KidsAreEarlier(pat.nodes, p);
    }
    assert KidsName(g, pat, p, t, m.children);
  }

  /** Matching one more child extends a match of those before it. */
  lemma ExtendMatch(g: Graph, pat: Pattern, p: nat, args: seq<Id>, k: nat, s: Subst, mid: Subst, t: Subst)
    requires Shaped(pat) && p < |pat.nodes| && pat.nodes[p].Apply? && k < |pat.nodes[p].kids| == |args|
    requires pat.nodes[p].kids[k] < p
    requires MatchesKids(g, pat, p, args, k, s, mid) && Matches(g, pat, pat.nodes[p].kids[k], args[k], mid, t)
    ensures MatchesKids(g, pat, p, args, k + 1, s, t)
  {
    forall j | 0 <= j < k + 1
      ensures KidNamed(g, pat, p, args, t, j)
    {
      KidVars(pat, p, j, k + 1);
      if j < k {
        KidVars(pat, p, j, k);
        assert KidNamed(g, pat, p, args, mid, j);
        NamesDepends(g, pat, pat.nodes[p].kids[j], mid, t, args[j], args[j]);
      }
    }
  }

  /** Every match of `k + 1` children extends one of the first `k`. */
  lemma SplitMatch(g: Graph, pat: Pattern, p: nat, args: seq<Id>, k: nat, s: Subst, t: Subst) returns (mid: Subst)
    requires Shaped(pat) && p < |pat.nodes| && pat.nodes[p].Apply? && k < |pat.nodes[p].kids| == |args|
    requires MatchesKids(g, pat, p, args, k + 1, s, t)
    ensures pat.nodes[p].kids[k] < p
    ensures MatchesKids(g, pat, p, args, k, s, mid) && Matches(g, pat, pat.nodes[p].kids[k], args[k], mid, t)
  {
    mid := map v | v in t && v in s.Keys + VarsOfKids(pat, p, k) :: t[v];
    assert mid.Keys == s.Keys + VarsOfKids(pat, p, k);
    KidVars(pat, p, k, k + 1);
    assert KidNamed(g, pat, p, args, t, k);
    forall j | 0 <= j < k
      ensures KidNamed(g, pat, p, args, mid, j)
    {
      KidVars(pat, p, j, k);
      assert KidNamed(g, pat, p, args, t, j);
      NamesDepends(g, pat, pat.nodes[p].kids[j], t, mid, args[j], args[j]);
    }
  }

  // ----- values -----

  /** What the pattern denotes when its variables have values. */
  function PatValue(sem: Semantics, pat: Pattern, p: nat, values: map<Sym, Value>): Value
    requires Shaped(pat) && p < |pat.nodes| && VarsOf(pat, p) <= values.Keys
    decreases p, 1, 0
  {
    match pat.nodes[p]
    case Hole(v) => values[v]
    case Apply(op, kids) => sem.eval(op, KidValues(sem, pat, p, values, |kids|))
  }

  function KidValues(sem: Semantics, pat: Pattern, p: nat, values: map<Sym, Value>, k: nat): (vs: seq<Value>)
    requires Shaped(pat) && p < |pat.nodes| && pat.nodes[p].Apply? && k <= |pat.nodes[p].kids|
    requires VarsOfKids(pat, p, k) <= values.Keys
    ensures |vs| == k
    decreases p, 0, k
  {
    if k == 0 then []
    else
      KidVars(pat, p, k - 1, k);
      KidValues(sem, pat, p, values, k - 1) + [PatValue(sem, pat, pat.nodes[p].kids[k - 1], values)]
  }

  lemma {:induction false} KidValueAt(sem: Semantics, pat: Pattern, p: nat, values: map<Sym, Value>, j: nat, k: nat)
    requires Shaped(pat) && p < |pat.nodes| && pat.nodes[p].Apply? && j < k <= |pat.nodes[p].kids|
    requires VarsOfKids(pat, p, k) <= values.Keys
    ensures pat.nodes[p].kids[j] < p && VarsOf(pat, pat.nodes[p].kids[j]) <= values.Keys
    ensures KidValues(sem, pat, p, values, k)[j] == PatValue(sem, pat, pat.nodes[p].kids[j], values)
    decreases k
  {
    KidVars(pat, p, j, k);
    if j < k - 1 {
      KidValueAt(sem, pat, p, values, j, k - 1);
    }
  }

  /** The values of the classes a substitution binds. */
  function Assigned(meaning: seq<Value>, s: Subst): map<Sym, Value>
    requires forall v | v in s :: s[v] < |meaning|
  {
    map v | v in s :: meaning[s[v]]
  }

  /** A class a pattern names denotes what the pattern does. */
  lemma {:induction false} NamesDenotes(sem: Semantics, analysis: Analysis, meaning: seq<Value>, g: Graph,
                                        pat: Pattern, p: nat, s: Subst, c: Id)
    requires Respects(sem, analysis) && Meaningful(sem, meaning, g)
    requires Shaped(pat) && p < |pat.nodes| && Names(g, pat, p, s, c) && forall v | v in s :: s[v] < |meaning|
    ensures c < |meaning| && VarsOf(pat, p) <= s.Keys
    ensures PatValue(sem, pat, p, Assigned(meaning, s)) == meaning[c]
    decreases p
  {
    NamesBinds(g, pat, p, s, c);
    SameClassSameMeaning(sem, meaning, g);
    if pat.nodes[p].Apply? {
      var n, m := NamesBy(g, pat, p, s, c);
      HasIsBelow(g, g.root[c], n);
      var k := |m.children|;
      forall j | 0 <= j < k
        ensures m.children[j] < |meaning|
        ensures KidValues(sem, pat, p, Assigned(meaning, s), k)[j] == meaning[m.children[j]]
      {
        KidNames(g, pat, p, s, m.children, j);
        NamesDenotes(sem, analysis, meaning, g, pat, pat.nodes[p].kids[j], s, m.children[j]);
        KidValueAt(sem, pat, p, Assigned(meaning, s), j, k);
      }
      assert KidValues(sem, pat, p, Assigned(meaning, s), k) == Arguments(meaning, m.children);
      FlipDenotes(sem, analysis, meaning, n);
      assert Denotes(sem, meaning, n) == meaning[g.root[c]];
    }
  }
}
