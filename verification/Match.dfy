/** E-matching: every substitution under which a pattern names a class. */
module Matching {
  import opened Options
  import opened Lang
  import opened UnionFinds
  import opened Graphs
  import opened NodeOrders
  import opened Reindexing
  import opened Patterns
  import opened Enumerations
  import opened EGraphs
  import opened Steps
  import opened Histories

  /** Substitutions one search may produce. */
  const MAX_SUBSTS_PER_SEARCH := 20_000

  /** Work one search may do. */
  const MAX_MATCH_STEPS := 400_000

  /** Remaining matcher work, shared across one search. */
  class Budget {
    var steps: nat
    var exhausted: bool

    predicate Valid()
      reads this
    {
      exhausted ==> steps == 0
    }

    constructor (steps: nat)
      ensures this.steps == steps && !exhausted && Valid()
    {
      this.steps, exhausted := steps, false;
    }

    method Spend() returns (ok: bool)
      requires Valid()
      modifies this
      ensures Valid()
      ensures ok <==> old(steps) > 0
      ensures steps == if ok then old(steps) - 1 else 0
      ensures exhausted == (old(exhausted) || !ok)
    {
      ok := steps > 0;
      if ok {
        steps := steps - 1;
      } else {
        exhausted := true;
      }
    }
  }

  /** What the matcher relies on: sorted classes, and operators with as many
      children as they take. */
  ghost predicate Searchable(g: Graph) {
    HasArities(g) && AllSorted(g.classes)
  }

  // ----- the run of an operator in a sorted class -----

  /** Nodes before one with a lesser operator have a lesser operator. */
  lemma LesserBefore(nodes: seq<ENode>, i: nat, j: nat, op: Op)
    requires Sorted(nodes) && i <= j < |nodes| && OpLess(nodes[j].op, op)
    ensures OpLess(nodes[i].op, op)
  {
    hide Rank, Payload, IdsLess;
    assert i < j ==> NodeLess(nodes[i], nodes[j]);
  }

  /** The first position whose operator is not less than `op`. */
  method LowerBound(nodes: seq<ENode>, op: Op) returns (at: nat)
    requires Sorted(nodes)
    ensures at <= |nodes|
    ensures forall i | 0 <= i < at :: OpLess(nodes[i].op, op)
    ensures forall i | at <= i < |nodes| :: !OpLess(nodes[i].op, op)
  {
    hide OpLess, Sorted;
    var lo, hi := 0, |nodes|;
    while lo < hi
      invariant 0 <= lo <= hi <= |nodes|
      invariant forall i | 0 <= i < lo :: OpLess(nodes[i].op, op)
      invariant forall i | hi <= i < |nodes| :: !OpLess(nodes[i].op, op)
    {
      var mid := (lo + hi) / 2;
      if OpLess(nodes[mid].op, op) {
        forall i | 0 <= i <= mid
          ensures OpLess(nodes[i].op, op)
        {
          LesserBefore(nodes, i, mid, op);
        }
        lo := mid + 1;
      } else {
        forall i | mid <= i < |nodes|
          ensures !OpLess(nodes[i].op, op)
        {
          if OpLess(nodes[i].op, op) {
            LesserBefore(nodes, mid, i, op);
          }
        }
        hi := mid;
      }
    }
    at := lo;
  }

  /** The end of the run of `op` starting at `start`. */
  method RunEnd(nodes: seq<ENode>, op: Op, start: nat) returns (end: nat)
    requires Sorted(nodes) && start <= |nodes| && forall i | start <= i < |nodes| :: !OpLess(nodes[i].op, op)
    ensures start <= end <= |nodes|
    ensures forall i | start <= i < end :: nodes[i].op == op
    ensures forall i | end <= i < |nodes| :: nodes[i].op != op
  {
    hide Rank, Payload, IdsLess;
    var lo, hi := start, |nodes|;
    while lo < hi
      invariant start <= lo <= hi <= |nodes|
      invariant forall i | start <= i < lo :: nodes[i].op == op
      invariant forall i | hi <= i < |nodes| :: nodes[i].op != op
    {
      var mid := (lo + hi) / 2;
      if nodes[mid].op == op {
        forall i | start <= i < mid
          ensures nodes[i].op == op
        {
          assert NodeLess(nodes[i], nodes[mid]) && !OpLess(nodes[i].op, op);
        }
        lo := mid + 1;
      } else {
        forall i | mid < i < |nodes|
          ensures nodes[i].op != op
        {
          assert NodeLess(nodes[mid], nodes[i]);
          OpOrderIsTotal(nodes[mid].op, op);
        }
        hi := mid;
      }
    }
    end := lo;
  }

  /** The nodes of a sorted class with one operator: a contiguous run. */
  method Run(nodes: seq<ENode>, op: Op) returns (start: nat, end: nat)
    requires Sorted(nodes)
    ensures start <= end <= |nodes|
    ensures forall i | 0 <= i < |nodes| :: nodes[i].op == op <==> start <= i < end
  {
    start := LowerBound(nodes, op);
    end := RunEnd(nodes, op, start);
  }

  // ----- matching -----

  /** Match one pattern node against a class, extending `s`. `cut` says whether a
      cap or the budget cut the search short. */
  method MatchNode(e: EGraph, pat: Pattern, p: nat, class0: Id, s: Subst, out0: seq<Subst>, budget: Budget)
    returns (out: seq<Subst>, ghost cut: bool)
    requires e.unionfind.Valid() && Searchable(e.View()) && Shaped(pat) && p < |pat.nodes| && budget.Valid()
    requires class0 < |e.unionfind.root| && Canonical(e.View(), s)
    modifies budget
    ensures budget.Valid()
    ensures Outcome(out0, NodeTrace(TableOf(e.View()), pat, p, class0, s), out, old(budget.steps), budget.steps,
                    old(budget.exhausted), budget.exhausted, cut)
    ensures HasKids(pat, p) ==> out == out0 || |out| <= MAX_SUBSTS_PER_CLASS
    decreases p, 2
  {
    hide Outcome, NodeTrace, Searchable, Canonical, Shaped;
    ghost var g, t := e.View(), TableOf(e.View());
    out := out0;
    if |out| >= MAX_SUBSTS_PER_CLASS {
      NoRoomForNode(t, pat, p, class0, s, out, budget.steps, budget.exhausted);
      return out, true;
    }
    var ok := budget.Spend();
    if !ok {
      NothingToSpend(t, pat, p, class0, s, out, old(budget.exhausted));
      return out, true;
    }
    SearchableRoots(g);
    var c := e.Find(class0);
    match pat.nodes[p] {
      case Hole(v) =>
        if v in s {
          CanonicalAt(g, s, v);
          var prev := e.Find(s[v]);
          if prev == c {
            out := out + [s];
          }
        } else {
          out := out + [s[v := c]];
        }
        cut := false;
        assert out0 + [] == out0;
        HoleOutcome(t, pat, p, class0, s, out0, budget.steps);
      case Apply(op, kids) =>
        RowOf(g, class0);
        out, cut := MatchNodes(e, pat, p, class0, e.classes[c].value.nodes, s, out, budget);
        ApplyOutcome(t, pat, p, class0, s, out0, old(budget.steps), out, budget.steps, budget.exhausted, cut);
    }
  }

  predicate HasKids(pat: Pattern, p: nat)
    requires p < |pat.nodes|
  {
    pat.nodes[p].Apply? && pat.nodes[p].kids != []
  }

  lemma SearchableRoots(g: Graph)
    requires Searchable(g)
    ensures forall i | 0 <= i < |g.root| :: g.root[i] < |g.root| && g.root[g.root[i]] == g.root[i]
  {
    RootsInRange(g);
  }

  lemma CanonicalAt(g: Graph, s: Subst, v: Sym)
    requires Canonical(g, s) && v in s
    ensures s[v] < |g.root|
  {
  }

  lemma RowOf(g: Graph, c: Id)
    requires Searchable(g) && c < |g.root|
    ensures g.root[c] < |g.classes| && g.classes[g.root[c]].Some?
    ensures Row(TableOf(g), c) == g.classes[g.root[c]].value.nodes
  {
    assert Slot(g, c) && Slot(g, g.root[c]);
  }

  lemma NoRoomForNode(t: Table, pat: Pattern, p: nat, c: Id, s: Subst, out: seq<Subst>, steps: nat, spent: bool)
    requires Shaped(pat) && p < |pat.nodes| && |out| >= MAX_SUBSTS_PER_CLASS && (spent ==> steps == 0)
    ensures Outcome(out, NodeTrace(t, pat, p, c, s), out, steps, steps, spent, spent, true)
  {
    hide Thins;
    ThinsItself(out);
    ThinsMore(out, out, NodeTrace(t, pat, p, c, s).all);
  }

  lemma NothingToSpend(t: Table, pat: Pattern, p: nat, c: Id, s: Subst, out: seq<Subst>, spent: bool)
    requires Shaped(pat) && p < |pat.nodes|
    ensures Outcome(out, NodeTrace(t, pat, p, c, s), out, 0, 0, spent, true, true)
  {
    hide Thins;
    NodeHasReach(t, pat, p, c, s);
    ThinsItself(out);
    ThinsMore(out, out, NodeTrace(t, pat, p, c, s).all);
  }

  lemma HoleOutcome(t: Table, pat: Pattern, p: nat, c: Id, s: Subst, out0: seq<Subst>, steps: nat)
    requires Shaped(pat) && p < |pat.nodes| && pat.nodes[p].Hole? && |out0| < MAX_SUBSTS_PER_CLASS
    ensures var v := pat.nodes[p].v;
            var all := if v !in s then [s[v := Rep(t, c)]] else if Rep(t, s[v]) == Rep(t, c) then [s] else [];
            Outcome(out0, NodeTrace(t, pat, p, c, s), out0 + all, steps + 1, steps, false, false, false)
  {
    hide Thins;
    ThinsItself(out0 + NodeTrace(t, pat, p, c, s).all);
  }

  lemma ApplyOutcome(t: Table, pat: Pattern, p: nat, c: Id, s: Subst, out0: seq<Subst>, steps: nat, out: seq<Subst>,
                     after: nat, exhausted: bool, cut: bool)
    requires Shaped(pat) && p < |pat.nodes| && pat.nodes[p].Apply? && |out0| < MAX_SUBSTS_PER_CLASS && steps > 0
    requires Outcome(out0, RowTrace(t, pat, p, Row(t, c), s), out, steps - 1, after, false, exhausted, cut)
    ensures Outcome(out0, NodeTrace(t, pat, p, c, s), out, steps, after, false, exhausted, cut)
  {
    hide Thins;
    var entry := Trace([], 1, 1, true);
    ThinsItself(out0);
    assert out0 + [] == out0;
    assert Outcome(out0, entry, out0, steps, steps - 1, false, false, false);
    OutcomeOfBoth(out0, entry, out0, RowTrace(t, pat, p, Row(t, c), s), out, steps, steps - 1, after, false, false,
                  exhausted, false, cut);
  }

  /** Match an operator against the nodes of a class. */
  method MatchNodes(e: EGraph, pat: Pattern, p: nat, c: Id, nodes: seq<ENode>, s: Subst, out0: seq<Subst>,
                    budget: Budget)
    returns (out: seq<Subst>, ghost cut: bool)
    requires e.unionfind.Valid() && Searchable(e.View()) && Shaped(pat) && p < |pat.nodes| && pat.nodes[p].Apply?
    requires c < |e.unionfind.root| && Canonical(e.View(), s) && budget.Valid() && !budget.exhausted
    requires e.unionfind.root[c] < |e.classes| && e.classes[e.unionfind.root[c]].Some?
    requires nodes == e.classes[e.unionfind.root[c]].value.nodes
    modifies budget
    ensures budget.Valid()
    ensures Outcome(out0, RowTrace(TableOf(e.View()), pat, p, nodes, s), out, old(budget.steps), budget.steps, false,
                    budget.exhausted, cut)
    ensures HasKids(pat, p) ==> out == out0 || |out| <= MAX_SUBSTS_PER_CLASS
    decreases p, 1
  {
    hide Canonical, Searchable, Shaped, Outcome, RowTrace, OneTrace, HasRoom;
    ghost var g, t := e.View(), TableOf(e.View());
    ClassIsSearchable(g, g.root[c]);
    var start, end := Run(nodes, pat.nodes[p].op);
    out, cut := out0, false;
    RowOfOthers(t, pat, p, nodes[..start], s);
    OutcomeOfNothing(out0, budget.steps, false);
    for i := start to end
      invariant budget.Valid()
      invariant Outcome(out0, RowTrace(t, pat, p, nodes[..i], s), out, old(budget.steps), budget.steps, false,
                        budget.exhausted, cut)
      invariant HasKids(pat, p) ==> out == out0 || |out| <= MAX_SUBSTS_PER_CLASS
    {
      if budget.exhausted {
        OutcomeHas(out0, RowTrace(t, pat, p, nodes[..i], s), out, old(budget.steps), budget.steps, false, true, cut);
        RowAhead(t, pat, p, nodes, i, s, |out0|);
        OutcomeIfSkipped(out0, RowTrace(t, pat, p, nodes[..i], s), out, RowTrace(t, pat, p, nodes, s),
                         old(budget.steps), budget.steps, false);
        return out, true;
      }
      RunNode(g, pat, p, g.root[c], nodes, i);
      ghost var mid, steps, done := out, budget.steps, cut;
      ghost var short;
      out, short := MatchOne(e, pat, p, nodes[i], s, out, budget);
      cut := cut || short;
      RowNext(t, pat, p, nodes, i, s);
      OutcomeOfBoth(out0, RowTrace(t, pat, p, nodes[..i], s), mid, OneTrace(t, pat, p, nodes[i], s), out,
                    old(budget.steps), steps, budget.steps, false, false, budget.exhausted, done, short);
    }
    RowAhead(t, pat, p, nodes, end, s, |out0|);
  }

  lemma {:induction false} RowOfOthers(t: Table, pat: Pattern, p: nat, nodes: seq<ENode>, s: Subst)
    requires Shaped(pat) && p < |pat.nodes| && pat.nodes[p].Apply?
    requires forall i | 0 <= i < |nodes| :: nodes[i].op != pat.nodes[p].op
    ensures RowTrace(t, pat, p, nodes, s) == NOTHING
    decreases |nodes|
  {
    if nodes != [] {
      RowOfOthers(t, pat, p, nodes[..|nodes| - 1], s);
    }
  }

  lemma RowNext(t: Table, pat: Pattern, p: nat, nodes: seq<ENode>, i: nat, s: Subst)
    requires Shaped(pat) && p < |pat.nodes| && pat.nodes[p].Apply? && i < |nodes| && nodes[i].op == pat.nodes[p].op
    ensures RowTrace(t, pat, p, nodes[..i + 1], s)
              == Then(RowTrace(t, pat, p, nodes[..i], s), OneTrace(t, pat, p, nodes[i], s))
  {
    hide OneTrace, Then;
    assert nodes[..i + 1][..i] == nodes[..i];
  }

  predicate NodeFits(pat: Pattern, p: nat, n: ENode)
    requires p < |pat.nodes|
  {
    pat.nodes[p].Apply? && |n.children| == |pat.nodes[p].kids|
  }

  lemma ClassIsSearchable(g: Graph, c: Id)
    requires Searchable(g) && c < |g.classes| && g.classes[c].Some?
    ensures Sorted(g.classes[c].value.nodes)
  {
  }

  lemma RunNode(g: Graph, pat: Pattern, p: nat, c: Id, nodes: seq<ENode>, i: nat)
    requires Searchable(g) && Shaped(pat) && p < |pat.nodes| && pat.nodes[p].Apply?
    requires c < |g.classes| && g.classes[c].Some? && nodes == g.classes[c].value.nodes
    requires i < |nodes| && nodes[i].op == pat.nodes[p].op
    ensures Has(g, c, nodes[i]) && NodeFits(pat, p, nodes[i]) && Below(nodes[i], |g.root|)
  {
    assert KidsAreEarlier(pat.nodes, p);
    assert Has(g, c, nodes[i]);
    HasIsBelow(g, c, nodes[i]);
  }

  /** Match an operator against one node, in both orders if it commutes. */
  method MatchOne(e: EGraph, pat: Pattern, p: nat, n: ENode, s: Subst, out0: seq<Subst>, budget: Budget)
    returns (out: seq<Subst>, ghost cut: bool)
    requires e.unionfind.Valid() && Searchable(e.View()) && Shaped(pat) && p < |pat.nodes| && NodeFits(pat, p, n)
    requires Below(n, |e.unionfind.root|) && Canonical(e.View(), s) && budget.Valid()
    modifies budget
    ensures budget.Valid()
    ensures Outcome(out0, OneTrace(TableOf(e.View()), pat, p, n, s), out, old(budget.steps), budget.steps,
                    old(budget.exhausted), budget.exhausted, cut)
    ensures HasKids(pat, p) ==> out == out0 || |out| <= MAX_SUBSTS_PER_CLASS
    decreases p, 0, 2
  {
    hide Canonical, Searchable, Shaped, Outcome, ListTrace;
    ghost var t := TableOf(e.View());
    if pat.nodes[p].kids == [] {
      LeafOutcome(t, pat, p, n, s, out0, budget.steps, budget.exhausted);
      return out0 + [s], false;
    }
    out, cut := MatchChildren(e, pat, p, n.children, s, out0, budget);
    if n.op.IsCommutative() && |n.children| == 2 && n.children[0] != n.children[1] {
      ghost var mid, steps, spent, done := out, budget.steps, budget.exhausted, cut;
      ghost var short;
      var swapped := [n.children[1], n.children[0]];
      out, short := MatchChildren(e, pat, p, swapped, s, out, budget);
      cut := cut || short;
      OutcomeOfBoth(out0, ListTrace(t, pat, p, n.children, s), mid, ListTrace(t, pat, p, swapped, s), out,
                    old(budget.steps), steps, budget.steps, old(budget.exhausted), spent, budget.exhausted, done,
                    short);
    }
  }

  lemma LeafOutcome(t: Table, pat: Pattern, p: nat, n: ENode, s: Subst, out0: seq<Subst>, steps: nat, spent: bool)
    requires Shaped(pat) && p < |pat.nodes| && NodeFits(pat, p, n) && pat.nodes[p].kids == [] && (spent ==> steps == 0)
    ensures Outcome(out0, OneTrace(t, pat, p, n, s), out0 + [s], steps, steps, spent, spent, false)
  {
    hide Thins;
    ThinsItself(out0 + [s]);
  }

  // ----- children -----

  /** Match the children of an operator left to right. */
  method MatchChildren(e: EGraph, pat: Pattern, p: nat, args: seq<Id>, s: Subst, out0: seq<Subst>, budget: Budget)
    returns (out: seq<Subst>, ghost cut: bool)
    requires e.unionfind.Valid() && Searchable(e.View()) && Shaped(pat) && p < |pat.nodes| && HasKids(pat, p)
    requires |args| == |pat.nodes[p].kids| && (forall k | 0 <= k < |args| :: args[k] < |e.unionfind.root|)
    requires Canonical(e.View(), s) && budget.Valid()
    modifies budget
    ensures budget.Valid()
    ensures Outcome(out0, ListTrace(TableOf(e.View()), pat, p, args, s), out, old(budget.steps), budget.steps,
                    old(budget.exhausted), budget.exhausted, cut)
    ensures out == out0 || |out| <= MAX_SUBSTS_PER_CLASS
    decreases p, 0, 1
  {
    hide Canonical, Searchable, Shaped, Outcome, KidsTrace, FrontTrace;
    ghost var g, t := e.View(), TableOf(e.View());
    var frontier := [s];
    cut := false;
    FrontierStarts(t, pat, p, args, s, budget.steps, budget.exhausted);
    for k := 0 to |args|
      invariant budget.Valid() && frontier != []
      invariant Outcome([], KidsTrace(t, pat, p, args, k, s), frontier, old(budget.steps), budget.steps,
                        old(budget.exhausted), budget.exhausted, cut)
    {
      ghost var before, steps, spent, done := frontier, budget.steps, budget.exhausted, cut;
      FrontierIsCanonical(g, pat, p, args, k, s, frontier, old(budget.steps), budget.steps, old(budget.exhausted),
                          budget.exhausted, cut);
      ghost var short;
      frontier, short := MatchFrontier(e, pat, p, args, k, frontier, budget);
      cut := cut || short;
      OutcomeOfKid(t, pat, p, args, k, s, before, frontier, old(budget.steps), steps, budget.steps,
                   old(budget.exhausted), spent, budget.exhausted, done, short);
      if frontier == [] {
        OutcomeIfNone(t, pat, p, args, k + 1, s, out0, old(budget.steps), budget.steps, old(budget.exhausted),
                      budget.exhausted, cut);
        return out0, cut;
      }
    }
    KidsAhead(t, pat, p, args, |args|, |args|, s);
    OutcomeOfList(out0, KidsTrace(t, pat, p, args, |args|, s), frontier, old(budget.steps), budget.steps,
                  old(budget.exhausted), budget.exhausted, cut);
    out := out0 + frontier;
    if |out| > MAX_SUBSTS_PER_CLASS {
      out, cut := out[..MAX_SUBSTS_PER_CLASS], true;
    }
  }

  lemma FrontierStarts(t: Table, pat: Pattern, p: nat, args: seq<Id>, s: Subst, steps: nat, spent: bool)
    requires Shaped(pat) && p < |pat.nodes| && pat.nodes[p].Apply? && |pat.nodes[p].kids| == |args|
    requires spent ==> steps == 0
    ensures Outcome([], KidsTrace(t, pat, p, args, 0, s), [s], steps, steps, spent, spent, false)
  {
    hide Thins;
    ThinsItself([s]);
    assert [] + [s] == [s];
  }

  lemma FrontierIsCanonical(g: Graph, pat: Pattern, p: nat, args: seq<Id>, k: nat, s: Subst, frontier: seq<Subst>,
                            before: nat, after: nat, spent: bool, exhausted: bool, cut: bool)
    requires Searchable(g) && Shaped(pat) && p < |pat.nodes| && pat.nodes[p].Apply?
    requires k <= |pat.nodes[p].kids| == |args|
    requires Canonical(g, s) && forall j | 0 <= j < |args| :: args[j] < |g.root|
    requires Outcome([], KidsTrace(TableOf(g), pat, p, args, k, s), frontier, before, after, spent, exhausted, cut)
    ensures forall m | m in frontier :: Canonical(g, m)
  {
    hide Outcome, KidsTrace, Canonical, MatchesKids;
    var a := KidsTrace(TableOf(g), pat, p, args, k, s);
    OutcomeHas([], a, frontier, before, after, spent, exhausted, cut);
    forall m | m in frontier
      ensures Canonical(g, m)
    {
      ThinsHas(frontier, [] + a.all, m);
      KidsAreExact(g, pat, p, args, k, s, m);
      KidsAreCanonical(g, pat, p, args, k, s, m);
    }
  }

  /** Extend every substitution of the frontier by one child. */
  method MatchFrontier(e: EGraph, pat: Pattern, p: nat, args: seq<Id>, k: nat, frontier: seq<Subst>, budget: Budget)
    returns (next: seq<Subst>, ghost cut: bool)
    requires e.unionfind.Valid() && Searchable(e.View()) && Shaped(pat) && p < |pat.nodes| && pat.nodes[p].Apply?
    requires k < |args| == |pat.nodes[p].kids| && args[k] < |e.unionfind.root| && budget.Valid()
    requires forall m | m in frontier :: Canonical(e.View(), m)
    modifies budget
    ensures budget.Valid()
    ensures Outcome([], Kept(FrontTrace(TableOf(e.View()), pat, p, args, k, frontier)), next, old(budget.steps),
                    budget.steps, old(budget.exhausted), budget.exhausted, cut)
    ensures |next| <= MAX_SUBSTS_PER_CLASS
    decreases p, 0, 0
  {
    hide Searchable, Canonical, Shaped, Outcome, FrontTrace, NodeTrace, Kept, HasRoom;
    ghost var t := TableOf(e.View());
    KidIsEarlier(pat, p, k);
    var kid := pat.nodes[p].kids[k];
    next, cut := [], false;
    FrontNothing(t, pat, p, args, k, frontier);
    OutcomeOfNothing([], budget.steps, budget.exhausted);
    for i := 0 to |frontier|
      invariant budget.Valid() && |next| < MAX_SUBSTS_PER_CLASS
      invariant Outcome([], FrontTrace(t, pat, p, args, k, frontier[..i]), next, old(budget.steps), budget.steps,
                        old(budget.exhausted), budget.exhausted, cut)
    {
      assert frontier[i] in frontier;
      ghost var mid, steps, spent, done := next, budget.steps, budget.exhausted, cut;
      ghost var short;
      next, short := MatchNode(e, pat, kid, args[k], frontier[i], next, budget);
      cut := cut || short;
      FrontNext(t, pat, p, args, k, frontier, i);
      OutcomeOfBoth([], FrontTrace(t, pat, p, args, k, frontier[..i]), mid,
                    NodeTrace(t, pat, kid, args[k], frontier[i]), next, old(budget.steps), steps, budget.steps,
                    old(budget.exhausted), spent, budget.exhausted, done, short);
      if |next| >= MAX_SUBSTS_PER_CLASS {
        FrontAhead(t, pat, p, args, k, frontier, i + 1);
        assert i + 1 == |frontier| ==> frontier[..i + 1] == frontier;
        OutcomeIfFull(FrontTrace(t, pat, p, args, k, frontier[..i + 1]), FrontTrace(t, pat, p, args, k, frontier),
                      next, old(budget.steps), budget.steps, old(budget.exhausted), budget.exhausted, cut,
                      i + 1 < |frontier|);
        cut := cut || |next| > MAX_SUBSTS_PER_CLASS || i + 1 < |frontier|;
        return next[..MAX_SUBSTS_PER_CLASS], cut;
      }
    }
    assert frontier[..|frontier|] == frontier;
    OutcomeIfKept(FrontTrace(t, pat, p, args, k, frontier), next, old(budget.steps), budget.steps,
                  old(budget.exhausted), budget.exhausted, cut);
  }

  lemma KidIsEarlier(pat: Pattern, p: nat, k: nat)
    requires Shaped(pat) && p < |pat.nodes| && pat.nodes[p].Apply? && k < |pat.nodes[p].kids|
    ensures pat.nodes[p].kids[k] < p
  {
    assert KidsAreEarlier(pat.nodes, p);
  }

  lemma FrontNothing(t: Table, pat: Pattern, p: nat, args: seq<Id>, k: nat, frontier: seq<Subst>)
    requires Shaped(pat) && p < |pat.nodes| && pat.nodes[p].Apply? && k < |args| == |pat.nodes[p].kids|
    ensures FrontTrace(t, pat, p, args, k, frontier[..0]) == NOTHING
  {
  }

  lemma FrontNext(t: Table, pat: Pattern, p: nat, args: seq<Id>, k: nat, frontier: seq<Subst>, i: nat)
    requires Shaped(pat) && p < |pat.nodes| && pat.nodes[p].Apply? && k < |args| == |pat.nodes[p].kids|
    requires i < |frontier|
    ensures pat.nodes[p].kids[k] < p
    ensures FrontTrace(t, pat, p, args, k, frontier[..i + 1])
            == Then(FrontTrace(t, pat, p, args, k, frontier[..i]),
                    NodeTrace(t, pat, pat.nodes[p].kids[k], args[k], frontier[i]))
  {
    hide NodeTrace, Then;
    assert KidsAreEarlier(pat.nodes, p);
    assert frontier[..i + 1][..i] == frontier[..i];
  }

  // ----- searching -----

  /** Every substitution found for one class. */
  datatype SearchMatches = SearchMatches(eclass: Id, substs: seq<Subst>)

  /** The whole pattern matches the class. */
  ghost predicate MatchAt(g: Graph, pat: Pattern, c: Id, s: Subst)
    requires Shaped(pat)
  {
    Matches(g, pat, |pat.nodes| - 1, c, map[], s)
  }

  /** Every substitution listed names the class it is listed for. */
  ghost predicate AllMatch(g: Graph, pat: Pattern, found: seq<SearchMatches>)
    requires Shaped(pat)
  {
    forall m | m in found :: ClassMatches(g, pat, m)
  }

  ghost predicate ClassMatches(g: Graph, pat: Pattern, m: SearchMatches)
    requires Shaped(pat)
  {
    && m.eclass < |g.root| && g.root[m.eclass] == m.eclass
    && (forall s | s in m.substs :: MatchAt(g, pat, m.eclass, s))
  }

  /** The substitution is listed for the class. */
  ghost predicate Listed(found: seq<SearchMatches>, c: Id, s: Subst) {
    exists m :: m in found && m.eclass == c && s in m.substs
  }

  /** No match of the class is missing. */
  ghost predicate ClassFound(g: Graph, pat: Pattern, found: seq<SearchMatches>, c: Id)
    requires Shaped(pat)
  {
    forall s | MatchAt(g, pat, c, s) :: Listed(found, c, s)
  }

  /** Remove repeats. */
  method Dedup(substs: seq<Subst>) returns (once: seq<Subst>)
    ensures forall s :: s in once <==> s in substs
    ensures Distinct(once)
  {
    once := [];
    for i := 0 to |substs|
      invariant forall s :: s in once <==> s in substs[..i]
      invariant Distinct(once)
    {
      assert substs[..i + 1] == substs[..i] + [substs[i]];
      if substs[i] !in once {
        once := once + [substs[i]];
      }
    }
    assert substs[..|substs|] == substs;
  }

  /** No substitution twice. */
  predicate Distinct(substs: seq<Subst>) {
    forall i, j | 0 <= i < j < |substs| :: substs[i] != substs[j]
  }

  /** What was found for one class, out of a trace. */
  function Tally(found: Option<SearchMatches>): nat {
    if found.Some? then |found.value.substs| else 0
  }

  /** The search of one class: exactly what the trace holds unless cut short, and
      cut short exactly where the trace meets a limit. */
  predicate Spends(a: Trace, tally: nat, before: nat, after: nat, spent: bool, exhausted: bool, cut: bool) {
    && after <= before <= after + a.work && tally <= |Elements(a.all)|
    && (spent ==> exhausted) && (exhausted ==> after == 0 && (spent || a.work > before))
    && (cut <==> !HasRoom(a, 0) || a.work > before)
    && (cut && HasRoom(a, 0) ==> exhausted)
    && (!cut ==> tally == |Elements(a.all)| && before == after + a.work && exhausted == spent)
  }

  /** Every substitution under which the pattern names the class. */
  method SearchEClass(e: EGraph, pat: Pattern, c: Id, budget: Budget)
    returns (found: Option<SearchMatches>, ghost cut: bool)
    requires e.unionfind.Valid() && Searchable(e.View()) && Shaped(pat) && c < |e.unionfind.root| && budget.Valid()
    modifies budget
    ensures budget.Valid()
    ensures found.Some? ==>
              found.value.eclass == e.unionfind.root[c] && found.value.substs != [] && Distinct(found.value.substs)
    ensures found.Some? ==> forall s | s in found.value.substs :: MatchAt(e.View(), pat, c, s)
    ensures !cut ==> forall s | MatchAt(e.View(), pat, c, s) :: found.Some? && s in found.value.substs
    ensures Spends(ClassTrace(TableOf(e.View()), pat, c), Tally(found), old(budget.steps), budget.steps,
                   old(budget.exhausted), budget.exhausted, cut)
    ensures HasKids(pat, |pat.nodes| - 1) ==> Tally(found) <= MAX_SUBSTS_PER_CLASS
  {
    hide Searchable, Outcome, MatchAt, ClassTrace, Spends, Elements, Canonical;
    ghost var g := e.View();
    var out;
    NothingIsCanonical(g);
    out, cut := MatchNode(e, pat, |pat.nodes| - 1, c, map[], [], budget);
    if out == [] {
      OutcomeIsSearched(g, pat, c, out, [], old(budget.steps), budget.steps, old(budget.exhausted), budget.exhausted,
                        cut);
      return None, cut;
    }
    var once := Dedup(out);
    OutcomeIsSearched(g, pat, c, out, once, old(budget.steps), budget.steps, old(budget.exhausted), budget.exhausted,
                      cut);
    FewerOnce(out, once);
    assert out[0] in once;
    var r := e.Find(c);
    found := Some(SearchMatches(r, once));
  }

  lemma NothingIsCanonical(g: Graph)
    ensures Canonical(g, map[])
  {
  }

  lemma OutcomeIsSearched(g: Graph, pat: Pattern, c: Id, out: seq<Subst>, once: seq<Subst>, before: nat, after: nat,
                          spent: bool, exhausted: bool, cut: bool)
    requires Searchable(g) && Shaped(pat) && c < |g.root| && Distinct(once) && forall s :: s in once <==> s in out
    requires Outcome([], NodeTrace(TableOf(g), pat, |pat.nodes| - 1, c, map[]), out, before, after, spent, exhausted,
                     cut)
    ensures forall s | s in once :: MatchAt(g, pat, c, s)
    ensures !cut ==> forall s | MatchAt(g, pat, c, s) :: s in once
    ensures Spends(ClassTrace(TableOf(g), pat, c), |once|, before, after, spent, exhausted, cut)
  {
    hide NodeTrace, Thins, Matches, HasRoom;
    var a := NodeTrace(TableOf(g), pat, |pat.nodes| - 1, c, map[]);
    assert [] + a.all == a.all;
    forall s
      ensures s in a.all <==> MatchAt(g, pat, c, s)
      ensures s in once ==> s in a.all
    {
      TraceIsExact(g, pat, |pat.nodes| - 1, c, map[], s);
      if s in once {
        ThinsHas(out, a.all, s);
      }
    }
    DistinctCount(once);
    SubsetSize(Elements(once), Elements(a.all));
    assert !cut ==> Elements(once) == Elements(a.all);
  }

  lemma {:induction false} DistinctCount(once: seq<Subst>)
    requires Distinct(once)
    ensures |Elements(once)| == |once|
  {
    if once == [] {
      assert Elements(once) == {};
    } else {
      var init, last := once[..|once| - 1], once[|once| - 1];
      DistinctCount(init);
      assert Elements(once) == Elements(init) + {last};
    }
  }

  lemma SubsetSize(a: set<Subst>, b: set<Subst>)
    requires a <= b
    ensures |a| <= |b|
  {
    if a != {} {
      var x :| x in a;
      SubsetSize(a - {x}, b - {x});
    }
  }

  lemma {:induction false} ElementsFew(list: seq<Subst>)
    ensures |Elements(list)| <= |list|
  {
    if list == [] {
      assert Elements(list) == {};
    } else {
      var init, last := list[..|list| - 1], list[|list| - 1];
      ElementsFew(init);
      assert Elements(list) == Elements(init) + {last};
    }
  }

  lemma FewerOnce(out: seq<Subst>, once: seq<Subst>)
    requires Distinct(once) && forall s :: s in once <==> s in out
    ensures |once| <= |out|
  {
    DistinctCount(once);
    assert Elements(once) == Elements(out);
    ElementsFew(out);
  }

  predicate Representative(g: Graph, c: Id) {
    c < |g.root| && g.root[c] == c
  }

  /** The classes that could hold the pattern's root, ascending. */
  method Candidates(e: EGraph, pat: Pattern) returns (ids: seq<Id>)
    requires e.Valid() && Shaped(pat)
    ensures ids == Sought(TableOf(e.View()), pat, e.clean) && Rising(ids)
    ensures forall c | c in ids :: Representative(e.View(), c)
    ensures forall c: Id, s: Subst | Representative(e.View(), c) && MatchAt(e.View(), pat, c, s) :: c in ids
  {
    hide Forest, Recounted, NodeTotal, Occupied, Settled, MatchAt, Representative;
    var op := RootOp(pat);
    ghost var g, t := e.View(), TableOf(e.View());
    SoughtIsEnough(g, pat, e.clean);
    if e.clean && op.Some? {
      ids := if op.value in e.byOp then e.byOp[op.value] else [];
      IndexIsSought(g, e.byOp, pat, ids);
      return;
    }
    ids := [];
    for id := 0 to |e.classes|
      invariant ids == Targets(t, None, id)
    {
      assert Slot(g, id);
      if e.classes[id].Some? {
        ids := ids + [id];
      }
    }
  }

  lemma SoughtIsEnough(g: Graph, pat: Pattern, clean: bool)
    requires WellFormed(g) && Shaped(pat)
    ensures forall c | c in Sought(TableOf(g), pat, clean) :: Representative(g, c)
    ensures forall c: Id, s: Subst | Representative(g, c) && MatchAt(g, pat, c, s) ::
              c in Sought(TableOf(g), pat, clean)
  {
    var t := TableOf(g);
    forall c | c in Sought(t, pat, clean)
      ensures Representative(g, c)
    {
      assert Slot(g, c);
    }
    forall c: Id, s: Subst | Representative(g, c) && MatchAt(g, pat, c, s)
      ensures c in Sought(t, pat, clean)
    {
      assert Slot(g, c);
      if pat.nodes[|pat.nodes| - 1].Apply? {
        var n, m := NamesBy(g, pat, |pat.nodes| - 1, s, c);
        assert n in t.rows[c];
      }
    }
  }

  /** The operator index of a clean graph gives exactly the classes sought. */
  lemma IndexIsSought(g: Graph, byOp: map<Op, seq<Id>>, pat: Pattern, ids: seq<Id>)
    requires WellFormed(g) && OpIndexed(byOp, g.classes) && pat.nodes != [] && RootOp(pat).Some?
    requires ids == if RootOp(pat).value in byOp then byOp[RootOp(pat).value] else []
    ensures ids == Sought(TableOf(g), pat, true)
  {
    var t, op := TableOf(g), RootOp(pat);
    forall c: Id
      ensures c in ids <==> c in Sought(t, pat, true)
    {
      assert Reindexing.Listed(byOp, op.value, c) <==> HasOp(g.classes, c, op.value);
      assert HasOp(g.classes, c, op.value) <==> IsTarget(t, op, c);
    }
    RisingIsUnique(ids, Sought(t, pat, true));
  }

  lemma {:induction false} RisingIsUnique(a: seq<Id>, b: seq<Id>)
    requires Rising(a) && Rising(b) && forall c: Id :: c in a <==> c in b
    ensures a == b
    decreases |a|
  {
    if a == [] {
      FirstIsIn(b);
    } else if b == [] {
      FirstIsIn(a);
    } else {
      var x, y := a[|a| - 1], b[|b| - 1];
      assert x in a && y in b;
      var init, other := a[..|a| - 1], b[..|b| - 1];
      forall c: Id
        ensures c in init <==> c in other
      {
        assert c in a <==> c in init || c == x;
        assert c in b <==> c in other || c == y;
      }
      RisingIsUnique(init, other);
      assert a == init + [x] && b == other + [y];
    }
  }

  lemma FirstIsIn(ids: seq<Id>)
    ensures ids == [] || ids[0] in ids
  {
  }

  function CountMatches(found: seq<SearchMatches>): nat {
    if found == [] then 0 else CountMatches(found[..|found| - 1]) + |found[|found| - 1].substs|
  }

  /** The search stops early: its work exceeds the budget, or enough is found
      before the last class. */
  ghost predicate StopsEarly(t: Table, pat: Pattern, ids: seq<Id>, cap: nat)
    requires Shaped(pat)
  {
    WorkOf(t, pat, ids) > MAX_MATCH_STEPS || (ids != [] && CountBeforeLast(t, pat, ids) >= cap)
  }

  /** One entry a class, ascending, each within the limit. */
  predicate WellListed(pat: Pattern, found: seq<SearchMatches>, n: nat)
    requires pat.nodes != []
  {
    && (forall i, j | 0 <= i < j < |found| :: found[i].eclass < found[j].eclass)
    && (forall i | 0 <= i < |found| ::
          found[i].eclass < n && (HasKids(pat, |pat.nodes| - 1) ==> |found[i].substs| <= MAX_SUBSTS_PER_CLASS))
  }

  /** How a search over the first classes stands. */
  ghost predicate Underway(t: Table, pat: Pattern, ids: seq<Id>, i: nat, cap: nat, total: nat, steps: nat,
                           exhausted: bool, cut: bool)
    requires Shaped(pat) && i <= |ids|
  {
    && total <= CountOf(t, pat, ids[..i]) && MAX_MATCH_STEPS <= steps + WorkOf(t, pat, ids[..i])
    && (exhausted ==> cut && WorkOf(t, pat, ids[..i]) > MAX_MATCH_STEPS)
    && (cut ==> exhausted || !AllHaveRoom(t, pat, ids))
    && (!cut ==> AllHaveRoom(t, pat, ids[..i]) && total == CountOf(t, pat, ids[..i])
                 && MAX_MATCH_STEPS == steps + WorkOf(t, pat, ids[..i])
                 && (i > 0 ==> CountOf(t, pat, ids[..i - 1]) < cap))
  }

  lemma UnderwayNext(t: Table, pat: Pattern, ids: seq<Id>, i: nat, cap: nat, total: nat, steps: nat, cut: bool,
                     tally: nat, after: nat, exhausted: bool, short: bool)
    requires Shaped(pat) && i < |ids| && Underway(t, pat, ids, i, cap, total, steps, false, cut) && total < cap
    requires Spends(ClassTrace(t, pat, ids[i]), tally, steps, after, false, exhausted, short)
    ensures Underway(t, pat, ids, i + 1, cap, total + tally, after, exhausted, cut || short)
  {
    hide ClassTrace, WorkOf, CountOf, HasRoom, Elements;
    NextTotals(t, pat, ids, i);
    assert ids[..i + 1][..i] == ids[..i];
    if AllHaveRoom(t, pat, ids) {
      assert HasRoom(ClassTrace(t, pat, ids[i]), 0);
    }
    if !short && AllHaveRoom(t, pat, ids[..i]) {
      var longer := ids[..i + 1];
      forall j | 0 <= j < |longer|
        ensures HasRoom(ClassTrace(t, pat, longer[j]), 0)
      {
        if j < i {
          assert longer[j] == ids[..i][j];
        }
      }
    }
  }

  lemma UnderwayStops(t: Table, pat: Pattern, ids: seq<Id>, i: nat, cap: nat, total: nat, steps: nat,
                      exhausted: bool, cut: bool)
    requires Shaped(pat) && i < |ids| && Underway(t, pat, ids, i, cap, total, steps, exhausted, cut)
    requires total >= cap || exhausted
    ensures StopsEarly(t, pat, ids, cap)
  {
    hide ClassTrace, WorkOf, CountOf, CountBeforeLast, AllHaveRoom;
    TotalsGrow(t, pat, ids, i);
  }

  lemma UnderwayEnds(t: Table, pat: Pattern, ids: seq<Id>, cap: nat, total: nat, steps: nat, exhausted: bool, cut: bool)
    requires Shaped(pat) && Underway(t, pat, ids, |ids|, cap, total, steps, exhausted, cut)
    ensures exhausted ==> StopsEarly(t, pat, ids, cap)
    ensures cut <==> exhausted || !AllHaveRoom(t, pat, ids)
    ensures AllHaveRoom(t, pat, ids) && StopsEarly(t, pat, ids, cap) ==> exhausted
  {
    hide ClassTrace, WorkOf, CountOf, AllHaveRoom;
    assert ids[..|ids|] == ids;
  }

  lemma UnderwayStarts(t: Table, pat: Pattern, ids: seq<Id>, cap: nat)
    requires Shaped(pat)
    ensures Underway(t, pat, ids, 0, cap, 0, MAX_MATCH_STEPS, false, false)
  {
  }

  /** Search every class, stopping once `cap` substitutions have been found.
      `capped` says that the search stopped early, `cut` that something was left
      undone: also where one class alone, or one list kept on the way, grew past
      its limit. */
  method SearchCapped(e: EGraph, pat: Pattern, cap: nat)
    returns (found: seq<SearchMatches>, capped: bool, ghost cut: bool)
    requires e.Valid() && Searchable(e.View()) && Shaped(pat)
    ensures AllMatch(e.View(), pat, found) && WellListed(pat, found, |e.unionfind.root|)
    ensures !capped ==> forall c: Id | Representative(e.View(), c) && RoomFor(TableOf(e.View()), pat, c) ::
                          ClassFound(e.View(), pat, found, c)
    ensures !cut ==> forall c: Id | Representative(e.View(), c) :: ClassFound(e.View(), pat, found, c)
    ensures var t, ids := TableOf(e.View()), Sought(TableOf(e.View()), pat, e.clean);
            && (cut <==> capped || !AllHaveRoom(t, pat, ids))
            && CountMatches(found) <= CountOf(t, pat, ids)
            && (!cut ==> CountMatches(found) == CountOf(t, pat, ids))
    ensures var t, ids := TableOf(e.View()), Sought(TableOf(e.View()), pat, e.clean);
            && (AllHaveRoom(t, pat, ids) ==> (capped <==> cut) && (capped <==> StopsEarly(t, pat, ids, cap)))
            && (!StopsEarly(t, pat, ids, cap) ==> !capped && ((capped <==> cut) <==> AllHaveRoom(t, pat, ids)))
  {
    hide Forest, Recounted, NodeTotal, Occupied, Settled, Searchable, Matches, Bookkept, Rebuilt, Underway, Spends,
         StopsEarly, AllHaveRoom, WorkOf, CountOf, ClassTrace, Sought, MatchAt, ClassFound, AllMatch, WellListed,
         HasRoom;
    ghost var g, t := e.View(), TableOf(e.View());
    found, cut := [], false;
    var total := 0;
    var budget := new Budget(MAX_MATCH_STEPS);
    var ids := Candidates(e, pat);
    assert e.View() == g;
    UnderwayStarts(t, pat, ids, cap);
    NothingFound(g, pat);
    for i := 0 to |ids|
      invariant budget.Valid() && AllMatch(g, pat, found)
      invariant WellListed(pat, found, if i < |ids| then ids[i] else |g.root|)
      invariant total == CountMatches(found)
      invariant Underway(t, pat, ids, i, cap, total, budget.steps, budget.exhausted, cut)
      invariant !budget.exhausted ==>
                  forall j | 0 <= j < i && RoomFor(t, pat, ids[j]) :: ClassFound(g, pat, found, ids[j])
    {
      TotalIsLess(t, pat, ids, i, cap, total, budget.steps, budget.exhausted, cut);
      if total >= cap || budget.exhausted {
        UnderwayStops(t, pat, ids, i, cap, total, budget.steps, budget.exhausted, cut);
        assert ids[i] in ids;
        ListedBelow(pat, found, ids[i], |g.root|);
        return found, true, true;
      }
      assert ids[i] in ids;
      ghost var before, sofar, steps, done := found, total, budget.steps, cut;
      ghost var short;
      var m;
      m, short := SearchEClass(e, pat, ids[i], budget);
      assert e.View() == g;
      if m.Some? {
        total := total + |m.value.substs|;
        found := found + [m.value];
      }
      cut := cut || short;
      UnderwayNext(t, pat, ids, i, cap, sofar, steps, done, Tally(m), budget.steps, budget.exhausted, short);
      FoundOneMore(g, pat, before, found, ids, i, m);
      if !budget.exhausted {
        ShortIsExhausted(t, pat, ids[i], Tally(m), steps, budget.steps, budget.exhausted, short);
        StillFound(g, pat, before, found, ids, i, m);
      }
    }
    capped := budget.exhausted;
    UnderwayEnds(t, pat, ids, cap, total, budget.steps, budget.exhausted, cut);
    TotalIsLess(t, pat, ids, |ids|, cap, total, budget.steps, budget.exhausted, cut);
    if !capped {
      forall c: Id | Representative(g, c) && (!cut || RoomFor(t, pat, c))
        ensures ClassFound(g, pat, found, c)
      {
        AllSoughtFound(g, pat, found, ids, c, cut);
      }
    }
  }

  /** Every list of the search of the class has room. */
  ghost predicate RoomFor(t: Table, pat: Pattern, c: Id)
    requires Shaped(pat)
  {
    HasRoom(ClassTrace(t, pat, c), 0)
  }

  lemma ShortIsExhausted(t: Table, pat: Pattern, c: Id, tally: nat, before: nat, after: nat, exhausted: bool,
                         short: bool)
    requires Shaped(pat) && Spends(ClassTrace(t, pat, c), tally, before, after, false, exhausted, short)
    ensures short && RoomFor(t, pat, c) ==> exhausted
  {
    hide ClassTrace;
  }

  lemma NothingFound(g: Graph, pat: Pattern)
    requires Shaped(pat)
    ensures AllMatch(g, pat, []) && forall n: nat :: WellListed(pat, [], n)
  {
  }

  lemma TotalIsLess(t: Table, pat: Pattern, ids: seq<Id>, i: nat, cap: nat, total: nat, steps: nat, exhausted: bool,
                    cut: bool)
    requires Shaped(pat) && i <= |ids| && Underway(t, pat, ids, i, cap, total, steps, exhausted, cut)
    ensures total <= CountOf(t, pat, ids) && (exhausted ==> cut)
    ensures i == |ids| && !cut ==> total == CountOf(t, pat, ids)
  {
    hide ClassTrace, WorkOf, CountOf, AllHaveRoom;
    TotalsGrow(t, pat, ids, i);
    assert ids[..|ids|] == ids;
  }

  lemma ListedBelow(pat: Pattern, found: seq<SearchMatches>, n: nat, m: nat)
    requires pat.nodes != [] && WellListed(pat, found, n) && n <= m
    ensures WellListed(pat, found, m)
  {
  }

  lemma AllSoughtFound(g: Graph, pat: Pattern, found: seq<SearchMatches>, ids: seq<Id>, c: Id, cut: bool)
    requires Shaped(pat) && Representative(g, c)
    requires forall j | 0 <= j < |ids| && RoomFor(TableOf(g), pat, ids[j]) :: ClassFound(g, pat, found, ids[j])
    requires forall s: Subst | MatchAt(g, pat, c, s) :: c in ids
    requires !cut ==> AllHaveRoom(TableOf(g), pat, ids)
    requires !cut || RoomFor(TableOf(g), pat, c)
    ensures ClassFound(g, pat, found, c)
  {
    hide Matches, ClassTrace, HasRoom, TableOf;
    if c in ids {
      var j :| 0 <= j < |ids| && ids[j] == c;
      assert RoomFor(TableOf(g), pat, ids[j]);
    }
  }

  lemma FoundOneMore(g: Graph, pat: Pattern, before: seq<SearchMatches>, found: seq<SearchMatches>, ids: seq<Id>,
                     i: nat, m: Option<SearchMatches>)
    requires Shaped(pat) && i < |ids| && AllMatch(g, pat, before) && WellListed(pat, before, ids[i])
    requires Representative(g, ids[i])
    requires found == if m.Some? then before + [m.value] else before
    requires m.Some? ==> m.value.eclass == ids[i] && forall s | s in m.value.substs :: MatchAt(g, pat, ids[i], s)
    requires HasKids(pat, |pat.nodes| - 1) ==> Tally(m) <= MAX_SUBSTS_PER_CLASS
    requires forall j | i < j < |ids| :: ids[i] < ids[j]
    ensures AllMatch(g, pat, found) && WellListed(pat, found, if i + 1 < |ids| then ids[i + 1] else |g.root|)
    ensures CountMatches(found) == CountMatches(before) + Tally(m)
  {
    hide Matches;
    if m.Some? {
      assert found[..|found| - 1] == before;
    }
  }

  lemma StillFound(g: Graph, pat: Pattern, before: seq<SearchMatches>, found: seq<SearchMatches>, ids: seq<Id>, i: nat,
                   m: Option<SearchMatches>)
    requires Shaped(pat) && i < |ids| && ids[i] < |g.root| && g.root[ids[i]] == ids[i]
    requires found == if m.Some? then before + [m.value] else before
    requires forall j | 0 <= j < i && RoomFor(TableOf(g), pat, ids[j]) :: ClassFound(g, pat, before, ids[j])
    requires m.Some? ==> m.value.eclass == ids[i]
    requires RoomFor(TableOf(g), pat, ids[i]) ==>
               forall s | MatchAt(g, pat, ids[i], s) :: m.Some? && s in m.value.substs
    ensures forall j | 0 <= j < i + 1 && RoomFor(TableOf(g), pat, ids[j]) :: ClassFound(g, pat, found, ids[j])
  {
    hide Matches, RoomFor;
    forall j | 0 <= j < i + 1 && RoomFor(TableOf(g), pat, ids[j])
      ensures ClassFound(g, pat, found, ids[j])
    {
      forall s | MatchAt(g, pat, ids[j], s)
        ensures Listed(found, ids[j], s)
      {
        if j < i {
          assert ClassFound(g, pat, before, ids[j]) && Listed(before, ids[j], s);
          var prior :| prior in before && prior.eclass == ids[j] && s in prior.substs;
          assert prior in found;
        } else {
          assert MatchAt(g, pat, ids[i], s) && m.Some?;
          assert m.value in found;
        }
      }
    }
  }
}
