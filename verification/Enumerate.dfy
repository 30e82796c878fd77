/** E-matching without limits: what the matcher would list, in order, what work
    it would do, and how much room its lists would need. */
module Enumerations {
  import opened Options
  import opened Lang
  import opened Graphs
  import opened Terms
  import opened Patterns

  /** Substitutions one class may produce. */
  const MAX_SUBSTS_PER_CLASS := 512

  /** What the matcher reads of a graph: representatives, and the nodes of each
      class. */
  datatype Table = Table(root: seq<Id>, rows: seq<seq<ENode>>)

  function TableOf(g: Graph): Table {
    Table(g.root, seq(|g.classes|, c requires 0 <= c < |g.classes| =>
      if g.classes[c].Some? then g.classes[c].value.nodes else []))
  }

  function Rep(t: Table, c: Id): Id {
    if c < |t.root| then t.root[c] else c
  }

  function Row(t: Table, c: Id): seq<ENode> {
    if Rep(t, c) < |t.rows| then t.rows[Rep(t, c)] else []
  }

  // ----- traces -----

  /** What a part of the matcher lists, the budget it spends, how long the list
      it appends to may not become shorter than, and whether the lists it keeps
      to itself stay within the limit. */
  datatype Trace = Trace(all: seq<Subst>, work: nat, reach: nat, inner: bool)

  const NOTHING := Trace([], 0, 0, true)

  /** One part after another, appending to one list. */
  function Then(a: Trace, b: Trace): Trace {
    var shifted := if b.reach == 0 then 0 else |a.all| + b.reach;
    Trace(a.all + b.all, a.work + b.work, if a.reach < shifted then shifted else a.reach, a.inner && b.inner)
  }

  /** No limit on a list is met when the list appended to holds `n` already. */
  predicate HasRoom(a: Trace, n: nat) {
    a.inner && (a.reach == 0 || n + a.reach <= MAX_SUBSTS_PER_CLASS)
  }

  /** Everything one part of the pattern matches in a class, extending `s`. */
  ghost function NodeTrace(t: Table, pat: Pattern, p: nat, c: Id, s: Subst): Trace
    requires Shaped(pat) && p < |pat.nodes|
    decreases p, 3, 0, 0
  {
    match pat.nodes[p]
    case Hole(v) =>
      Trace(if v !in s then [s[v := Rep(t, c)]] else if Rep(t, s[v]) == Rep(t, c) then [s] else [], 1, 1, true)
    case Apply(_, _) => Then(Trace([], 1, 1, true), RowTrace(t, pat, p, Row(t, c), s))
  }

  /** The nodes with the operator, one after another. */
  ghost function RowTrace(t: Table, pat: Pattern, p: nat, nodes: seq<ENode>, s: Subst): Trace
    requires Shaped(pat) && p < |pat.nodes| && pat.nodes[p].Apply?
    decreases p, 2, |nodes|, 0
  {
    if nodes == [] then NOTHING
    else
      var last := nodes[|nodes| - 1];
      var before := RowTrace(t, pat, p, nodes[..|nodes| - 1], s);
      if last.op == pat.nodes[p].op then Then(before, OneTrace(t, pat, p, last, s)) else before
  }

  /** One node, in both orders if it commutes and they differ. */
  ghost function OneTrace(t: Table, pat: Pattern, p: nat, n: ENode, s: Subst): Trace
    requires Shaped(pat) && p < |pat.nodes| && pat.nodes[p].Apply?
    decreases p, 1, 0, 0
  {
    if |n.children| != |pat.nodes[p].kids| then NOTHING
    else if pat.nodes[p].kids == [] then Trace([s], 0, 0, true)
    else if n.op.IsCommutative() && |n.children| == 2 && n.children[0] != n.children[1]
    then Then(ListTrace(t, pat, p, n.children, s), ListTrace(t, pat, p, [n.children[1], n.children[0]], s))
    else ListTrace(t, pat, p, n.children, s)
  }

  /** All children, the result appended as a whole. */
  ghost function ListTrace(t: Table, pat: Pattern, p: nat, args: seq<Id>, s: Subst): Trace
    requires Shaped(pat) && p < |pat.nodes| && pat.nodes[p].Apply? && |args| == |pat.nodes[p].kids|
    decreases p, 0, |args| + 1, 0
  {
    var kids := KidsTrace(t, pat, p, args, |args|, s);
    kids.(reach := |kids.all|)
  }

  /** The first `k` children, left to right: each list is kept until the next
      child has been matched. */
  ghost function KidsTrace(t: Table, pat: Pattern, p: nat, args: seq<Id>, k: nat, s: Subst): Trace
    requires Shaped(pat) && p < |pat.nodes| && pat.nodes[p].Apply? && k <= |args| == |pat.nodes[p].kids|
    decreases p, 0, k, 0
  {
    if k == 0 then Trace([s], 0, 0, true)
    else
      var before := KidsTrace(t, pat, p, args, k - 1, s);
      Next(before, FrontTrace(t, pat, p, args, k - 1, before.all))
  }

  /** A list of its own, kept within the limit. */
  function Kept(front: Trace): Trace {
    Trace(front.all, front.work, 0, HasRoom(front, 0) && |front.all| <= MAX_SUBSTS_PER_CLASS)
  }

  /** A list that replaces the one before it. */
  function Next(before: Trace, front: Trace): Trace {
    Trace(front.all, before.work + front.work, 0, before.inner && Kept(front).inner)
  }

  /** One child, from every substitution of a frontier. */
  ghost function FrontTrace(t: Table, pat: Pattern, p: nat, args: seq<Id>, k: nat, frontier: seq<Subst>): Trace
    requires Shaped(pat) && p < |pat.nodes| && pat.nodes[p].Apply? && k < |args| == |pat.nodes[p].kids|
    decreases p, 0, k, |frontier| + 1
  {
    if frontier == [] then NOTHING
    else
      assert KidsAreEarlier(pat.nodes, p);
      Then(FrontTrace(t, pat, p, args, k, frontier[..|frontier| - 1]),
           NodeTrace(t, pat, pat.nodes[p].kids[k], args[k], frontier[|frontier| - 1]))
  }

  /** A whole search of one class. */
  ghost function ClassTrace(t: Table, pat: Pattern, c: Id): Trace
    requires Shaped(pat)
  {
    NodeTrace(t, pat, |pat.nodes| - 1, c, map[])
  }

  // ----- lists with some elements left out -----

  /** `a` is `b` with some elements left out. */
  predicate Thins<T(==)>(a: seq<T>, b: seq<T>) {
    if a == [] then true
    else if b == [] then false
    else
      || Thins(a, b[..|b| - 1])
      || (a[|a| - 1] == b[|b| - 1] && Thins(a[..|a| - 1], b[..|b| - 1]))
  }

  lemma {:induction false} ThinsItself<T>(a: seq<T>)
    ensures Thins(a, a)
  {
    if a != [] {
      ThinsItself(a[..|a| - 1]);
    }
  }

  lemma {:induction false} ThinsShorter<T>(a: seq<T>, b: seq<T>)
    requires Thins(a, b) && a != []
    ensures Thins(a[..|a| - 1], b)
    decreases |b|
  {
    if Thins(a, b[..|b| - 1]) {
      ThinsShorter(a, b[..|b| - 1]);
    } else if |a| > 1 {
      ThinsShorter(a[..|a| - 1], b[..|b| - 1]);
      ThinsLonger(a[..|a| - 1], b[..|b| - 1], b[|b| - 1]);
      assert b[..|b| - 1] + [b[|b| - 1]] == b;
    }
  }

  lemma ThinsLonger<T>(a: seq<T>, b: seq<T>, x: T)
    requires Thins(a, b)
    ensures Thins(a, b + [x])
  {
    assert (b + [x])[..|b|] == b;
  }

  lemma {:induction false} ThinsTransitive<T>(a: seq<T>, b: seq<T>, c: seq<T>)
    requires Thins(a, b) && Thins(b, c)
    ensures Thins(a, c)
    decreases |b| + |c|
  {
    if a != [] {
      var shorter := c[..|c| - 1];
      if Thins(b, shorter) {
        ThinsTransitive(a, b, shorter);
      } else if Thins(a, b[..|b| - 1]) {
        ThinsTransitive(a, b[..|b| - 1], shorter);
      } else {
        ThinsTransitive(a[..|a| - 1], b[..|b| - 1], shorter);
      }
    }
  }

  lemma {:induction false} ThinsConcat<T>(a: seq<T>, b: seq<T>, c: seq<T>, d: seq<T>)
    requires Thins(a, b) && Thins(c, d)
    ensures Thins(a + c, b + d)
    decreases |d|
  {
    if d == [] {
      assert a + c == a && b + d == b;
    } else {
      var shorter := d[..|d| - 1];
      assert (b + d)[..|b + d| - 1] == b + shorter;
      if Thins(c, shorter) {
        ThinsConcat(a, b, c, shorter);
      } else {
        ThinsConcat(a, b, c[..|c| - 1], shorter);
        assert (a + c)[..|a + c| - 1] == a + c[..|c| - 1];
      }
    }
  }

  lemma {:induction false} ThinsPrefix<T>(a: seq<T>, b: seq<T>, n: nat)
    requires Thins(a, b) && n <= |a|
    ensures Thins(a[..n], b)
    decreases |a|
  {
    if n < |a| {
      ThinsShorter(a, b);
      ThinsPrefix(a[..|a| - 1], b, n);
      assert a[..|a| - 1][..n] == a[..n];
    } else {
      assert a[..n] == a;
    }
  }

  lemma {:induction false} ThinsHas<T>(a: seq<T>, b: seq<T>, x: T)
    requires Thins(a, b) && x in a
    ensures x in b
    decreases |b|
  {
    if Thins(a, b[..|b| - 1]) {
      ThinsHas(a, b[..|b| - 1], x);
    } else if x != a[|a| - 1] {
      ThinsHas(a[..|a| - 1], b[..|b| - 1], x);
    }
  }

  lemma ThinsMore<T>(a: seq<T>, b: seq<T>, c: seq<T>)
    requires Thins(a, b)
    ensures Thins(a, b + c)
  {
    ThinsConcat(a, b, [], c);
    assert a + [] == a;
  }

  // ----- what a limited matcher makes of a trace -----

  /** A part run with `before` steps of budget left, from the list `out0`: it
      lists nothing else and does no more work than without limits. It is cut
      short exactly if a list has no room or the budget does not last; if not,
      it lists everything. */
  predicate Outcome(out0: seq<Subst>, a: Trace, out: seq<Subst>, before: nat, after: nat, spent: bool, exhausted: bool,
                    cut: bool) {
    && Thins(out, out0 + a.all) && after <= before <= after + a.work
    && (spent ==> exhausted) && (exhausted ==> after == 0 && (spent || a.work > before))
    && (!cut ==> out == out0 + a.all && HasRoom(a, |out0|) && before == after + a.work && exhausted == spent)
    && (cut ==> (!HasRoom(a, |out0|) || a.work > before) && (!HasRoom(a, |out0|) || exhausted))
  }

  lemma RoomForBoth(a: Trace, b: Trace, n: nat)
    ensures HasRoom(Then(a, b), n) <==> HasRoom(a, n) && HasRoom(b, n + |a.all|)
  {
  }

  lemma OutcomeOfNothing(out: seq<Subst>, before: nat, spent: bool)
    requires spent ==> before == 0
    ensures Outcome(out, NOTHING, out, before, before, spent, spent, false)
  {
    ThinsItself(out);
    assert out + [] == out;
  }

  /** One part after another. */
  lemma OutcomeOfBoth(out0: seq<Subst>, a: Trace, mid: seq<Subst>, b: Trace, out: seq<Subst>, before: nat, between: nat,
                      after: nat, spent: bool, exhausted: bool, finally: bool, cut: bool, short: bool)
    requires Outcome(out0, a, mid, before, between, spent, exhausted, cut)
    requires Outcome(mid, b, out, between, after, exhausted, finally, short)
    ensures Outcome(out0, Then(a, b), out, before, after, spent, finally, cut || short)
  {
    hide HasRoom, Thins, Then;
    RoomForBoth(a, b, |out0|);
    ThenAll(a, b);
    ThinsItself(b.all);
    ThinsConcat(mid, out0 + a.all, b.all, b.all);
    ThinsTransitive(out, mid + b.all, out0 + a.all + b.all);
    assert out0 + a.all + b.all == out0 + (a.all + b.all);
  }

  lemma ThenAll(a: Trace, b: Trace)
    ensures Then(a, b).all == a.all + b.all && Then(a, b).work == a.work + b.work
  {
  }

  /** What is left once the budget is spent changes nothing. */
  lemma OutcomeIfSkipped(out0: seq<Subst>, a: Trace, out: seq<Subst>, b: Trace, before: nat, after: nat, spent: bool)
    requires Outcome(out0, a, out, before, after, spent, true, true)
    requires a.all <= b.all && a.work <= b.work && (HasRoom(b, |out0|) ==> HasRoom(a, |out0|))
    ensures Outcome(out0, b, out, before, after, spent, true, true)
  {
    hide HasRoom, Thins;
    ThinsMore(out, out0 + a.all, b.all[|a.all|..]);
    assert out0 + a.all + b.all[|a.all|..] == out0 + b.all;
  }

  /** A row half done: what is to come only adds to it. */
  lemma {:induction false} RowAhead(t: Table, pat: Pattern, p: nat, nodes: seq<ENode>, n: nat, s: Subst, m: nat)
    requires Shaped(pat) && p < |pat.nodes| && pat.nodes[p].Apply? && n <= |nodes|
    ensures var a, b := RowTrace(t, pat, p, nodes[..n], s), RowTrace(t, pat, p, nodes, s);
            && a.all <= b.all && a.work <= b.work && (HasRoom(b, m) ==> HasRoom(a, m))
            && ((forall i | n <= i < |nodes| :: nodes[i].op != pat.nodes[p].op) ==> a == b)
    decreases |nodes|
  {
    hide OneTrace;
    if n == |nodes| {
      assert nodes[..n] == nodes;
    } else {
      var shorter := nodes[..|nodes| - 1];
      RowAhead(t, pat, p, shorter, n, s, m);
      assert shorter[..n] == nodes[..n];
    }
  }

  // ----- frontiers with some elements left out -----

  /** From fewer substitutions, less is listed, with less work. */
  lemma {:induction false} FrontThins(t: Table, pat: Pattern, p: nat, args: seq<Id>, k: nat, fewer: seq<Subst>,
                                      frontier: seq<Subst>)
    requires Shaped(pat) && p < |pat.nodes| && pat.nodes[p].Apply? && k < |args| == |pat.nodes[p].kids|
    requires Thins(fewer, frontier)
    ensures Thins(FrontTrace(t, pat, p, args, k, fewer).all, FrontTrace(t, pat, p, args, k, frontier).all)
    ensures FrontTrace(t, pat, p, args, k, fewer).work <= FrontTrace(t, pat, p, args, k, frontier).work
    decreases |frontier|
  {
    hide NodeTrace, HasRoom;
    if fewer != [] {
      assert KidsAreEarlier(pat.nodes, p);
      var shorter := frontier[..|frontier| - 1];
      var last := NodeTrace(t, pat, pat.nodes[p].kids[k], args[k], frontier[|frontier| - 1]);
      if Thins(fewer, shorter) {
        FrontThins(t, pat, p, args, k, fewer, shorter);
        ThinsMore(FrontTrace(t, pat, p, args, k, fewer).all, FrontTrace(t, pat, p, args, k, shorter).all, last.all);
      } else {
        FrontThins(t, pat, p, args, k, fewer[..|fewer| - 1], shorter);
        ThinsItself(last.all);
        ThinsConcat(FrontTrace(t, pat, p, args, k, fewer[..|fewer| - 1]).all,
                    FrontTrace(t, pat, p, args, k, shorter).all, last.all, last.all);
      }
    }
  }

  lemma OutcomeOfNext(a: Trace, frontier: seq<Subst>, fewer: Trace, front: Trace, next: seq<Subst>, before: nat,
                      between: nat, after: nat, spent: bool, exhausted: bool, finally: bool, cut: bool, short: bool)
    requires a.reach == 0 && Outcome([], a, frontier, before, between, spent, exhausted, cut)
    requires Outcome([], Kept(fewer), next, between, after, exhausted, finally, short)
    requires Thins(fewer.all, front.all) && fewer.work <= front.work && (frontier == a.all ==> fewer == front)
    ensures Outcome([], Next(a, front), next, before, after, spent, finally, cut || short)
  {
    hide Thins;
    assert [] + fewer.all == fewer.all && [] + front.all == front.all && [] + a.all == a.all;
    ThinsTransitive(next, fewer.all, front.all);
  }

  /** A child matched from what the children before it left. */
  lemma OutcomeOfKid(t: Table, pat: Pattern, p: nat, args: seq<Id>, k: nat, s: Subst, frontier: seq<Subst>,
                     next: seq<Subst>, before: nat, between: nat, after: nat, spent: bool, exhausted: bool,
                     finally: bool, cut: bool, short: bool)
    requires Shaped(pat) && p < |pat.nodes| && pat.nodes[p].Apply? && k < |args| == |pat.nodes[p].kids|
    requires Outcome([], KidsTrace(t, pat, p, args, k, s), frontier, before, between, spent, exhausted, cut)
    requires Outcome([], Kept(FrontTrace(t, pat, p, args, k, frontier)), next, between, after, exhausted, finally,
                     short)
    ensures Outcome([], KidsTrace(t, pat, p, args, k + 1, s), next, before, after, spent, finally, cut || short)
  {
    hide Outcome, FrontTrace, Thins;
    var a := KidsTrace(t, pat, p, args, k, s);
    OutcomeHas([], a, frontier, before, between, spent, exhausted, cut);
    assert [] + a.all == a.all;
    FrontThins(t, pat, p, args, k, frontier, a.all);
    OutcomeOfNext(a, frontier, FrontTrace(t, pat, p, args, k, frontier), FrontTrace(t, pat, p, args, k, a.all), next,
                  before, between, after, spent, exhausted, finally, cut, short);
  }

  lemma OutcomeHas(out0: seq<Subst>, a: Trace, out: seq<Subst>, before: nat, after: nat, spent: bool,
                   exhausted: bool, cut: bool)
    requires Outcome(out0, a, out, before, after, spent, exhausted, cut)
    ensures Thins(out, out0 + a.all) && (exhausted ==> cut || spent)
  {
  }

  /** A frontier half done: what is to come only adds to it, and needs room. */
  lemma {:induction false} FrontAhead(t: Table, pat: Pattern, p: nat, args: seq<Id>, k: nat, frontier: seq<Subst>,
                                      n: nat)
    requires Shaped(pat) && p < |pat.nodes| && pat.nodes[p].Apply? && k < |args| == |pat.nodes[p].kids|
    requires n <= |frontier|
    ensures var a, b := FrontTrace(t, pat, p, args, k, frontier[..n]), FrontTrace(t, pat, p, args, k, frontier);
            && a.all <= b.all && a.work <= b.work && (HasRoom(b, 0) ==> HasRoom(a, 0))
            && (n < |frontier| && HasRoom(b, 0) ==> |a.all| < MAX_SUBSTS_PER_CLASS)
    decreases |frontier|
  {
    if n == |frontier| {
      assert frontier[..n] == frontier;
    } else {
      var shorter := frontier[..|frontier| - 1];
      FrontAhead(t, pat, p, args, k, shorter, n);
      assert shorter[..n] == frontier[..n] && KidsAreEarlier(pat.nodes, p);
      NodeHasReach(t, pat, pat.nodes[p].kids[k], args[k], frontier[|frontier| - 1]);
    }
  }

  lemma NodeHasReach(t: Table, pat: Pattern, p: nat, c: Id, s: Subst)
    requires Shaped(pat) && p < |pat.nodes|
    ensures NodeTrace(t, pat, p, c, s).reach > 0 && NodeTrace(t, pat, p, c, s).work > 0
  {
  }

  /** A list that reaches the limit is cut there, unless it ends there. */
  lemma OutcomeIfFull(a: Trace, b: Trace, next: seq<Subst>, before: nat, after: nat, spent: bool, exhausted: bool,
                      cut: bool, more: bool)
    requires Outcome([], a, next, before, after, spent, exhausted, cut) && |next| >= MAX_SUBSTS_PER_CLASS
    requires a.all <= b.all && a.work <= b.work && (HasRoom(b, 0) ==> HasRoom(a, 0))
    requires if more then HasRoom(b, 0) ==> |a.all| < MAX_SUBSTS_PER_CLASS else a == b
    ensures Outcome([], Kept(b), next[..MAX_SUBSTS_PER_CLASS], before, after, spent, exhausted,
                    cut || |next| > MAX_SUBSTS_PER_CLASS || more)
  {
    hide Thins, HasRoom, Kept;
    KeptRoom(b);
    assert [] + a.all == a.all && [] + b.all == b.all && a.all + b.all[|a.all|..] == b.all;
    ThinsMore(next, a.all, b.all[|a.all|..]);
    ThinsPrefix(next, b.all, MAX_SUBSTS_PER_CLASS);
    if !cut && !more && |next| == MAX_SUBSTS_PER_CLASS {
      assert next[..MAX_SUBSTS_PER_CLASS] == next;
    }
  }

  lemma KeptRoom(b: Trace)
    ensures Kept(b).all == b.all && Kept(b).work == b.work
    ensures HasRoom(Kept(b), 0) <==> HasRoom(b, 0) && |b.all| <= MAX_SUBSTS_PER_CLASS
  {
  }

  lemma OutcomeIfKept(a: Trace, next: seq<Subst>, before: nat, after: nat, spent: bool, exhausted: bool, cut: bool)
    requires Outcome([], a, next, before, after, spent, exhausted, cut) && |next| < MAX_SUBSTS_PER_CLASS
    ensures Outcome([], Kept(a), next, before, after, spent, exhausted, cut)
  {
    hide Thins;
  }

  /** The last list appended, up to the limit. */
  lemma OutcomeOfList(out0: seq<Subst>, a: Trace, frontier: seq<Subst>, before: nat, after: nat, spent: bool,
                      exhausted: bool, cut: bool)
    requires a.reach == 0 && Outcome([], a, frontier, before, after, spent, exhausted, cut) && frontier != []
    ensures var out := out0 + frontier;
            Outcome(out0, a.(reach := |a.all|),
                    if |out| > MAX_SUBSTS_PER_CLASS then out[..MAX_SUBSTS_PER_CLASS] else out,
                    before, after, spent, exhausted, cut || |out| > MAX_SUBSTS_PER_CLASS)
  {
    hide Thins;
    assert [] + a.all == a.all;
    ThinsItself(out0);
    ThinsConcat(out0, out0, frontier, a.all);
    if |out0 + frontier| > MAX_SUBSTS_PER_CLASS {
      ThinsPrefix(out0 + frontier, out0 + a.all, MAX_SUBSTS_PER_CLASS);
    }
  }

  /** If the first `k` children match nowhere, all of them do. */
  lemma {:induction false} KidsAhead(t: Table, pat: Pattern, p: nat, args: seq<Id>, k: nat, n: nat, s: Subst)
    requires Shaped(pat) && p < |pat.nodes| && pat.nodes[p].Apply? && k <= n <= |args| == |pat.nodes[p].kids|
    ensures var a, b := KidsTrace(t, pat, p, args, k, s), KidsTrace(t, pat, p, args, n, s);
            a.reach == b.reach == 0 && a.work <= b.work && (b.inner ==> a.inner) && (a.all == [] ==> a == b)
    decreases n
  {
    hide NodeTrace;
    if k < n {
      KidsAhead(t, pat, p, args, k, n - 1, s);
    }
  }

  lemma OutcomeIfNone(t: Table, pat: Pattern, p: nat, args: seq<Id>, k: nat, s: Subst, out0: seq<Subst>, before: nat,
                      after: nat, spent: bool, exhausted: bool, cut: bool)
    requires Shaped(pat) && p < |pat.nodes| && pat.nodes[p].Apply? && k <= |args| == |pat.nodes[p].kids|
    requires Outcome([], KidsTrace(t, pat, p, args, k, s), [], before, after, spent, exhausted, cut)
    ensures Outcome(out0, ListTrace(t, pat, p, args, s), out0, before, after, spent, exhausted, cut)
  {
    hide KidsTrace, Thins;
    KidsAhead(t, pat, p, args, k, |args|, s);
    var a := ListTrace(t, pat, p, args, s);
    ThinsItself(out0);
    ThinsMore(out0, out0, a.all);
    assert [] + KidsTrace(t, pat, p, args, k, s).all == KidsTrace(t, pat, p, args, k, s).all;
    assert a.all == [] ==> out0 + a.all == out0;
  }

  // ----- a trace lists exactly the matches -----

  /** Operators have as many children as they take. */
  ghost predicate HasArities(g: Graph) {
    WellFormed(g) && forall c: Id, n | Has(g, c, n) :: |n.children| == n.op.Arity()
  }

  lemma RowHas(g: Graph, c: Id, n: ENode)
    requires WellFormed(g) && c < |g.root|
    ensures g.root[c] < |g.root| && g.root[g.root[c]] == g.root[c]
    ensures n in Row(TableOf(g), c) <==> Has(g, g.root[c], n)
  {
    assert Slot(g, c) && Slot(g, g.root[c]);
  }

  /** A variable matches one way at most. */
  lemma HoleMatches(g: Graph, pat: Pattern, p: nat, c: Id, s: Subst, m: Subst)
    requires Shaped(pat) && p < |pat.nodes| && pat.nodes[p].Hole? && c < |g.root| && Canonical(g, s)
    requires g.root[c] < |g.root| && g.root[g.root[c]] == g.root[c]
    ensures var v := pat.nodes[p].v;
            Matches(g, pat, p, c, s, m) <==>
              if v in s then g.root[s[v]] == g.root[c] && m == s else m == s[v := g.root[c]]
  {
    var v := pat.nodes[p].v;
    if Matches(g, pat, p, c, s, m) {
      assert m.Keys == s.Keys + {v};
      if v in s {
        assert m.Keys == s.Keys;
        assert m == s;
      } else {
        assert m == s[v := g.root[c]];
      }
    }
  }

  /** Some node of the row with the operator lists it. */
  ghost predicate InRow(t: Table, pat: Pattern, p: nat, nodes: seq<ENode>, s: Subst, m: Subst)
    requires Shaped(pat) && p < |pat.nodes| && pat.nodes[p].Apply?
  {
    exists n :: n in nodes && n.op == pat.nodes[p].op && m in OneTrace(t, pat, p, n, s).all
  }

  lemma {:induction false} RowLists(t: Table, pat: Pattern, p: nat, nodes: seq<ENode>, s: Subst, m: Subst)
    requires Shaped(pat) && p < |pat.nodes| && pat.nodes[p].Apply?
    ensures m in RowTrace(t, pat, p, nodes, s).all <==> InRow(t, pat, p, nodes, s, m)
    decreases |nodes|
  {
    hide OneTrace;
    if nodes != [] {
      var init, last := nodes[..|nodes| - 1], nodes[|nodes| - 1];
      RowLists(t, pat, p, init, s, m);
      assert forall n :: n in nodes <==> n in init || n == last;
    }
  }

  /** Some substitution of the frontier extends to it. */
  ghost predicate InFront(t: Table, pat: Pattern, p: nat, args: seq<Id>, k: nat, frontier: seq<Subst>, m: Subst)
    requires Shaped(pat) && p < |pat.nodes| && pat.nodes[p].Apply? && k < |args| == |pat.nodes[p].kids|
  {
    assert KidsAreEarlier(pat.nodes, p);
    exists mid :: mid in frontier && m in NodeTrace(t, pat, pat.nodes[p].kids[k], args[k], mid).all
  }

  lemma {:induction false} FrontLists(t: Table, pat: Pattern, p: nat, args: seq<Id>, k: nat, frontier: seq<Subst>,
                                      m: Subst)
    requires Shaped(pat) && p < |pat.nodes| && pat.nodes[p].Apply? && k < |args| == |pat.nodes[p].kids|
    ensures m in FrontTrace(t, pat, p, args, k, frontier).all <==> InFront(t, pat, p, args, k, frontier, m)
    decreases |frontier|
  {
    hide NodeTrace;
    if frontier != [] {
      var init, last := frontier[..|frontier| - 1], frontier[|frontier| - 1];
      FrontLists(t, pat, p, args, k, init, m);
      assert forall mid :: mid in frontier <==> mid in init || mid == last;
    }
  }

  /** Without limits the matcher lists exactly the matches. */
  lemma {:induction false} TraceIsExact(g: Graph, pat: Pattern, p: nat, c: Id, s: Subst, m: Subst)
    requires HasArities(g) && Shaped(pat) && p < |pat.nodes| && c < |g.root| && Canonical(g, s)
    ensures m in NodeTrace(TableOf(g), pat, p, c, s).all <==> Matches(g, pat, p, c, s, m)
    decreases p, 3, 0
  {
    hide Matches, OneTrace;
    var t := TableOf(g);
    if pat.nodes[p].Hole? {
      RowHas(g, c, ENode(Diff, []));
      HoleMatches(g, pat, p, c, s, m);
    } else {
      var nodes := Row(t, c);
      RowLists(t, pat, p, nodes, s, m);
      if InRow(t, pat, p, nodes, s, m) {
        var n :| n in nodes && n.op == pat.nodes[p].op && m in OneTrace(t, pat, p, n, s).all;
        RowHas(g, c, n);
        OneIsExact(g, pat, p, c, n, s, m);
      }
      if Matches(g, pat, p, c, s, m) {
        var n, read := MatchByNode(g, pat, p, c, s, m);
        RowHas(g, c, n);
        OneIsExact(g, pat, p, c, n, s, m);
        assert InRow(t, pat, p, nodes, s, m);
      }
    }
  }

  /** Matches that read this node of the class. */
  ghost predicate ByNode(g: Graph, pat: Pattern, p: nat, n: ENode, s: Subst, m: Subst)
    requires Shaped(pat) && p < |pat.nodes| && pat.nodes[p].Apply? && |n.children| == |pat.nodes[p].kids|
  {
    || MatchesKids(g, pat, p, n.children, |n.children|, s, m)
    || MatchesKids(g, pat, p, Flip(n).children, |Flip(n).children|, s, m)
  }

  lemma {:induction false} OneIsExact(g: Graph, pat: Pattern, p: nat, c: Id, n: ENode, s: Subst, m: Subst)
    requires HasArities(g) && Shaped(pat) && p < |pat.nodes| && pat.nodes[p].Apply? && c < |g.root| && Canonical(g, s)
    requires Has(g, g.root[c], n) && n.op == pat.nodes[p].op
    ensures |n.children| == |pat.nodes[p].kids|
    ensures m in OneTrace(TableOf(g), pat, p, n, s).all <==> ByNode(g, pat, p, n, s, m)
    ensures ByNode(g, pat, p, n, s, m) ==> Matches(g, pat, p, c, s, m)
    decreases p, 1, 0
  {
    hide Matches, MatchesKids, KidsTrace;
    assert KidsAreEarlier(pat.nodes, p);
    HasIsBelow(g, g.root[c], n);
    var kids := |n.children|;
    KidsAreExact(g, pat, p, n.children, kids, s, m);
    KidsAreExact(g, pat, p, Flip(n).children, kids, s, m);
    if pat.nodes[p].kids == [] {
      assert n.children == Flip(n).children == [];
      OneOfNone(TableOf(g), pat, p, s);
    } else if n.op.IsCommutative() && kids == 2 && n.children[0] != n.children[1] {
      assert Flip(n).children == [n.children[1], n.children[0]];
    } else {
      assert Flip(n).children == n.children;
    }
    if ByNode(g, pat, p, n, s, m) {
      var read := if MatchesKids(g, pat, p, n.children, kids, s, m) then n else Flip(n);
      NodeMatches(g, pat, p, c, n, read, s, m);
    }
  }

  lemma OneOfNone(t: Table, pat: Pattern, p: nat, s: Subst)
    requires Shaped(pat) && p < |pat.nodes| && pat.nodes[p].Apply? && pat.nodes[p].kids == []
    ensures KidsTrace(t, pat, p, [], 0, s).all == [s]
  {
  }

  lemma {:induction false} KidsAreExact(g: Graph, pat: Pattern, p: nat, args: seq<Id>, k: nat, s: Subst, m: Subst)
    requires HasArities(g) && Shaped(pat) && p < |pat.nodes| && pat.nodes[p].Apply? && Canonical(g, s)
    requires k <= |args| == |pat.nodes[p].kids| && forall j | 0 <= j < |args| :: args[j] < |g.root|
    ensures m in KidsTrace(TableOf(g), pat, p, args, k, s).all <==> MatchesKids(g, pat, p, args, k, s, m)
    decreases p, 0, k
  {
    hide Matches, MatchesKids, NodeTrace, FrontTrace, HasArities;
    var t := TableOf(g);
    if k == 0 {
      NoKids(g, pat, p, args, s, m);
    } else {
      assert KidsAreEarlier(pat.nodes, p);
      var kid, frontier := pat.nodes[p].kids[k - 1], KidsTrace(t, pat, p, args, k - 1, s).all;
      FrontLists(t, pat, p, args, k - 1, frontier, m);
      if InFront(t, pat, p, args, k - 1, frontier, m) {
        var mid :| mid in frontier && m in NodeTrace(t, pat, kid, args[k - 1], mid).all;
        KidsAreExact(g, pat, p, args, k - 1, s, mid);
        KidsAreCanonical(g, pat, p, args, k - 1, s, mid);
        TraceIsExact(g, pat, kid, args[k - 1], mid, m);
        ExtendMatch(g, pat, p, args, k - 1, s, mid, m);
      }
      if MatchesKids(g, pat, p, args, k, s, m) {
        var mid := SplitMatch(g, pat, p, args, k - 1, s, m);
        KidsAreExact(g, pat, p, args, k - 1, s, mid);
        KidsAreCanonical(g, pat, p, args, k - 1, s, mid);
        TraceIsExact(g, pat, kid, args[k - 1], mid, m);
        assert InFront(t, pat, p, args, k - 1, frontier, m);
      }
    }
  }

  lemma NoKids(g: Graph, pat: Pattern, p: nat, args: seq<Id>, s: Subst, m: Subst)
    requires Shaped(pat) && p < |pat.nodes| && pat.nodes[p].Apply? && |pat.nodes[p].kids| == |args| && Canonical(g, s)
    ensures MatchesKids(g, pat, p, args, 0, s, m) <==> m == s
  {
    if MatchesKids(g, pat, p, args, 0, s, m) {
      assert m.Keys == s.Keys;
    }
  }

  lemma KidsAreCanonical(g: Graph, pat: Pattern, p: nat, args: seq<Id>, k: nat, s: Subst, m: Subst)
    requires Shaped(pat) && p < |pat.nodes| && pat.nodes[p].Apply? && k <= |pat.nodes[p].kids| == |args|
    requires MatchesKids(g, pat, p, args, k, s, m)
    ensures Canonical(g, m)
  {
  }

  // ----- whole searches -----

  function RootOp(pat: Pattern): Option<Op>
    requires pat.nodes != []
  {
    var n := pat.nodes[|pat.nodes| - 1];
    if n.Apply? then Some(n.op) else None
  }

  predicate IsTarget(t: Table, op: Option<Op>, c: Id) {
    c < |t.rows| && t.rows[c] != [] && (op.Some? ==> exists n :: n in t.rows[c] && n.op == op.value)
  }

  /** The classes a search visits, ascending: those holding the operator, if there
      is one. */
  function Targets(t: Table, op: Option<Op>, n: nat): (ids: seq<Id>)
    ensures forall i | 0 <= i < |ids| :: ids[i] < n && IsTarget(t, op, ids[i])
    ensures forall c: Id | c < n && IsTarget(t, op, c) :: c in ids
    ensures forall i, j | 0 <= i < j < |ids| :: ids[i] < ids[j]
  {
    if n == 0 then []
    else
      var before := Targets(t, op, n - 1);
      if IsTarget(t, op, n - 1) then before + [n - 1] else before
  }

  /** The classes holding the root's operator, which the index of a clean graph
      gives, or else all. */
  function Sought(t: Table, pat: Pattern, clean: bool): seq<Id>
    requires pat.nodes != []
  {
    Targets(t, if clean then RootOp(pat) else None, |t.rows|)
  }

  function Elements(list: seq<Subst>): set<Subst> {
    set s | s in list
  }

  /** Every list of the search has room. */
  ghost predicate AllHaveRoom(t: Table, pat: Pattern, ids: seq<Id>)
    requires Shaped(pat)
  {
    forall i | 0 <= i < |ids| :: HasRoom(ClassTrace(t, pat, ids[i]), 0)
  }

  /** The budget the search would spend without limits. */
  ghost function WorkOf(t: Table, pat: Pattern, ids: seq<Id>): nat
    requires Shaped(pat)
  {
    if ids == [] then 0 else WorkOf(t, pat, ids[..|ids| - 1]) + ClassTrace(t, pat, ids[|ids| - 1]).work
  }

  /** The substitutions the search would find without limits. */
  ghost function CountOf(t: Table, pat: Pattern, ids: seq<Id>): nat
    requires Shaped(pat)
  {
    if ids == [] then 0 else CountOf(t, pat, ids[..|ids| - 1]) + |Elements(ClassTrace(t, pat, ids[|ids| - 1]).all)|
  }

  /** What is found before the last class, after which nothing is left to stop. */
  ghost function CountBeforeLast(t: Table, pat: Pattern, ids: seq<Id>): nat
    requires Shaped(pat)
  {
    if ids == [] then 0 else CountOf(t, pat, ids[..|ids| - 1])
  }

  lemma {:induction false} TotalsGrow(t: Table, pat: Pattern, ids: seq<Id>, n: nat)
    requires Shaped(pat) && n <= |ids|
    ensures WorkOf(t, pat, ids[..n]) <= WorkOf(t, pat, ids) && CountOf(t, pat, ids[..n]) <= CountOf(t, pat, ids)
    ensures n < |ids| ==> CountOf(t, pat, ids[..n]) <= CountBeforeLast(t, pat, ids)
    decreases |ids|
  {
    if n < |ids| {
      var shorter := ids[..|ids| - 1];
      TotalsGrow(t, pat, shorter, n);
      assert shorter[..n] == ids[..n];
    } else {
      assert ids[..n] == ids;
    }
  }

  lemma NextTotals(t: Table, pat: Pattern, ids: seq<Id>, i: nat)
    requires Shaped(pat) && i < |ids|
    ensures WorkOf(t, pat, ids[..i + 1]) == WorkOf(t, pat, ids[..i]) + ClassTrace(t, pat, ids[i]).work
    ensures CountOf(t, pat, ids[..i + 1]) == CountOf(t, pat, ids[..i]) + |Elements(ClassTrace(t, pat, ids[i]).all)|
  {
    assert ids[..i + 1][..i] == ids[..i];
  }
}
