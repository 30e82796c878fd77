/** A search whose flag says that nothing was cut short, and which misses a match
    all the same. */
module Caps {
  import opened Options
  import opened Lang
  import opened Graphs
  import Reindexing
  import opened Patterns
  import opened Enumerations
  import opened Matching
  import Intervals

  /** A class with more matches than the limit misses one, whatever was found. */
  lemma SomeMatchIsMissed(g: Graph, pat: Pattern, found: seq<SearchMatches>, c: Id)
    requires HasArities(g) && Shaped(pat) && HasKids(pat, |pat.nodes| - 1) && Representative(g, c)
    requires WellListed(pat, found, |g.root|)
    requires |Elements(ClassTrace(TableOf(g), pat, c).all)| > MAX_SUBSTS_PER_CLASS
    ensures !ClassFound(g, pat, found, c)
  {
    hide Matches, NodeTrace;
    var all := NodeTrace(TableOf(g), pat, |pat.nodes| - 1, c, map[]).all;
    if ClassFound(g, pat, found, c) {
      NothingIsCanonical(g);
      forall s | s in all
        ensures Listed(found, c, s)
      {
        TraceIsExact(g, pat, |pat.nodes| - 1, c, map[], s);
        assert MatchAt(g, pat, c, s);
      }
      var i := EntryOfClass(found, c, all);
      assert Elements(all) <= Elements(found[i].substs);
      SubsetSize(Elements(all), Elements(found[i].substs));
      ElementsFew(found[i].substs);
      assert false;
    }
  }

  lemma OneEntry(found: seq<SearchMatches>, i: nat, j: nat)
    requires forall i, j | 0 <= i < j < |found| :: found[i].eclass < found[j].eclass
    requires i < |found| && j < |found|
    ensures found[i].eclass == found[j].eclass ==> i == j
  {
  }

  /** All that is listed for a class is listed in one entry. */
  lemma EntryOfClass(found: seq<SearchMatches>, c: Id, all: seq<Subst>) returns (i: nat)
    requires all != [] && forall s | s in all :: Listed(found, c, s)
    requires forall i, j | 0 <= i < j < |found| :: found[i].eclass < found[j].eclass
    ensures i < |found| && forall s | s in all :: s in found[i].substs
  {
    assert all[0] in all;
    var first :| first in found && first.eclass == c && all[0] in first.substs;
    i :| 0 <= i < |found| && found[i] == first;
    forall s | s in all
      ensures s in found[i].substs
    {
      var m :| m in found && m.eclass == c && s in m.substs;
      var j :| 0 <= j < |found| && found[j] == m;
      OneEntry(found, i, j);
    }
  }

  // ----- one class with many negations -----

  const MANY: nat := 513

  function Variable(i: nat): ENode {
    ENode(Var(i), [])
  }

  function Negation(i: nat): ENode {
    ENode(Neg, [i])
  }

  function Negations(n: nat): seq<ENode> {
    seq(n, (i: nat) => Negation(i))
  }

  function NodesAt(c: Id): seq<ENode> {
    if c < MANY then [Variable(c)] else Negations(MANY)
  }

  function ParentsAt(c: Id): seq<Parent> {
    if c < MANY then [Parent(Negation(c), MANY)] else []
  }

  function Held(): set<ENode> {
    (set i: nat | i < MANY :: Variable(i)) + (set i: nat | i < MANY :: Negation(i))
  }

  function Filed(): map<ENode, Id> {
    map n | n in Held() :: if n.op.Var? then n.op.s else MANY
  }

  lemma HeldNode(n: ENode)
    ensures n in Held() <==> (n.op.Var? && n.op.s < MANY && n.children == [])
                             || (n.op.Neg? && |n.children| == 1 && n.children[0] < MANY)
  {
    if n.op.Var? && n.op.s < MANY && n.children == [] {
      assert n == Variable(n.op.s);
    }
    if n.op.Neg? && |n.children| == 1 && n.children[0] < MANY {
      assert n == Negation(n.children[0]);
    }
  }

  /** Variables, and one class holding the negation of each. */
  function Negated(): Graph {
    Graph(seq(MANY + 1, (i: nat) => i),
          seq(MANY + 1, (i: nat) => Some(EClass(i, NodesAt(i), Fact(None, Intervals.TOP), ParentsAt(i)))),
          Filed(), 0, [])
  }

  function Tabled(): Table {
    Table(seq(MANY + 1, (i: nat) => i), seq(MANY + 1, (i: nat) => NodesAt(i)))
  }

  /** The negation of anything. */
  const NEGATION := Pattern([Hole(0), Apply(Neg, [0])])

  lemma NodeIsFiled(c: Id, n: ENode)
    requires Has(Negated(), c, n)
    ensures |n.children| == n.op.Arity() && Filing(Negated(), c, n)
  {
    hide Held;
    HeldNode(n);
    var g := Negated();
    assert c <= MANY && n in NodesAt(c);
    if c == MANY {
      var i :| 0 <= i < MANY && Negations(MANY)[i] == n;
      assert MapChildren(g.root, n).children == [i];
    }
    assert MapChildren(g.root, n) == n;
  }

  lemma FiledIsNode(n: ENode)
    requires n in Filed()
    ensures Has(Negated(), Filed()[n], n) && Filed()[n] <= MANY && Below(n, MANY + 1)
  {
    hide Held;
    HeldNode(n);
    if n.op.Neg? {
      assert Negations(MANY)[n.children[0]] == n;
    }
  }

  lemma ParentIsUser(x: Id, e: Parent)
    ensures HasParent(Negated(), x, e) <==> IsParent(Negated(), x, e)
  {
    hide Filed;
    var g := Negated();
    if HasParent(g, x, e) {
      assert x < MANY && e == Parent(Negation(x), MANY);
      assert Negations(MANY)[x] == Negation(x);
    }
    if IsParent(g, x, e) {
      NodeIsFiled(e.owner, e.node);
      if e.owner == MANY {
        var i :| 0 <= i < MANY && Negations(MANY)[i] == e.node;
        assert x == i;
      }
    }
  }

  lemma NegatedIsWellFormed()
    ensures WellFormed(Negated()) && |Negated().root| == MANY + 1 && Negated().memo == Filed()
  {
    hide Filed;
    var g := Negated();
    forall i | 0 <= i < |g.root|
      ensures Slot(g, i)
    {
    }
    forall n | n in g.memo
      ensures Below(n, |g.root|) && g.memo[n] < |g.root|
    {
      FiledIsNode(n);
    }
  }

  lemma NegatedIsSearchable()
    ensures Searchable(Negated()) && Indexed(Negated())
  {
    hide Negated, Filed;
    NegatedIsWellFormed();
    NegatedIsSorted();
    var g := Negated();
    forall c: Id, n | Has(g, c, n)
      ensures |n.children| == n.op.Arity() && Filing(g, c, n)
    {
      NodeIsFiled(c, n);
    }
    forall n | n in g.memo
      ensures Has(g, g.memo[n], n)
    {
      FiledIsNode(n);
    }
    forall x: Id, e
      ensures HasParent(g, x, e) <==> IsParent(g, x, e)
    {
      ParentIsUser(x, e);
    }
  }

  lemma NegatedIsSorted()
    ensures Reindexing.AllSorted(Negated().classes)
  {
  }

  lemma NegatedIsTabled()
    ensures TableOf(Negated()) == Tabled() && Shaped(NEGATION) && HasKids(NEGATION, 1)
  {
    hide Filed;
    assert TableOf(Negated()).rows == Tabled().rows;
    assert forall i | 0 <= i < |NEGATION.nodes| :: KidsAreEarlier(NEGATION.nodes, i);
  }

  /** One negation matches one way, in one step. */
  lemma OneNegation(i: Id)
    requires i < MANY && Shaped(NEGATION)
    ensures OneTrace(Tabled(), NEGATION, 1, Negation(i), map[]) == Trace([map[0 := i]], 1, 1, true)
  {
    var t, s := Tabled(), map[];
    var inner := NodeTrace(t, NEGATION, 0, i, s);
    assert inner == Trace([map[0 := i]], 1, 1, true);
    assert FrontTrace(t, NEGATION, 1, [i], 0, [s][..0]) == NOTHING;
    var front := FrontTrace(t, NEGATION, 1, [i], 0, [s]);
    assert front == Then(NOTHING, inner);
    assert [] + [map[0 := i]] == [map[0 := i]];
    assert front == inner;
    assert KidsTrace(t, NEGATION, 1, [i], 0, s) == Trace([s], 0, 0, true);
    assert KidsTrace(t, NEGATION, 1, [i], 1, s) == Trace([map[0 := i]], 1, 0, true);
  }

  lemma {:induction false} NegationsMatch(n: nat)
    requires n <= MANY && Shaped(NEGATION)
    ensures var a := RowTrace(Tabled(), NEGATION, 1, Negations(n), map[]);
            a.work == n && |a.all| == n && forall i | 0 <= i < n :: a.all[i] == map[0 := i]
  {
    hide OneTrace;
    if n > 0 {
      NegationsMatch(n - 1);
      OneNegation(n - 1);
      assert Negations(n)[..n - 1] == Negations(n - 1);
    }
  }

  /** A class of a variable holds no match; the other holds one for each. */
  lemma MatchesOf(c: Id)
    requires c <= MANY && Shaped(NEGATION)
    ensures var a := ClassTrace(Tabled(), NEGATION, c);
            && a.work == (if c < MANY then 1 else MANY + 1) && |Elements(a.all)| == if c < MANY then 0 else MANY
  {
    hide OneTrace, Tabled, RowTrace, Elements;
    RowAt(c);
    if c < MANY {
      VariableRow(c);
      NoElements();
    } else {
      NegationsMatch(MANY);
      ManyElements(RowTrace(Tabled(), NEGATION, 1, Negations(MANY), map[]).all);
    }
  }

  lemma RowAt(c: Id)
    requires c <= MANY
    ensures Row(Tabled(), c) == NodesAt(c)
  {
  }

  lemma VariableRow(c: Id)
    requires Shaped(NEGATION)
    ensures RowTrace(Tabled(), NEGATION, 1, [Variable(c)], map[]) == NOTHING
  {
    assert RowTrace(Tabled(), NEGATION, 1, [Variable(c)][..0], map[]) == NOTHING;
  }

  lemma NoElements()
    ensures Elements([]) == {}
  {
  }

  lemma ManyElements(all: seq<Subst>)
    requires forall i | 0 <= i < |all| :: all[i] == map[0 := i]
    ensures |Elements([] + all)| == |all|
  {
    assert [] + all == all;
    forall i, j | 0 <= i < j < |all|
      ensures all[i] != all[j]
    {
      assert all[i][0] == i && all[j][0] == j;
    }
    DistinctCount(all);
  }

  lemma {:induction false} FewSteps(ids: seq<Id>)
    requires Shaped(NEGATION) && Reindexing.Rising(ids) && forall c | c in ids :: c <= MANY
    ensures WorkOf(Tabled(), NEGATION, ids) <= |ids| + MANY
    ensures (forall c | c in ids :: c < MANY) ==>
              WorkOf(Tabled(), NEGATION, ids) <= |ids| && CountOf(Tabled(), NEGATION, ids) == 0
  {
    hide ClassTrace;
    if ids != [] {
      var init, last := ids[..|ids| - 1], ids[|ids| - 1];
      assert last in ids;
      FewSteps(init);
      MatchesOf(last);
      assert forall c | c in init :: c in ids && c < last;
    }
  }

  lemma {:induction false} RisingIsShort(ids: seq<Id>, n: nat)
    requires Reindexing.Rising(ids) && forall c | c in ids :: c < n
    ensures |ids| <= n
    decreases n
  {
    if ids != [] {
      var init, last := ids[..|ids| - 1], ids[|ids| - 1];
      assert last in ids && forall c | c in init :: c < last;
      RisingIsShort(init, last);
    }
  }

  /** In a rebuilt graph, however the classes are looked up, and whatever is found
      in them, the search does not stop early, so its flag stays false, and a
      match is missing. */
  lemma CapsAreSilent(clean: bool, found: seq<SearchMatches>)
    requires WellListed(NEGATION, found, MANY + 1)
    ensures Searchable(Negated()) && Indexed(Negated()) && Shaped(NEGATION) && Representative(Negated(), MANY)
    ensures var t := TableOf(Negated());
            var ids := Sought(t, NEGATION, clean);
            !StopsEarly(t, NEGATION, ids, MAX_SUBSTS_PER_SEARCH) && !AllHaveRoom(t, NEGATION, ids)
    ensures !ClassFound(Negated(), NEGATION, found, MANY)
  {
    hide Negated, Tabled, Sought, StopsEarly, ClassTrace, WellListed, ClassFound, HasRoom, Searchable, Elements,
         Indexed;
    NegatedIsSearchable();
    NegatedIsTabled();
    NegatedRoots();
    var t, ids := Tabled(), Sought(Tabled(), NEGATION, clean);
    SoughtInOrder(clean);
    NeverEarly(ids);
    MatchesOf(MANY);
    SearchableHasArities(Negated());
    SomeMatchIsMissed(Negated(), NEGATION, found, MANY);
    NoRoomForMany();
  }

  lemma SoughtInOrder(clean: bool)
    ensures var ids := Sought(Tabled(), NEGATION, clean);
            Reindexing.Rising(ids) && (forall c | c in ids :: c <= MANY) && MANY in ids
  {
    assert Tabled().rows[MANY] == Negations(MANY);
    assert Negations(MANY)[0] in Negations(MANY);
  }

  lemma SearchableHasArities(g: Graph)
    requires Searchable(g)
    ensures HasArities(g)
  {
  }

  /** Neither the budget nor the cap of a search is met. */
  lemma NeverEarly(ids: seq<Id>)
    requires Shaped(NEGATION) && Reindexing.Rising(ids) && forall c | c in ids :: c <= MANY
    ensures !StopsEarly(Tabled(), NEGATION, ids, MAX_SUBSTS_PER_SEARCH)
  {
    hide Tabled, WorkOf, CountOf, ClassTrace;
    FewSteps(ids);
    RisingIsShort(ids, MANY + 1);
    if ids != [] {
      var init := ids[..|ids| - 1];
      assert ids[|ids| - 1] in ids && forall c | c in init :: c in ids && c < ids[|ids| - 1];
      FewSteps(init);
    }
  }

  lemma NegatedRoots()
    ensures |Negated().root| == MANY + 1 && Representative(Negated(), MANY)
  {
  }

  lemma NoRoomForMany()
    requires Shaped(NEGATION)
    ensures !HasRoom(ClassTrace(Tabled(), NEGATION, MANY), 0)
  {
    hide OneTrace;
    assert Row(Tabled(), MANY) == Negations(MANY);
    ManyReach(MANY);
  }

  lemma {:induction false} ManyReach(n: nat)
    requires n <= MANY && Shaped(NEGATION)
    ensures var a := RowTrace(Tabled(), NEGATION, 1, Negations(n), map[]); a.reach == n && |a.all| == n
  {
    hide OneTrace;
    if n > 0 {
      ManyReach(n - 1);
      OneNegation(n - 1);
      assert Negations(n)[..n - 1] == Negations(n - 1);
    }
  }
}
