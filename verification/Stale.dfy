/** Two graphs in which propagating facts stops short of a fixpoint. */
module Staleness {
  import opened Options
  import opened Lang
  import opened Graphs
  import opened Meanings
  import opened Steps
  import opened Propagation
  import Intervals

  /** The range of one variable known to be one, of negations, and of nothing
      else. */
  function RangeOf(op: Op, facts: seq<Fact>): Fact {
    if op == Var(0) then Fact(None, Intervals.Point(Intervals.ONE))
    else if op.Neg? && |facts| == 1 then Fact(None, Intervals.Neg(facts[0].range))
    else Fact(None, Intervals.TOP)
  }

  function Both(a: Fact, b: Fact): Fact {
    Fact(None, Intervals.Meet(a.range, b.range))
  }

  const RANGES := Analysis(RangeOf, Both)

  const X := ENode(Var(0), [])
  const Y := ENode(Var(1), [])
  const NEGATED := ENode(Neg, [1])

  function Ranged(id: Id, node: ENode, fact: Fact, parents: seq<Parent>): Option<EClass> {
    Some(EClass(id, [node], fact, parents))
  }

  /** A variable known to be one, an unknown one, and the negation of that. */
  function Apart(): Graph {
    Graph([0, 1, 2],
          [Ranged(0, X, RangeOf(Var(0), []), []), Ranged(1, Y, RangeOf(Var(1), []), [Parent(NEGATED, 2)]),
           Ranged(2, NEGATED, RangeOf(Neg, [RangeOf(Var(1), [])]), [])],
          map[X := 0, Y := 1, NEGATED := 2], 0, [])
  }

  lemma ApartIsWellFormed()
    ensures WellFormed(Apart()) && forall c: Id | c < 3 :: IsClass(Apart(), c)
  {
    var g := Apart();
    forall i | 0 <= i < |g.root|
      ensures Slot(g, i)
    {
    }
  }

  lemma OneNodeFact(g: Graph, c: Id, node: ENode)
    requires WellFormed(g) && IsClass(g, c) && c < |g.classes| && g.classes[c].Some?
    requires g.classes[c].value.nodes == [node]
    requires Below(node, |g.root|)
    ensures Below(Canon(g.root, node), |g.root|) && ClassFact(RANGES, g, c) == FactOf(RANGES, g, Canon(g.root, node))
  {
    CanonIsBelow(g, node);
    assert Slot(g, c);
  }

  lemma NegationFact(g: Graph, child: Id)
    requires WellFormed(g) && child < |g.root|
    ensures var n := ENode(Neg, [child]);
            && Canon(g.root, n) == ENode(Neg, [g.root[child]]) && g.root[child] < |g.root|
            && FactOf(RANGES, g, Canon(g.root, n)) == Fact(None, Intervals.Neg(FactAt(g, child).range))
  {
    var n := ENode(Neg, [child]);
    assert Slot(g, child);
    assert MapChildren(g.root, n).children == [g.root[child]];
    CanonIsBelow(g, n);
    assert ChildFacts(g, Canon(g.root, n)) == [FactAt(g, g.root[child])];
  }

  lemma ApartIsStable(c: Id)
    requires c < 3
    ensures WellFormed(Apart()) && IsClass(Apart(), c) && Stable(RANGES, Apart(), c)
  {
    var g := Apart();
    ApartIsWellFormed();
    if c == 2 {
      OneNodeFact(g, 2, NEGATED);
      NegationFact(g, 1);
    } else {
      var node := if c == 0 then X else Y;
      OneNodeFact(g, c, node);
      assert Canon(g.root, node) == node;
      assert ChildFacts(g, node) == [];
    }
  }

  /** Every fact is up to date. Uniting the known variable with the unknown one
      does not move the fact of the survivor, so no class is queued, though the
      negation, which used the one absorbed, is now known to be minus one. */
  lemma NobodyIsTold()
    ensures WellFormed(Apart()) && forall c: Id | c < 3 :: IsClass(Apart(), c) && Stable(RANGES, Apart(), c)
    ensures Joinable(Apart(), 0, 1)
    ensures var g := Apart();
            var kept := g.classes[0].value.data;
            var h := Joined(g, 0, 1, RANGES.merge(kept, g.classes[1].value.data));
            && RANGES.merge(kept, g.classes[1].value.data) == kept
            && WellFormed(h) && IsClass(h, 2) && !Uses(h, 2, 2) && !Stable(RANGES, h, 2)
            && ClassFact(RANGES, h, 2) == Fact(None, Intervals.Point(Intervals.Fin(-1.0)))
  {
    var g := Apart();
    ApartIsWellFormed();
    forall c: Id | c < 3
      ensures Stable(RANGES, g, c)
    {
      ApartIsStable(c);
    }
    var kept := g.classes[0].value.data;
    JoinWellFormed(g, 0, 1, kept);
    var h := Joined(g, 0, 1, kept);
    OneNodeFact(h, 2, NEGATED);
    NegationFact(h, 1);
  }

  /** A class that is its own negation. */
  function Looped(): Graph {
    var node := ENode(Neg, [0]);
    Graph([0],
          [Ranged(0, node, Fact(None, Intervals.Interval(Intervals.Fin(1.0), Intervals.Fin(2.0), false, true)),
                  [Parent(node, 0)])],
          map[node := 0], 0, [])
  }

  lemma LoopedFact(data: Fact)
    ensures WellFormed(Looped()) && IsClass(Looped(), 0)
    ensures var g := Informed(Looped(), 0, data);
            WellFormed(g) && IsClass(g, 0) && ClassFact(RANGES, g, 0) == Fact(None, Intervals.Neg(data.range))
  {
    var g := Looped();
    assert Slot(g, 0);
    InformedView(g, 0, data);
    var h := Informed(g, 0, data);
    OneNodeFact(h, 0, ENode(Neg, [0]));
    NegationFact(h, 0);
  }

  /** Its fact moves when it is recomputed, and would move again; but a class does
      not queue itself. */
  lemma LoopsAreNotRevisited()
    ensures WellFormed(Looped()) && IsClass(Looped(), 0) && Uses(Looped(), 0, 0)
    ensures var h := Refreshed(RANGES, Looped(), [0]); !Stable(RANGES, h, 0) && h != Looped()
  {
    var g := Looped();
    var data := g.classes[0].value.data;
    LoopedFact(data);
    assert Informed(g, 0, data) == g;
    var next := Fact(None, Intervals.Neg(data.range));
    LoopedFact(next);
    assert Has(g, 0, ENode(Neg, [0])) && Mentions(g.root, ENode(Neg, [0]), 0);
    assert Refreshed(RANGES, g, [0][..0]) == g;
    assert Refreshed(RANGES, g, [0]) == Informed(g, 0, next);
  }
}
