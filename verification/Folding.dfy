/** Constant folding: which classes known to be constant hold the literal, and
    what the steps of the e-graph do to them. */
module Foldings {
  import opened Options
  import opened Lang
  import opened Graphs
  import opened Meanings
  import opened Steps
  import opened Propagation

  /** Comparison of doubles, under which the zeros are equal and NaN is not. */
  predicate FloatEq(a: Double, b: Double) {
    || (a == b && a != NOT_A_NUMBER)
    || ({a, b} == {POSITIVE_ZERO, NEGATIVE_ZERO})
  }

  /** The node is the literal, up to the sign of a zero. */
  predicate IsLiteral(n: ENode, c: Double) {
    n.op.Const? && (n.op.c == c || FloatEq(n.op.c, c))
  }

  ghost predicate HoldsLiteral(g: Graph, x: Id, c: Double) {
    exists n :: Has(g, x, n) && IsLiteral(n, c)
  }

  function Constant(g: Graph, c: Id): Option<Double> {
    if c < |g.classes| && g.classes[c].Some? then g.classes[c].value.data.constant else None
  }

  /** If the class is known to be constant it holds the literal, or is waiting. */
  ghost predicate Folding(g: Graph, c: Id, waiting: seq<Id>) {
    Constant(g, c).Some? ==> HoldsLiteral(g, c, Constant(g, c).value) || Pends(g, waiting, c)
  }

  ghost predicate AllFolding(g: Graph, waiting: seq<Id>) {
    forall c: Id :: Folding(g, c, waiting)
  }

  /** Nothing waits: every class known to be constant holds its literal. */
  lemma AllAreFolded(g: Graph, c: Id)
    requires AllFolding(g, []) && Constant(g, c).Some?
    ensures HoldsLiteral(g, c, Constant(g, c).value)
  {
    assert Folding(g, c, []);
  }

  /** Whatever class waits for one waits for the other. */
  predicate Covers(root: seq<Id>, waiting: seq<Id>, more: seq<Id>) {
    && (forall w | w in more :: w < |root|)
    && forall w | w in waiting && w < |root| :: exists v :: v in more && v < |root| && root[v] == root[w]
  }

  lemma FoldingCovered(g: Graph, waiting: seq<Id>, more: seq<Id>)
    requires AllFolding(g, waiting) && Covers(g.root, waiting, more)
    ensures AllFolding(g, more)
  {
    forall c: Id
      ensures Folding(g, c, more)
    {
      assert Folding(g, c, waiting);
      if Pends(g, waiting, c) {
        var p :| p in waiting && p < |g.root| && g.root[p] == c;
        var v :| v in more && v < |g.root| && g.root[v] == g.root[p];
      }
    }
  }

  /** One id need not wait if its class holds its literal. */
  lemma FoldingDone(g: Graph, waiting: seq<Id>, id: Id, rest: seq<Id>)
    requires AllFolding(g, waiting) && forall w | w in waiting :: w == id || w in rest
    requires id < |g.root| && Folding(g, g.root[id], rest)
    ensures AllFolding(g, rest)
  {
    forall c: Id
      ensures Folding(g, c, rest)
    {
      assert Folding(g, c, waiting);
    }
  }

  /** A class keeping its nodes and its fact, by whatever name, stays folded. */
  lemma LiteralKept(g: Graph, t: Graph, c: Id, value: Double, waiting: seq<Id>, more: seq<Id>)
    requires |g.root| <= |t.root|
    requires forall p | p in waiting && p < |g.root| && g.root[p] == c :: p in more && t.root[p] == c
    requires forall n | Has(g, c, n) && n.op.Const? :: exists m :: Has(t, c, m) && m.op == n.op
    ensures HoldsLiteral(g, c, value) || Pends(g, waiting, c) ==> HoldsLiteral(t, c, value) || Pends(t, more, c)
  {
    if HoldsLiteral(g, c, value) {
      var n :| Has(g, c, n) && IsLiteral(n, value);
      var m :| Has(t, c, m) && m.op == n.op;
      assert IsLiteral(m, value);
    } else if Pends(g, waiting, c) {
      var p :| p in waiting && p < |g.root| && g.root[p] == c;
      assert t.root[p] == c;
    }
  }

  /** A new class waits. */
  lemma AddFolding(g: Graph, after: Graph, waiting: seq<Id>, node: ENode, fact: Fact)
    requires WellFormed(g) && AllFolding(g, waiting) && Added(g, after, node, fact)
    ensures AllFolding(after, waiting + [|g.root|])
  {
    AddWellFormed(g, after, node, fact);
    forall c: Id
      ensures Folding(after, c, waiting + [|g.root|])
    {
      assert Folding(g, c, waiting);
      if c == |g.root| {
        assert |g.root| in waiting + [|g.root|];
      } else if c < |g.classes| && g.classes[c].Some? {
        assert Constant(after, c) == Constant(g, c);
        if Constant(g, c).Some? {
          LiteralKept(g, after, c, Constant(g, c).value, waiting, waiting + [|g.root|]);
        }
      }
    }
  }

  /** A class that absorbs another waits, unless its fact is unchanged. */
  lemma JoinFolding(g: Graph, ra: Id, rb: Id, data: Fact, waiting: seq<Id>)
    requires Joinable(g, ra, rb) && AllFolding(g, waiting)
    ensures data == g.classes[ra].value.data ==> AllFolding(Joined(g, ra, rb, data), waiting)
    ensures AllFolding(Joined(g, ra, rb, data), waiting + [ra])
  {
    var j := Joined(g, ra, rb, data);
    JoinWellFormed(g, ra, rb, data);
    assert Slot(g, ra) && Slot(g, rb) && ra in waiting + [ra] && j.root[ra] == ra;
    forall c: Id
      ensures c != ra || data == g.classes[ra].value.data ==> Folding(j, c, waiting)
      ensures Folding(j, c, waiting + [ra])
    {
      assert Folding(g, c, waiting);
      if c < |g.classes| && c != rb && Constant(g, c).Some? {
        assert Slot(g, c);
        LiteralKept(g, j, c, Constant(g, c).value, waiting, waiting);
        LiteralKept(g, j, c, Constant(g, c).value, waiting, waiting + [ra]);
      }
    }
  }

  /** A class given a new fact waits. */
  lemma InformFolding(g: Graph, waiting: seq<Id>, id: Id, data: Fact)
    requires WellFormed(g) && AllFolding(g, waiting) && id < |g.classes| && g.classes[id].Some?
    ensures AllFolding(Informed(g, id, data), waiting + [id])
  {
    var t := Informed(g, id, data);
    assert Slot(g, id) && id in waiting + [id];
    forall c: Id
      ensures Folding(t, c, waiting + [id])
    {
      assert Folding(g, c, waiting);
      if c != id && Constant(g, c).Some? {
        LiteralKept(g, t, c, Constant(g, c).value, waiting, waiting + [id]);
      }
    }
  }

  /** Canonical forms of literals are literals. */
  lemma RenewFolding(g: Graph, f: Graph, waiting: seq<Id>)
    requires ReindexedFrom(g, f) && AllFolding(g, waiting)
    ensures AllFolding(f, waiting)
  {
    forall c: Id
      ensures Folding(f, c, waiting)
    {
      assert Folding(g, c, waiting);
      if c < |g.classes| {
        assert Renewed(g.classes[c], f.classes[c]);
      }
      forall n | Has(g, c, n) && n.op.Const?
        ensures exists m :: Has(f, c, m) && m.op == n.op
      {
        HasIsBelow(g, c, n);
        assert Owns(g, c, Canon(g.root, n)) && Has(f, c, Canon(g.root, n));
      }
      if Constant(g, c).Some? {
        LiteralKept(g, f, c, Constant(g, c).value, waiting, waiting);
      }
    }
  }

  /** Parent lists and the hashcons do not matter. */
  lemma SameFolding(g: Graph, t: Graph, waiting: seq<Id>)
    requires AllFolding(g, waiting) && t.root == g.root
    requires forall c: Id, n | Has(g, c, n) :: Has(t, c, n)
    requires forall c: Id :: Constant(t, c) == Constant(g, c)
    ensures AllFolding(t, waiting)
  {
    forall c: Id
      ensures Folding(t, c, waiting)
    {
      assert Folding(g, c, waiting);
      if Constant(g, c).Some? {
        LiteralKept(g, t, c, Constant(g, c).value, waiting, waiting);
      }
    }
  }

  /** A literal stays in the class. */
  lemma LiteralLasts(g: Graph, h: Graph, x: Id, c: Double)
    requires WellFormed(g) && Later(g, h) && x < |g.root| && HoldsLiteral(g, g.root[x], c)
    ensures x < |h.root| && HoldsLiteral(h, h.root[x], c)
  {
    var n :| Has(g, g.root[x], n) && IsLiteral(n, c);
    HasIsBelow(g, g.root[x], n);
    assert Slot(g, x) && Lasts(h, g.root[x], n);
    var m :| Has(h, h.root[g.root[x]], m) && Below(m, |h.root|) && Canon(h.root, m) == Canon(h.root, n);
    assert IsLiteral(m, c);
  }

  /** Uniting a class with that of its literal folds it: the fact kept is that of
      one of the two, or the class is told. */
  lemma UnionFolds(g: Graph, h: Graph, waiting: seq<Id>, rest: seq<Id>, id: Id, lit: Id)
    requires WellFormed(g) && WellFormed(h) && Later(g, h) && id < |g.root| && lit < |g.root|
    requires h.root[id] == h.root[lit] && AllFolding(g, waiting)
    requires forall w | w in waiting :: w in rest || w == id
    requires FactAt(g, id).constant.Some? && HoldsLiteral(h, h.root[id], FactAt(g, id).constant.value)
    requires || Pends(h, rest, h.root[id]) || FactAt(h, id) == FactAt(g, id)
             || (FactAt(h, id) == FactAt(g, lit) && g.root[lit] != g.root[id])
    ensures Folding(h, h.root[id], rest)
  {
    assert Slot(g, id) && Slot(h, id) && Slot(g, lit) && Slot(g, g.root[lit]) && Slot(h, h.root[id]);
    assert Folding(g, g.root[lit], waiting);
    if g.root[lit] != g.root[id] {
      if Pends(g, waiting, g.root[lit]) {
        var p :| p in waiting && p < |g.root| && g.root[p] == g.root[lit];
        assert p in rest && h.root[p] == h.root[lit];
      } else if FactAt(g, lit).constant.Some? {
        LiteralLasts(g, h, lit, FactAt(g, lit).constant.value);
      }
    }
  }

  /** The class two others became has the fact of one of them, or is told. */
  lemma JoinTells(g: Graph, ra: Id, rb: Id, data: Fact, a: Id, b: Id, told: seq<Id>)
    requires Joinable(g, ra, rb) && a < |g.root| && b < |g.root| && Pair(ra, rb, g.root[a], g.root[b])
    requires data != g.classes[ra].value.data ==> ra in told
    ensures var j := Joined(g, ra, rb, data);
            && WellFormed(j)
            && (Pends(j, told, j.root[a]) || FactAt(j, a) == FactAt(g, a) || FactAt(j, a) == FactAt(g, b))
  {
    var j := Joined(g, ra, rb, data);
    JoinWellFormed(g, ra, rb, data);
    assert Slot(g, a) && Slot(g, b) && Slot(g, ra) && Slot(g, rb);
    assert j.root[ra] == ra == j.root[a];
  }

  // ----- folding what was just added -----

  /** What the node says of its class, whatever the order of its arguments. */
  function FactFor(analysis: Analysis, g: Graph, node: ENode): Fact
    requires WellFormed(g) && Below(node, |g.root|)
  {
    CanonIsBelow(g, node);
    FactOf(analysis, g, Canon(g.root, node))
  }

  /** All there is to look at is a class that nobody uses yet, up to date and known
      to be constant. */
  ghost predicate ReadyToFold(analysis: Analysis, g: Graph, pending: seq<Id>, waiting: seq<Id>) {
    && WellFormed(g) && pending == [] && |waiting| == 1 && IsClass(g, waiting[0])
    && (forall x: Id :: !Uses(g, x, waiting[0]))
    && Stable(analysis, g, waiting[0]) && FactAt(g, waiting[0]).constant.Some?
  }

  /** The class that waited for that now holds its literal. */
  ghost predicate FoldsInto(g: Graph, waiting: seq<Id>, h: Graph) {
    && WellFormed(g) && |waiting| == 1 && waiting[0] < |g.root| && waiting[0] < |h.root|
    && FactAt(g, waiting[0]).constant.Some?
    && HoldsLiteral(h, h.root[waiting[0]], FactAt(g, waiting[0]).constant.value)
  }

  lemma ReadyIsSingle(analysis: Analysis, g: Graph, pending: seq<Id>, waiting: seq<Id>)
    requires ReadyToFold(analysis, g, pending, waiting)
    ensures WellFormed(g) && |waiting| == 1 && waiting[0] < |g.root| && FactAt(g, waiting[0]).constant.Some?
  {
  }

  lemma FoldedLasts(g: Graph, waiting: seq<Id>, h: Graph, later: Graph)
    requires FoldsInto(g, waiting, h) && WellFormed(h) && Later(h, later)
    ensures FoldsInto(g, waiting, later)
  {
    LiteralLasts(h, later, waiting[0], FactAt(g, waiting[0]).constant.value);
  }

  /** Propagating recomputes that class alone, in vain, and returns it. */
  lemma ReadyIsMoved(analysis: Analysis, g: Graph, pending: seq<Id>, waiting: seq<Id>, visited: seq<Id>,
                     moved: seq<Id>)
    requires ReadyToFold(analysis, g, pending, waiting)
    requires (forall v | v in visited :: IsClass(g, v)) && AllPrompted(g, waiting, visited) && visited != []
    requires forall m :: m in moved <==> m in Moved(analysis, g, waiting, visited)
    ensures Refreshed(analysis, g, visited) == g && moved != [] && forall m | m in moved :: m == waiting[0]
  {
    var id := waiting[0];
    assert forall x | Pends(g, waiting, x) :: x == id;
    OnlyThePending(g, waiting, visited, |visited|);
    assert visited[..|visited|] == visited;
    ReadyIsMovedBy(analysis, g, pending, waiting, visited);
    assert visited[0] in visited && visited[0] in moved;
  }

  lemma {:induction false} ReadyIsMovedBy(analysis: Analysis, g: Graph, pending: seq<Id>, waiting: seq<Id>,
                                          visited: seq<Id>)
    requires ReadyToFold(analysis, g, pending, waiting) && forall v | v in visited :: v == waiting[0]
    ensures Refreshed(analysis, g, visited) == g
    ensures forall m :: m in Moved(analysis, g, waiting, visited) <==> m in visited
  {
    if visited != [] {
      var id, rest := waiting[0], visited[..|visited| - 1];
      assert visited[|visited| - 1] in visited && visited == rest + [visited[|visited| - 1]];
      assert forall v | v in rest :: v in visited;
      ReadyIsMovedBy(analysis, g, pending, waiting, rest);
      ClassAt(g, id);
      assert Slot(g, id) && Pends(g, waiting, id);
      assert Informed(g, id, ClassFact(analysis, g, id)) == g;
      RefreshedMore(analysis, g, rest, id);
      MovedNext(analysis, g, waiting, rest, id);
    }
  }

  /** A node just added is such a class, if its children are known well enough. */
  lemma AddedIsReady(analysis: Analysis, g: Graph, after: Graph, n: ENode, fact: Fact, pending: seq<Id>,
                     waiting: seq<Id>)
    requires WellFormed(g) && Added(g, after, n, fact) && Below(n, |g.root|) && Canon(g.root, n) == n
    requires fact == FactOf(analysis, g, n)
    ensures fact.constant.Some? && pending == [] && waiting == [|g.root|] ==>
              ReadyToFold(analysis, after, pending, waiting)
  {
    var id := |g.root|;
    AddWellFormed(g, after, n, fact);
    forall x: Id
      ensures !Uses(after, x, id)
    {
      AddedIsUnused(g, after, n, fact, x);
    }
    AddedIsStable(analysis, g, after, n, fact);
  }

  /** What adding a node the graph has not got does to it. */
  lemma AddedMeans(analysis: Analysis, g: Graph, after: Graph, node: ENode, n: ENode, fact: Fact, pending: seq<Id>,
                   before: seq<Id>, waiting: seq<Id>)
    requires WellFormed(g) && Below(node, |g.root|) && n == Canon(g.root, node) && Below(n, |g.root|)
    requires Canon(g.root, n) == n && Added(g, after, n, fact) && fact == FactOf(analysis, g, n)
    requires waiting == before + [|g.root|]
    ensures Later(g, after) && Enlarged(g, after) && WellFormed(after) && |g.root| < |after.root|
    ensures FactAt(after, |g.root|) == FactFor(analysis, g, node)
    ensures FactFor(analysis, g, node).constant.Some? && pending == [] && before == [] ==>
              ReadyToFold(analysis, after, pending, waiting)
  {
    AddEnlarges(g, after, n, fact);
    EnlargedIsLater(g, after);
    AddedIsReady(analysis, g, after, n, fact, pending, waiting);
  }

  lemma AddedIsUnused(g: Graph, after: Graph, n: ENode, fact: Fact, x: Id)
    requires WellFormed(g) && Added(g, after, n, fact) && Below(n, |g.root|)
    ensures !Uses(after, x, |g.root|)
  {
    forall m | Has(after, x, m) && Below(m, |after.root|)
      ensures !Mentions(after.root, m, |g.root|)
    {
      AddHas(g, after, n, fact, x, m);
      if Has(g, x, m) {
        HasIsBelow(g, x, m);
      }
      forall k | 0 <= k < |m.children|
        ensures after.root[m.children[k]] != |g.root|
      {
        assert Slot(g, m.children[k]);
      }
    }
  }

  lemma AddedIsStable(analysis: Analysis, g: Graph, after: Graph, n: ENode, fact: Fact)
    requires WellFormed(g) && Added(g, after, n, fact) && Below(n, |g.root|) && Canon(g.root, n) == n
    requires fact == FactOf(analysis, g, n) && WellFormed(after)
    ensures IsClass(after, |g.root|) && Stable(analysis, after, |g.root|) && FactAt(after, |g.root|) == fact
  {
    var id := |g.root|;
    ClassAt(after, id);
    assert PushedAt(g.root, (g.classes + [Some(EClass(id, [n], fact, []))])[id], after.classes[id], Parent(n, id),
                    |n.children|, id);
    CanonExtends(g.root, [id], n);
    AddEnlarges(g, after, n, fact);
    assert ChildFacts(after, n) == ChildFacts(g, n);
  }
}
