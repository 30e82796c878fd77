/** The record of unions that explanations are read from. */
module Histories {
  import opened Options
  import opened Lang
  import opened UnionFinds

  /** Why two classes were merged. */
  datatype Justification =
    | Rule(name: string)
    | Congruence(left: ENode, right: ENode)
    | Fold
    | Asserted

  /** A union performed: the representatives as they were before it. */
  datatype Edge = Edge(a: Id, b: Id, why: Justification)

  /** A labelling no edge crosses. */
  predicate Uncrossed(part: seq<nat>, edges: seq<Edge>) {
    forall e | e in edges :: e.a < |part| && e.b < |part| && part[e.a] == part[e.b]
  }

  /** The partition is exactly connectivity along the recorded edges. */
  ghost predicate Tracks(edges: seq<Edge>, root: seq<Id>) {
    && Uncrossed(root, edges)
    && (forall i | 0 <= i < |root| :: root[i] < |root|)
    && (forall part: seq<nat> | |part| == |root| && Uncrossed(part, edges) :: Coarsens(part, root))
  }

  lemma TracksNothing()
    ensures Tracks([], [])
  {
  }

  lemma TracksAdd(edges: seq<Edge>, root: seq<Id>)
    requires Tracks(edges, root)
    ensures Tracks(edges, root + [|root|])
  {
    var n := |root|;
    forall part: seq<nat> | |part| == n + 1 && Uncrossed(part, edges)
      ensures Coarsens(part, root + [n])
    {
      assert Uncrossed(part[..n], edges);
      assert Coarsens(part[..n], root);
      assert forall i | 0 <= i < n :: part[..n][root[i]] == part[..n][i];
    }
  }

  lemma TracksUnion(edges: seq<Edge>, root: seq<Id>, ra: Id, rb: Id, e: Edge)
    requires Tracks(edges, root) && ra < |root| && rb < |root| && root[ra] == ra && root[rb] == rb
    requires Pair(e.a, e.b, ra, rb)
    ensures Tracks(edges + [e], Merged(root, ra, rb))
  {
    forall part: seq<nat> | |part| == |root| && Uncrossed(part, edges + [e])
      ensures Coarsens(part, Merged(root, ra, rb))
    {
      assert e in edges + [e];
      assert forall d | d in edges :: d in edges + [e];
      assert Uncrossed(part, edges);
      assert Coarsens(part, root);
    }
  }

  /** Two ids share a class exactly when no uncrossed labelling parts them. */
  lemma TracksConnectivity(edges: seq<Edge>, root: seq<Id>, i: Id, j: Id)
    requires Tracks(edges, root) && i < |root| && j < |root|
    ensures root[i] == root[j] <==>
              forall part: seq<nat> | |part| == |root| && Uncrossed(part, edges) :: part[i] == part[j]
  {
    forall part: seq<nat> | |part| == |root| && Uncrossed(part, edges)
      ensures root[i] == root[j] ==> part[i] == part[j]
    {
      assert Coarsens(part, root);
      assert part[root[i]] == part[i] && part[root[j]] == part[j];
    }
  }

  /** A congruence cited names two nodes that are congruent. */
  ghost predicate Cites(root: seq<Id>, why: Justification) {
    why.Congruence? ==>
      Below(why.left, |root|) && Below(why.right, |root|) && Canon(root, why.left) == Canon(root, why.right)
  }

  /** Every union recorded is of two ids now equal, for a reason that holds. */
  ghost predicate Grounds(edges: seq<Edge>, root: seq<Id>) {
    forall e | e in edges :: e.a < |root| && e.b < |root| && root[e.a] == root[e.b] && Cites(root, e.why)
  }

  /** The record of unions is right, and complete if it was kept from the start. */
  ghost predicate Recounted(traced: bool, history: Option<seq<Edge>>, reason: Justification, root: seq<Id>) {
    && Cites(root, reason)
    && (history.Some? ==> Grounds(history.value, root))
    && (traced ==> history.Some? && Tracks(history.value, root))
  }

  lemma CitesCoarser(coarse: seq<Id>, fine: seq<Id>, why: Justification)
    requires Coarsens(coarse, fine) && Cites(fine, why)
    ensures Cites(coarse, why)
  {
    if why.Congruence? {
      CanonOfCanon(coarse, fine, why.left);
      CanonOfCanon(coarse, fine, why.right);
    }
  }

  lemma CitesMore(root: seq<Id>, more: seq<Id>, why: Justification)
    requires Cites(root, why)
    ensures Cites(root + more, why)
  {
    if why.Congruence? {
      assert MapChildren(root + more, why.left) == MapChildren(root, why.left);
      assert MapChildren(root + more, why.right) == MapChildren(root, why.right);
    }
  }

  lemma RecountedEnabled(reason: Justification, root: seq<Id>)
    requires Cites(root, reason)
    ensures Recounted(root == [], Some([]), reason, root)
  {
    TracksNothing();
  }

  lemma RecountedAdd(traced: bool, history: Option<seq<Edge>>, reason: Justification, root: seq<Id>)
    requires Recounted(traced, history, reason, root)
    ensures Recounted(traced, history, reason, root + [|root|])
  {
    CitesMore(root, [|root|], reason);
    if history.Some? {
      forall e | e in history.value
        ensures Cites(root + [|root|], e.why)
      {
        CitesMore(root, [|root|], e.why);
      }
    }
    if traced {
      TracksAdd(history.value, root);
    }
  }

  lemma RecountedUnion(traced: bool, history: Option<seq<Edge>>, reason: Justification, root: seq<Id>, ra: Id,
                       rb: Id, e: Edge)
    requires Recounted(traced, history, reason, root) && ra < |root| && rb < |root| && root[ra] == ra && root[rb] == rb
    requires Pair(e.a, e.b, ra, rb) && e.why == reason && Coarsens(Merged(root, ra, rb), root)
    ensures Recounted(traced, if history.Some? then Some(history.value + [e]) else None, reason, Merged(root, ra, rb))
  {
    var after := Merged(root, ra, rb);
    CitesCoarser(after, root, reason);
    if history.Some? {
      forall d | d in history.value + [e]
        ensures d.a < |after| && d.b < |after| && after[d.a] == after[d.b] && Cites(after, d.why)
      {
        if d in history.value {
          CitesCoarser(after, root, d.why);
        }
      }
    }
    if traced {
      TracksUnion(history.value, root, ra, rb, e);
    }
  }

  lemma RecountedBecause(traced: bool, history: Option<seq<Edge>>, reason: Justification, why: Justification,
                         root: seq<Id>)
    requires Recounted(traced, history, reason, root) && Cites(root, why)
    ensures Recounted(traced, history, why, root)
  {
  }

  lemma ReasonCites(traced: bool, history: Option<seq<Edge>>, reason: Justification, root: seq<Id>)
    requires Recounted(traced, history, reason, root)
    ensures Cites(root, reason)
  {
  }
}
