/** Union-find with path halving and union by size. */
module UnionFinds {
  import opened Lang
  import opened Powers

  /** The ids whose representative is `r`. */
  function Members(root: seq<Id>, r: Id): set<Id> {
    set i | 0 <= i < |root| && root[i] == r
  }

  /** The links around one id: its parent is nearer the representative `root`
      names, and the stored size at least doubles along the way. */
  predicate Linked(parents: seq<Id>, sizes: seq<nat>, root: seq<Id>, i: Id)
    requires |parents| == |sizes| == |root| && i < |root|
  {
    && parents[i] < |root| && root[i] < |root|
    && root[parents[i]] == root[i]
    && parents[root[i]] == root[i]
    && (root[i] == i <==> parents[i] == i)
    && 1 <= sizes[i] <= |root|
    && (parents[i] != i ==> 2 * sizes[i] <= sizes[parents[i]])
  }

  /** A stored size is exact at a representative. */
  predicate Sized(sizes: seq<nat>, root: seq<Id>, r: Id)
    requires |sizes| == |root| && r < |root|
  {
    root[r] == r ==> sizes[r] == |Members(root, r)|
  }

  /** `root` names the representative each parent chain ends at. */
  ghost predicate Forest(parents: seq<Id>, sizes: seq<nat>, root: seq<Id>) {
    && |parents| == |sizes| == |root|
    && (forall i | 0 <= i < |root| :: Linked(parents, sizes, root, i))
    && (forall r | 0 <= r < |root| :: Sized(sizes, root, r))
  }

  /** The number of links between an id and its representative. */
  ghost function Depth(parents: seq<Id>, sizes: seq<nat>, root: seq<Id>, i: Id): nat
    requires Forest(parents, sizes, root) && i < |parents|
    decreases |parents| - sizes[i]
  {
    assert Linked(parents, sizes, root, i);
    assert Linked(parents, sizes, root, parents[i]);
    if parents[i] == i then 0 else 1 + Depth(parents, sizes, root, parents[i])
  }

  /** The representative is determined by the parent links alone. */
  lemma {:induction false} RootsAreUnique(parents: seq<Id>, sizes: seq<nat>, root: seq<Id>, other: seq<Id>, i: Id)
    requires Forest(parents, sizes, root) && Forest(parents, sizes, other) && i < |parents|
    ensures root[i] == other[i]
    decreases |parents| - sizes[i]
  {
    assert Linked(parents, sizes, root, i) && Linked(parents, sizes, other, i);
    if parents[i] != i {
      assert Linked(parents, sizes, root, parents[i]);
      RootsAreUnique(parents, sizes, root, other, parents[i]);
    }
  }

  /** Every chain has at most log2(n) links. */
  lemma {:induction false} DepthIsLogarithmic(parents: seq<Id>, sizes: seq<nat>, root: seq<Id>, i: Id)
    requires Forest(parents, sizes, root) && i < |parents|
    ensures Linked(parents, sizes, root, i)
    ensures Pow2(Depth(parents, sizes, root, i)) * sizes[i] <= sizes[root[i]]
    ensures Pow2(Depth(parents, sizes, root, i)) <= |parents|
    decreases |parents| - sizes[i]
  {
    assert Linked(parents, sizes, root, i);
    assert Linked(parents, sizes, root, root[i]);
    var p := parents[i];
    var d := Depth(parents, sizes, root, i);
    if p != i {
      assert Linked(parents, sizes, root, p);
      DepthIsLogarithmic(parents, sizes, root, p);
      DoubledDepth(Depth(parents, sizes, root, p), sizes[i], sizes[p]);
    }
    TimesGrows(Pow2(d), 1, sizes[i]);
  }

  /** One link more, over a set at least twice as large. */
  lemma DoubledDepth(d: nat, below: nat, above: nat)
    requires 2 * below <= above
    ensures Pow2(d + 1) * below <= Pow2(d) * above
  {
    TimesGrows(Pow2(d), 2 * below, above);
    assert Pow2(d + 1) * below == Pow2(d) * (2 * below);
  }

  /** The partition after the class of `absorbed` joins the class of `kept`. */
  function Merged(root: seq<Id>, kept: Id, absorbed: Id): (merged: seq<Id>)
    ensures |merged| == |root|
    ensures forall i | 0 <= i < |root| :: merged[i] == if root[i] == absorbed then kept else root[i]
  {
    seq(|root|, i requires 0 <= i < |root| => if root[i] == absorbed then kept else root[i])
  }

  lemma MergedSizes(root: seq<Id>, kept: Id, absorbed: Id)
    requires kept < |root| && absorbed < |root| && kept != absorbed
    requires root[kept] == kept && root[absorbed] == absorbed
    ensures |Members(Merged(root, kept, absorbed), kept)| == |Members(root, kept)| + |Members(root, absorbed)|
    ensures |Members(root, kept)| + |Members(root, absorbed)| <= |root|
    ensures forall r | r != kept && r != absorbed :: Members(Merged(root, kept, absorbed), r) == Members(root, r)
  {
    var merged := Merged(root, kept, absorbed);
    assert Members(merged, kept) == Members(root, kept) + Members(root, absorbed);
    assert Members(root, kept) !! Members(root, absorbed);
    MembersBounded(merged, kept, |root|);
  }

  lemma {:induction false} MembersBounded(root: seq<Id>, r: Id, n: nat)
    requires n <= |root|
    ensures |set i | 0 <= i < n && root[i] == r| <= n
  {
    if n > 0 {
      MembersBounded(root, r, n - 1);
      var less := set i | 0 <= i < n - 1 && root[i] == r;
      assert (set i | 0 <= i < n && root[i] == r) == if root[n - 1] == r then less + {n - 1} else less;
    }
  }

  lemma ForestGrows(parents: seq<Id>, sizes: seq<nat>, root: seq<Id>)
    requires Forest(parents, sizes, root)
    ensures Forest(parents + [|root|], sizes + [1], root + [|root|])
  {
    var n := |root|;
    var p, s, r := parents + [n], sizes + [1], root + [n];
    forall i | 0 <= i <= n
      ensures Linked(p, s, r, i) && Sized(s, r, i)
    {
      if i < n {
        assert Linked(parents, sizes, root, i) && Sized(sizes, root, i);
        assert Members(r, i) == Members(root, i);
      } else {
        forall j | 0 <= j < n
          ensures root[j] != n
        {
          assert Linked(parents, sizes, root, j);
        }
        assert Members(r, n) == {n};
      }
    }
  }

  lemma ForestMerges(parents: seq<Id>, sizes: seq<nat>, root: seq<Id>, kept: Id, absorbed: Id)
    requires Forest(parents, sizes, root)
    requires kept < |root| && absorbed < |root| && kept != absorbed
    requires root[kept] == kept && root[absorbed] == absorbed && sizes[absorbed] <= sizes[kept]
    ensures Forest(parents[absorbed := kept], sizes[kept := sizes[kept] + sizes[absorbed]],
                   Merged(root, kept, absorbed))
  {
    var p, s, r := parents[absorbed := kept], sizes[kept := sizes[kept] + sizes[absorbed]],
                   Merged(root, kept, absorbed);
    assert Linked(parents, sizes, root, kept) && Linked(parents, sizes, root, absorbed);
    assert Sized(sizes, root, kept) && Sized(sizes, root, absorbed);
    MergedSizes(root, kept, absorbed);
    forall i | 0 <= i < |root|
      ensures Linked(p, s, r, i) && Sized(s, r, i)
    {
      assert Linked(parents, sizes, root, i) && Sized(sizes, root, i);
    }
  }

  lemma ForestRelinks(parents: seq<Id>, sizes: seq<nat>, root: seq<Id>, i: Id, above: Id)
    requires Forest(parents, sizes, root) && i < |root| && above < |root|
    requires root[i] != i && root[above] == root[i] && above != i && 2 * sizes[i] <= sizes[above]
    ensures Forest(parents[i := above], sizes, root)
  {
    var p := parents[i := above];
    assert Linked(parents, sizes, root, i) && Linked(parents, sizes, root, above);
    forall j | 0 <= j < |root|
      ensures Linked(p, sizes, root, j)
    {
      assert Linked(parents, sizes, root, j);
      assert Linked(parents, sizes, root, root[j]);
    }
  }

  lemma ForestCompresses(parents: seq<Id>, sizes: seq<nat>, root: seq<Id>, i: Id)
    requires Forest(parents, sizes, root) && i < |root|
    ensures Forest(parents[i := root[i]], sizes, root)
  {
    var r := root[i];
    DepthIsLogarithmic(parents, sizes, root, i);
    if r != i {
      assert Linked(parents, sizes, root, r);
      TimesGrows(sizes[i], 2, Pow2(Depth(parents, sizes, root, i)));
      ForestRelinks(parents, sizes, root, i, r);
    } else {
      assert parents[i := r] == parents;
    }
  }

  lemma RootsAreRoots(parents: seq<Id>, sizes: seq<nat>, root: seq<Id>, i: Id)
    requires Forest(parents, sizes, root) && i < |root|
    ensures root[i] < |root| && root[root[i]] == root[i]
  {
    assert Linked(parents, sizes, root, i);
    assert Linked(parents, sizes, root, root[i]);
  }

  lemma SizesAreExact(parents: seq<Id>, sizes: seq<nat>, root: seq<Id>, a: Id, b: Id)
    requires Forest(parents, sizes, root) && a < |root| && b < |root| && root[a] == a && root[b] == b
    ensures sizes[a] == |Members(root, a)| && sizes[b] == |Members(root, b)|
  {
    assert Sized(sizes, root, a) && Sized(sizes, root, b);
  }

  class UnionFind {
    var parents: seq<Id>
    var sizes: seq<nat>
    /** The representative of every id. */
    ghost var root: seq<Id>

    ghost predicate Valid()
      reads this
    {
      Forest(parents, sizes, root)
    }

    constructor ()
      ensures Valid() && root == []
    {
      parents, sizes, root := [], [], [];
    }

    method MakeSet() returns (id: Id)
      requires Valid()
      modifies this
      ensures Valid() && id == old(|root|) && root == old(root) + [id]
    {
      id := |parents|;
      ForestGrows(parents, sizes, root);
      parents := parents + [id];
      sizes := sizes + [1];
      root := root + [id];
    }

    /** The representative of `start`, pointing each node passed at its
        grandparent. `steps` counts the nodes passed. */
    method Find(start: Id) returns (id: Id, ghost steps: nat)
      requires Valid() && start < |root|
      modifies this`parents
      ensures Valid() && id == root[start]
      ensures Pow2(steps) <= |root|
      ensures forall i | 0 <= i < |root| :: old(parents[i]) == root[i] ==> parents[i] == root[i]
    {
      id, steps := start, 0;
      assert Linked(parents, sizes, root, id);
      while parents[id] != id
        invariant Valid() && id < |root| && root[id] == root[start]
        invariant Pow2(steps) <= sizes[id]
        invariant forall i | 0 <= i < |root| :: old(parents[i]) == root[i] ==> parents[i] == root[i]
        decreases |root| - sizes[id]
      {
        assert Linked(parents, sizes, root, id) && Linked(parents, sizes, root, parents[id]);
        var grandparent := parents[parents[id]];
        ForestRelinks(parents, sizes, root, id, grandparent);
        parents := parents[id := grandparent];
        id, steps := grandparent, steps + 1;
      }
      assert Linked(parents, sizes, root, id);
    }

    method FindImmutable(start: Id) returns (id: Id)
      requires Valid() && start < |root|
      ensures id == root[start]
    {
      id := start;
      assert Linked(parents, sizes, root, id);
      while parents[id] != id
        invariant id < |root| && root[id] == root[start]
        invariant Linked(parents, sizes, root, id)
        decreases |root| - sizes[id]
      {
        assert Linked(parents, sizes, root, parents[id]);
        id := parents[id];
      }
    }

    /** Merge two sets. The larger keeps its representative. */
    method Union(a: Id, b: Id) returns (kept: Id, absorbed: Id)
      requires Valid() && a < |root| && b < |root|
      modifies this
      ensures Valid()
      ensures Pair(kept, absorbed, old(root[a]), old(root[b]))
      ensures old(root[a]) == old(root[b]) ==> root == old(root)
      ensures old(root[a]) != old(root[b]) ==>
                root == Merged(old(root), kept, absorbed) &&
                |Members(old(root), absorbed)| <= |Members(old(root), kept)|
    {
      hide Linked, Sized, Members, Merged;
      RootsAreRoots(parents, sizes, root, a);
      RootsAreRoots(parents, sizes, root, b);
      var ra, _ := Find(a);
      var rb, _ := Find(b);
      if ra == rb {
        return ra, ra;
      }
      if sizes[ra] < sizes[rb] {
        ra, rb := rb, ra;
      }
      SizesAreExact(parents, sizes, root, ra, rb);
      ForestMerges(parents, sizes, root, ra, rb);
      parents := parents[rb := ra];
      sizes := sizes[ra := sizes[ra] + sizes[rb]];
      root := Merged(root, ra, rb);
      return ra, rb;
    }

    /** Point every id directly at its representative. */
    method CompressAll()
      requires Valid()
      modifies this`parents
      ensures Valid() && parents == root
    {
      for i := 0 to |parents|
        invariant Valid() && |parents| == old(|parents|)
        invariant forall j | 0 <= j < i :: parents[j] == root[j]
      {
        var r, _ := Find(i);
        ForestCompresses(parents, sizes, root, i);
        parents := parents[i := r];
      }
    }
  }
}
