/** Why two ids are equal: a shortest chain of recorded unions between them. */
module Explanations {
  import opened Options
  import opened Lang
  import opened UnionFinds
  import opened Graphs
  import opened Histories
  import opened Reindexing
  import opened EGraphs

  /** How far a derivation unfolds congruences into their arguments. */
  const MAX_EXPLAIN_DEPTH := 6

  // ----- walks along the record -----

  /** One recorded union, in the direction it is walked. */
  datatype Hop = Hop(from: Id, to: Id, edge: nat)

  predicate Joins(edges: seq<Edge>, i: nat, x: Id, y: Id) {
    i < |edges| && Pair(edges[i].a, edges[i].b, x, y)
  }

  /** The hops lead from `a` to `b`. */
  predicate IsWalk(edges: seq<Edge>, hops: seq<Hop>, a: Id, b: Id)
    decreases |hops|
  {
    if hops == [] then a == b
    else
      var last := hops[|hops| - 1];
      last.to == b && Joins(edges, last.edge, last.from, last.to) && IsWalk(edges, hops[..|hops| - 1], a, last.from)
  }

  /** No walk between the two is shorter. */
  ghost predicate Shortest(edges: seq<Edge>, n: nat, a: Id, b: Id) {
    forall hops | IsWalk(edges, hops, a, b) :: n <= |hops|
  }

  lemma {:induction false} PrependWalk(edges: seq<Edge>, hop: Hop, hops: seq<Hop>, b: Id)
    requires Joins(edges, hop.edge, hop.from, hop.to) && IsWalk(edges, hops, hop.to, b)
    ensures IsWalk(edges, [hop] + hops, hop.from, b)
    decreases |hops|
  {
    var all := [hop] + hops;
    if hops == [] {
      assert all[..0] == [];
    } else {
      PrependWalk(edges, hop, hops[..|hops| - 1], hops[|hops| - 1].from);
      assert all[..|all| - 1] == [hop] + hops[..|hops| - 1];
    }
  }

  // ----- breadth first -----

  /** The edges each id is an end of. */
  method Adjacency(edges: seq<Edge>) returns (adjacency: map<Id, seq<nat>>)
    ensures forall x: Id, i: nat :: Meets(adjacency, x, i) <==> i < |edges| && (edges[i].a == x || edges[i].b == x)
  {
    adjacency := map[];
    for i := 0 to |edges|
      invariant forall x: Id, j: nat :: Meets(adjacency, x, j) <==> j < i && (edges[j].a == x || edges[j].b == x)
    {
      adjacency := PushEdge(adjacency, edges[i].a, i);
      adjacency := PushEdge(adjacency, edges[i].b, i);
    }
  }

  predicate Meets(adjacency: map<Id, seq<nat>>, x: Id, i: nat) {
    x in adjacency && i in adjacency[x]
  }

  function PushEdge(adjacency: map<Id, seq<nat>>, x: Id, i: nat): (more: map<Id, seq<nat>>)
    ensures forall y: Id, j: nat :: Meets(more, y, j) <==> Meets(adjacency, y, j) || (y == x && j == i)
  {
    adjacency[x := (if x in adjacency then adjacency[x] else []) + [i]]
  }

  /** The search: what has been seen, what is still to be expanded, the hop each id
      was reached by, and how many hops that took. */
  datatype Search = Search(seen: set<Id>, queue: seq<Id>, came: map<Id, Hop>, dist: map<Id, nat>)

  /** Everything seen was reached, from something one hop nearer. */
  predicate Reached(edges: seq<Edge>, s: Search, x: Id)
    requires s.dist.Keys == s.seen && x in s.seen
  {
    && x in s.came && s.came[x].to == x && Joins(edges, s.came[x].edge, s.came[x].from, x)
    && s.came[x].from in s.seen && s.dist[x] == s.dist[s.came[x].from] + 1
  }

  predicate Tree(edges: seq<Edge>, a: Id, s: Search) {
    && s.dist.Keys == s.seen && a in s.seen && s.dist[a] == 0
    && (forall x | x in s.seen && x != a :: Reached(edges, s, x))
  }

  /** The queue is in order of distance, and spans two distances at most. */
  predicate Layered(s: Search) {
    && s.dist.Keys == s.seen && (forall x | x in s.queue :: x in s.seen)
    && (forall i, j | 0 <= i <= j < |s.queue| :: s.dist[s.queue[i]] <= s.dist[s.queue[j]] <= s.dist[s.queue[0]] + 1)
  }

  /** Every neighbour has been seen, one hop further at most. */
  ghost predicate Expanded(edges: seq<Edge>, s: Search, x: Id)
    requires s.dist.Keys == s.seen && x in s.seen
  {
    forall i: nat, y: Id | Joins(edges, i, x, y) :: y in s.seen && s.dist[y] <= s.dist[x] + 1
  }

  /** What is not queued has been expanded, and is no further than what is. */
  ghost predicate Settled(edges: seq<Edge>, s: Search)
    requires s.dist.Keys == s.seen && forall x | x in s.queue :: x in s.seen
  {
    forall x | x in s.seen && x !in s.queue ::
      Expanded(edges, s, x) && (s.queue != [] ==> s.dist[x] <= s.dist[s.queue[0]])
  }

  ghost predicate Searching(edges: seq<Edge>, a: Id, s: Search) {
    Tree(edges, a, s) && Layered(s) && Settled(edges, s)
  }

  /** Walks no longer than the distance of the front end in what has been seen, as
      near as the walk is long. */
  lemma {:induction false} WalksAreFollowed(edges: seq<Edge>, a: Id, s: Search, hops: seq<Hop>, x: Id)
    requires Searching(edges, a, s) && IsWalk(edges, hops, a, x)
    requires s.queue == [] || |hops| <= s.dist[s.queue[0]]
    ensures x in s.seen && s.dist[x] <= |hops|
    decreases |hops|
  {
    if hops != [] {
      var last := hops[|hops| - 1];
      WalksAreFollowed(edges, a, s, hops[..|hops| - 1], last.from);
      FrontBounds(s, last.from);
      assert Expanded(edges, s, last.from);
    }
  }

  lemma FrontBounds(s: Search, y: Id)
    requires Layered(s)
    ensures y in s.queue ==> s.dist[s.queue[0]] <= s.dist[y] <= s.dist[s.queue[0]] + 1
  {
  }

  /** An id at the front of the queue is reached by a shortest walk. */
  lemma FrontIsNearest(edges: seq<Edge>, a: Id, s: Search, b: Id)
    requires Searching(edges, a, s) && s.queue != [] && s.queue[0] == b
    ensures b in s.seen && Shortest(edges, s.dist[b], a, b)
  {
    forall hops | IsWalk(edges, hops, a, b)
      ensures s.dist[b] <= |hops|
    {
      if |hops| < s.dist[b] {
        WalksAreFollowed(edges, a, s, hops, b);
      }
    }
  }

  /** A search that is over has seen everything a walk reaches. */
  lemma OverIsComplete(edges: seq<Edge>, a: Id, s: Search, b: Id)
    requires Searching(edges, a, s) && s.queue == [] && b !in s.seen
    ensures forall hops :: !IsWalk(edges, hops, a, b)
  {
    forall hops
      ensures !IsWalk(edges, hops, a, b)
    {
      if IsWalk(edges, hops, a, b) {
        WalksAreFollowed(edges, a, s, hops, b);
        assert false;
      }
    }
  }

  function Other(e: Edge, x: Id): Id {
    if e.a == x then e.b else e.a
  }

  /** What expanding `x` over some edges adds: each unseen neighbour once, queued and
      reached from `x`. */
  ghost predicate ExpandedBy(edges: seq<Edge>, x: Id, around: seq<nat>, s: Search, seen: set<Id>, queue: seq<Id>,
                             came: map<Id, Hop>) {
    && s.seen <= seen && |queue| >= |s.queue| && queue[..|s.queue|] == s.queue
    && (forall i | |s.queue| <= i < |queue| :: queue[i] in seen && queue[i] !in s.seen)
    && (forall y | y in seen && y !in s.seen :: y in queue[|s.queue|..] && NewlyReached(edges, came, x, y))
    && (forall y | y in s.came && y in s.seen :: y in came && came[y] == s.came[y])
    && (forall i | i in around && i < |edges| :: Other(edges[i], x) in seen)
  }

  predicate NewlyReached(edges: seq<Edge>, came: map<Id, Hop>, x: Id, y: Id) {
    y in came && came[y].from == x && came[y].to == y && Joins(edges, came[y].edge, x, y)
  }

  /** Reach the neighbours of `x` not seen yet. */
  method Expand(edges: seq<Edge>, x: Id, around: seq<nat>, ghost s: Search, seen0: set<Id>, queue0: seq<Id>,
                came0: map<Id, Hop>)
    returns (seen: set<Id>, queue: seq<Id>, came: map<Id, Hop>)
    requires seen0 == s.seen && queue0 == s.queue && came0 == s.came && x in seen0
    requires forall i | i in around :: i < |edges| && (edges[i].a == x || edges[i].b == x)
    ensures ExpandedBy(edges, x, around, s, seen, queue, came)
  {
    seen, queue, came := seen0, queue0, came0;
    for k := 0 to |around|
      invariant ExpandedBy(edges, x, around[..k], s, seen, queue, came)
    {
      assert around[k] in around;
      var next := Other(edges[around[k]], x);
      assert around[..k + 1] == around[..k] + [around[k]];
      if next !in seen {
        ReachOne(edges, x, around[..k], around[k], s, seen, queue, came);
        seen := seen + {next};
        came := came[next := Hop(x, next, around[k])];
        queue := queue + [next];
      }
    }
    assert around[..|around|] == around;
  }

  lemma ReachOne(edges: seq<Edge>, x: Id, around: seq<nat>, i: nat, s: Search, seen: set<Id>, queue: seq<Id>,
                 came: map<Id, Hop>)
    requires ExpandedBy(edges, x, around, s, seen, queue, came) && x in s.seen
    requires i < |edges| && (edges[i].a == x || edges[i].b == x) && Other(edges[i], x) !in seen
    ensures var next := Other(edges[i], x);
            ExpandedBy(edges, x, around + [i], s, seen + {next}, queue + [next], came[next := Hop(x, next, i)])
  {
    var next := Other(edges[i], x);
    assert (queue + [next])[|s.queue|..] == queue[|s.queue|..] + [next];
  }

  /** The distances after `x` was expanded. */
  function Farther(s: Search, x: Id, seen: set<Id>): (dist: map<Id, nat>)
    requires s.dist.Keys == s.seen && s.seen <= seen && x in s.seen
    ensures dist.Keys == seen
    ensures forall y | y in seen :: dist[y] == if y in s.seen then s.dist[y] else s.dist[x] + 1
  {
    map y | y in seen :: if y in s.seen then s.dist[y] else s.dist[x] + 1
  }

  /** Expanding the front keeps the search going. */
  lemma ExpandKeeps(edges: seq<Edge>, a: Id, s: Search, around: seq<nat>, seen: set<Id>, queue: seq<Id>,
                    came: map<Id, Hop>)
    requires Searching(edges, a, s) && s.queue != []
    requires forall i: nat :: i in around <==> i < |edges| && (edges[i].a == s.queue[0] || edges[i].b == s.queue[0])
    requires ExpandedBy(edges, s.queue[0], around, s.(queue := s.queue[1..]), seen, queue, came)
    ensures Searching(edges, a, Search(seen, queue, came, Farther(s, s.queue[0], seen)))
  {
    hide Settled, IsWalk;
    var t := Search(seen, queue, came, Farther(s, s.queue[0], seen));
    ExpandTree(edges, a, s, around, seen, queue, came);
    ExpandLayered(edges, a, s, around, seen, queue, came);
    ExpandSettled(edges, a, s, around, seen, queue, came);
  }

  lemma ExpandTree(edges: seq<Edge>, a: Id, s: Search, around: seq<nat>, seen: set<Id>, queue: seq<Id>, came: map<Id,
                   Hop>)
    requires Tree(edges, a, s) && Layered(s) && s.queue != []
    requires ExpandedBy(edges, s.queue[0], around, s.(queue := s.queue[1..]), seen, queue, came)
    ensures Tree(edges, a, Search(seen, queue, came, Farther(s, s.queue[0], seen)))
  {
    var t := Search(seen, queue, came, Farther(s, s.queue[0], seen));
    forall x | x in seen && x != a
      ensures Reached(edges, t, x)
    {
      if x in s.seen {
        assert Reached(edges, s, x);
      } else {
        assert NewlyReached(edges, came, s.queue[0], x);
      }
    }
  }

  lemma ExpandLayered(edges: seq<Edge>, a: Id, s: Search, around: seq<nat>, seen: set<Id>, queue: seq<Id>,
                      came: map<Id, Hop>)
    requires Tree(edges, a, s) && Layered(s) && s.queue != []
    requires ExpandedBy(edges, s.queue[0], around, s.(queue := s.queue[1..]), seen, queue, came)
    ensures Layered(Search(seen, queue, came, Farther(s, s.queue[0], seen)))
  {
    var t := Search(seen, queue, came, Farther(s, s.queue[0], seen));
    var n := |s.queue| - 1;
    forall i | 0 <= i < |queue|
      ensures queue[i] in seen
      ensures t.dist[queue[i]] == if i < n then s.dist[s.queue[i + 1]] else s.dist[s.queue[0]] + 1
      ensures s.dist[s.queue[0]] <= t.dist[queue[i]] <= s.dist[s.queue[0]] + 1
    {
      if i < n {
        assert queue[i] == queue[..n][i] == s.queue[i + 1];
        assert s.queue[i + 1] in s.queue;
      }
    }
    forall i, j | 0 <= i <= j < |queue|
      ensures t.dist[queue[i]] <= t.dist[queue[j]] <= t.dist[queue[0]] + 1
    {
      if j < n {
        assert s.dist[s.queue[i + 1]] <= s.dist[s.queue[j + 1]];
      }
    }
  }

  lemma ExpandSettled(edges: seq<Edge>, a: Id, s: Search, around: seq<nat>, seen: set<Id>, queue: seq<Id>,
                      came: map<Id, Hop>)
    requires Tree(edges, a, s) && Layered(s) && Settled(edges, s) && s.queue != []
    requires forall i: nat :: i in around <==> i < |edges| && (edges[i].a == s.queue[0] || edges[i].b == s.queue[0])
    requires ExpandedBy(edges, s.queue[0], around, s.(queue := s.queue[1..]), seen, queue, came)
    requires Layered(Search(seen, queue, came, Farther(s, s.queue[0], seen)))
    ensures Settled(edges, Search(seen, queue, came, Farther(s, s.queue[0], seen)))
  {
    var t := Search(seen, queue, came, Farther(s, s.queue[0], seen));
    FrontIsExpanded(edges, s, around, seen, queue, came);
    forall x | x in t.seen && x !in t.queue
      ensures Expanded(edges, t, x) && (t.queue != [] ==> t.dist[x] <= t.dist[t.queue[0]])
    {
      NotQueued(edges, s, around, seen, queue, came, x);
      if x != s.queue[0] {
        assert Expanded(edges, s, x);
      }
      if t.queue != [] {
        FirstIsFar(edges, s, around, seen, queue, came);
      }
    }
  }

  lemma FrontIsExpanded(edges: seq<Edge>, s: Search, around: seq<nat>, seen: set<Id>, queue: seq<Id>, came: map<Id,
                        Hop>)
    requires Layered(s) && Settled(edges, s) && s.queue != []
    requires forall i: nat :: i in around <==> i < |edges| && (edges[i].a == s.queue[0] || edges[i].b == s.queue[0])
    requires ExpandedBy(edges, s.queue[0], around, s.(queue := s.queue[1..]), seen, queue, came)
    ensures s.queue[0] in seen && Expanded(edges, Search(seen, queue, came, Farther(s, s.queue[0], seen)), s.queue[0])
  {
    hide Expanded;
    var t := Search(seen, queue, came, Farther(s, s.queue[0], seen));
    var x := s.queue[0];
    forall i: nat, y: Id | Joins(edges, i, x, y)
      ensures y in t.seen && t.dist[y] <= t.dist[x] + 1
    {
      assert i in around && Other(edges[i], x) == y;
      FrontBounds(s, y);
    }
    NeighboursExpand(edges, t, x);
  }

  lemma NeighboursExpand(edges: seq<Edge>, s: Search, x: Id)
    requires s.dist.Keys == s.seen && x in s.seen
    requires forall i: nat, y: Id | Joins(edges, i, x, y) :: y in s.seen && s.dist[y] <= s.dist[x] + 1
    ensures Expanded(edges, s, x)
  {
  }

  /** What is seen and not queued any more was seen before. */
  lemma NotQueued(edges: seq<Edge>, s: Search, around: seq<nat>, seen: set<Id>, queue: seq<Id>, came: map<Id, Hop>,
                  x: Id)
    requires s.queue != [] && ExpandedBy(edges, s.queue[0], around, s.(queue := s.queue[1..]), seen, queue, came)
    requires x in seen && x !in queue
    ensures x in s.seen && (x == s.queue[0] || x !in s.queue)
  {
    assert s.queue == [s.queue[0]] + s.queue[1..];
    assert queue == queue[..|s.queue| - 1] + queue[|s.queue| - 1..];
  }

  /** The new front is no nearer than the old. */
  lemma FirstIsFar(edges: seq<Edge>, s: Search, around: seq<nat>, seen: set<Id>, queue: seq<Id>, came: map<Id, Hop>)
    requires Layered(s) && s.queue != [] && queue != []
    requires ExpandedBy(edges, s.queue[0], around, s.(queue := s.queue[1..]), seen, queue, came)
    ensures queue[0] in seen && Farther(s, s.queue[0], seen)[queue[0]] >= s.dist[s.queue[0]]
  {
    if |s.queue| > 1 {
      assert queue[0] == queue[..|s.queue| - 1][0] == s.queue[1];
      assert s.queue[1] in s.queue;
    }
  }

  /** Everything the record mentions. */
  ghost function Mentioned(edges: seq<Edge>, a: Id): (ids: set<Id>)
    ensures a in ids && forall e | e in edges :: e.a in ids && e.b in ids
  {
    {a} + (set e | e in edges :: e.a) + (set e | e in edges :: e.b)
  }

  /** What the search knows when `b` comes up, or never does. */
  ghost predicate Answered(edges: seq<Edge>, a: Id, b: Id, found: bool, s: Search) {
    && (found ==> Tree(edges, a, s) && b in s.seen && Shortest(edges, s.dist[b], a, b))
    && (!found ==> forall hops :: !IsWalk(edges, hops, a, b))
  }

  lemma StartSearch(edges: seq<Edge>, a: Id)
    ensures Searching(edges, a, Search({a}, [a], map[], map[a := 0]))
  {
  }

  /** Search breadth first from `a`, recording the hop each id was reached by. */
  method FindPath(edges: seq<Edge>, a: Id, b: Id) returns (found: bool, came: map<Id, Hop>, ghost s: Search)
    ensures Answered(edges, a, b, found, s) && came == s.came
  {
    hide Searching, Tree, IsWalk, Shortest, Meets;
    var adjacency := Adjacency(edges);
    var seen, queue := {a}, [a];
    came := map[];
    s := Search({a}, [a], map[], map[a := 0]);
    StartSearch(edges, a);
    ghost var all := Mentioned(edges, a);
    while queue != []
      invariant Searching(edges, a, s) && s.seen == seen && s.queue == queue && s.came == came
      invariant b in seen ==> b in queue
      invariant seen <= all
      decreases all - seen, |queue|
    {
      var current := queue[0];
      if current == b {
        FrontAnswers(edges, a, s, b);
        return true, came, s;
      }
      var around := if current in adjacency then adjacency[current] else [];
      AroundIsAll(edges, adjacency, current, around);
      FrontIsSeen(edges, a, s);
      ghost var rest := s.(queue := queue[1..]);
      ghost var before := queue;
      seen, queue, came := Expand(edges, current, around, rest, seen, queue[1..], came);
      ExpandKeeps(edges, a, s, around, seen, queue, came);
      StillQueued(edges, before, around, rest, seen, queue, came, b);
      NewIsMentioned(edges, a, current, around, rest, seen, queue, came);
      s := Search(seen, queue, came, Farther(s, current, seen));
    }
    found := false;
    if b in seen {
      assert false;
    }
    OverIsComplete(edges, a, s, b);
  }

  lemma FrontAnswers(edges: seq<Edge>, a: Id, s: Search, b: Id)
    requires Searching(edges, a, s) && s.queue != [] && s.queue[0] == b
    ensures Answered(edges, a, b, true, s)
  {
    FrontIsNearest(edges, a, s, b);
  }

  lemma FrontIsSeen(edges: seq<Edge>, a: Id, s: Search)
    requires Searching(edges, a, s) && s.queue != []
    ensures s.queue[0] in s.seen && s.dist.Keys == s.seen
  {
  }

  lemma AroundIsAll(edges: seq<Edge>, adjacency: map<Id, seq<nat>>, x: Id, around: seq<nat>)
    requires forall y: Id, i: nat :: Meets(adjacency, y, i) <==> i < |edges| && (edges[i].a == y || edges[i].b == y)
    requires around == if x in adjacency then adjacency[x] else []
    ensures forall i: nat :: i in around <==> i < |edges| && (edges[i].a == x || edges[i].b == x)
  {
    forall i: nat
      ensures i in around <==> i < |edges| && (edges[i].a == x || edges[i].b == x)
    {
      assert Meets(adjacency, x, i) <==> i in around;
    }
  }

  /** The target waits in the queue from when it is seen. */
  lemma StillQueued(edges: seq<Edge>, before: seq<Id>, around: seq<nat>, s: Search, seen: set<Id>, queue: seq<Id>,
                    came: map<Id, Hop>, b: Id)
    requires before != [] && before[0] != b && s.queue == before[1..]
    requires ExpandedBy(edges, before[0], around, s, seen, queue, came) && (b in s.seen ==> b in before)
    ensures b in seen ==> b in queue
  {
    if b in seen {
      if b in s.seen {
        var i :| 0 <= i < |before| && before[i] == b;
        assert queue[..|s.queue|][i - 1] == b;
      } else {
        assert b in queue[|s.queue|..];
      }
    }
  }

  lemma NewIsMentioned(edges: seq<Edge>, a: Id, x: Id, around: seq<nat>, s: Search, seen: set<Id>, queue: seq<Id>,
                       came: map<Id, Hop>)
    requires ExpandedBy(edges, x, around, s, seen, queue, came) && s.seen <= Mentioned(edges, a)
    ensures seen <= Mentioned(edges, a) && (seen == s.seen ==> |queue| == |s.queue|)
  {
    forall y | y in seen
      ensures y in Mentioned(edges, a)
    {
      if y !in s.seen {
        assert NewlyReached(edges, came, x, y);
        assert edges[came[y].edge] in edges;
      }
    }
    assert |queue| > |s.queue| ==> queue[|s.queue|] in seen && queue[|s.queue|] !in s.seen;
  }

  /** Follow the hops back from `b`. */
  method WalkBack(edges: seq<Edge>, a: Id, b: Id, came: map<Id, Hop>, ghost s: Search) returns (hops: seq<Hop>)
    requires Tree(edges, a, s) && b in s.seen && came == s.came
    ensures IsWalk(edges, hops, a, b) && |hops| == s.dist[b]
  {
    hide IsWalk;
    hops := [];
    var at := b;
    assert IsWalk(edges, [], b, b) by {
      NoWalk(edges, b);
    }
    while at != a
      invariant at in s.seen && IsWalk(edges, hops, at, b) && s.dist[b] == |hops| + s.dist[at]
      decreases s.dist[at]
    {
      assert Reached(edges, s, at);
      var hop := came[at];
      PrependWalk(edges, hop, hops, b);
      hops := [hop] + hops;
      at := hop.from;
    }
  }

  lemma NoWalk(edges: seq<Edge>, b: Id)
    ensures IsWalk(edges, [], b, b)
  {
  }

  // ----- derivations -----

  datatype Explanation = Explanation(steps: seq<Step>)

  /** One link: the union, and for a congruence why arguments that differ are equal. */
  datatype Step = Step(why: Justification, from: Id, to: Id, because: seq<(nat, Explanation)>)

  function StraightPairs(left: ENode, right: ENode): (pairs: seq<(Id, Id)>)
    ensures |pairs| == if |left.children| < |right.children| then |left.children| else |right.children|
    ensures forall k | 0 <= k < |pairs| :: pairs[k] == (left.children[k], right.children[k])
  {
    var n := if |left.children| < |right.children| then |left.children| else |right.children|;
    seq(n, k requires 0 <= k < n => (left.children[k], right.children[k]))
  }

  predicate Agree(root: seq<Id>, pairs: seq<(Id, Id)>) {
    forall k | 0 <= k < |pairs| :: pairs[k].0 < |root| && pairs[k].1 < |root| && root[pairs[k].0] == root[pairs[k].1]
  }

  /** The arguments of two congruent nodes, matched up: by position, unless only the
      swapped order agrees. */
  function PairsOf(root: seq<Id>, left: ENode, right: ENode): seq<(Id, Id)> {
    var straight := StraightPairs(left, right);
    if !left.op.IsCommutative() || |left.children| != 2 || |right.children| != 2 || Agree(root, straight) then straight
    else
      var swapped := [(left.children[0], right.children[1]), (left.children[1], right.children[0])];
      if Agree(root, swapped) then swapped else straight
  }

  /** The arguments of a cited congruence are equal as they are matched up. */
  lemma PairsAgree(root: seq<Id>, left: ENode, right: ENode)
    requires Cites(root, Congruence(left, right))
    ensures Agree(root, PairsOf(root, left, right)) && |PairsOf(root, left, right)| == |left.children|
  {
    hide Canon;
    CanonDecidesCongruence(root, left, right);
    if forall k | 0 <= k < |left.children| :: root[left.children[k]] == root[right.children[k]] {
      assert Agree(root, StraightPairs(left, right));
    } else {
      assert Agree(root, [(left.children[0], right.children[1]), (left.children[1], right.children[0])]);
    }
  }

  function Key(a: Id, b: Id): (Id, Id) {
    if a <= b then (a, b) else (b, a)
  }

  ghost predicate Walkable(edges: seq<Edge>, a: Id, x: Id) {
    exists hops :: IsWalk(edges, hops, a, x)
  }

  /** Two arguments are to be derived: they differ, are joined by recorded
      unions and not being derived already, and there is depth left. */
  ghost predicate IsDue(edges: seq<Edge>, pair: (Id, Id), depth: nat, stack: seq<(Id, Id)>) {
    pair.0 != pair.1 && depth > 0 && Key(pair.0, pair.1) !in stack && Walkable(edges, pair.0, pair.1)
  }

  ghost predicate Lists(because: seq<(nat, Explanation)>, k: nat) {
    exists p :: p in because && p.0 == k
  }

  /** The derivation is a shortest chain of recorded unions from `a` to `b`, each with
      its recorded reason, congruences unfolded by derivations of their arguments. */
  ghost predicate Derives(edges: seq<Edge>, root: seq<Id>, x: Explanation, a: Id, b: Id, depth: nat,
                          stack: seq<(Id, Id)>)
    decreases x
  {
    && Shortest(edges, |x.steps|, a, b)
    && (exists hops :: IsWalk(edges, hops, a, b) && Spells(edges, hops, x.steps))
    && (forall s | s in x.steps :: Unfolds(edges, root, s, if depth == 0 then 0 else depth - 1, stack + [Key(a, b)]))
  }

  /** Every argument pair of a congruence that is due is derived, and whatever is
      listed is the derivation of one. */
  ghost predicate Unfolds(edges: seq<Edge>, root: seq<Id>, s: Step, depth: nat, stack: seq<(Id, Id)>)
    decreases s
  {
    && (s.why.Congruence? ==>
          forall k: nat | k < |PairsOf(root, s.why.left, s.why.right)| ::
            IsDue(edges, PairsOf(root, s.why.left, s.why.right)[k], depth, stack) ==> Lists(s.because, k))
    && forall p | p in s.because ::
         && s.why.Congruence? && p.0 < |PairsOf(root, s.why.left, s.why.right)| && p.1.steps != []
         && Derives(edges, root, p.1, PairsOf(root, s.why.left, s.why.right)[p.0].0,
                    PairsOf(root, s.why.left, s.why.right)[p.0].1, depth, stack)
  }

  /** The steps are the hops, with the reasons recorded for them. */
  predicate Spells(edges: seq<Edge>, hops: seq<Hop>, steps: seq<Step>) {
    && |hops| == |steps|
    && (forall k | 0 <= k < |hops| ::
          && hops[k].edge < |edges| && steps[k].why == edges[hops[k].edge].why
          && steps[k].from == hops[k].from && steps[k].to == hops[k].to)
  }

  /** A derivation of one id from another, if they are equal and the record says why. */
  method Explain(e: EGraph, a: Id, b: Id) returns (x: Option<Explanation>)
    requires e.Valid() && a < |e.unionfind.root| && b < |e.unionfind.root|
    ensures x.Some? ==> e.history.Some? && e.unionfind.root[a] == e.unionfind.root[b]
    ensures x.Some? ==> Derives(e.history.value, e.unionfind.root, x.value, a, b, MAX_EXPLAIN_DEPTH, [])
    ensures e.traced ==> (x.Some? <==> e.unionfind.root[a] == e.unionfind.root[b])
  {
    hide Forest, Steps.Settled, NodeTotal, Occupied, Rebuilt, Bookkept, Recounted, Derives;
    x := ExplainWithin(e, a, b, MAX_EXPLAIN_DEPTH, []);
    HistoryIsKept(e.traced, e.history, e.reason, e.unionfind.root);
  }

  lemma HistoryIsKept(traced: bool, history: Option<seq<Edge>>, reason: Justification, root: seq<Id>)
    requires Recounted(traced, history, reason, root)
    ensures traced ==> history.Some?
    ensures history.Some? ==> Grounds(history.value, root)
  {
  }

  /** Equal ids of a record kept from the start are joined by a walk. */
  lemma EqualIdsAreJoined(edges: seq<Edge>, root: seq<Id>, a: Id, b: Id, found: bool, s: Search)
    requires Tracks(edges, root) && a < |root| && b < |root| && root[a] == root[b] && Answered(edges, a, b, found, s)
    ensures found
  {
    EqualIdsAreWalkable(edges, root, a, b);
    var hops :| IsWalk(edges, hops, a, b);
  }

  lemma EqualIdsAreWalkable(edges: seq<Edge>, root: seq<Id>, a: Id, b: Id)
    requires Tracks(edges, root) && a < |root| && b < |root| && root[a] == root[b]
    ensures Walkable(edges, a, b)
  {
    var part := Sides(edges, a, |root|);
    SidesUncrossed(edges, a, |root|);
    assert Coarsens(part, root);
    assert part[root[a]] == part[a] && part[root[b]] == part[b];
    assert IsWalk(edges, [], a, a);
    assert Walkable(edges, a, a);
  }

  /** What a walk reaches from `a`, labelled apart from what none does. */
  ghost function Sides(edges: seq<Edge>, a: Id, n: nat): (part: seq<nat>)
    ensures |part| == n && forall x: Id | x < n :: part[x] == if Walkable(edges, a, x) then 1 else 0
  {
    seq(n, x requires 0 <= x < n => if Walkable(edges, a, x) then 1 else 0)
  }

  lemma SidesUncrossed(edges: seq<Edge>, a: Id, n: nat)
    requires forall e | e in edges :: e.a < n && e.b < n
    ensures Uncrossed(Sides(edges, a, n), edges)
  {
    forall e | e in edges
      ensures Sides(edges, a, n)[e.a] == Sides(edges, a, n)[e.b]
    {
      var i :| 0 <= i < |edges| && edges[i] == e;
      if Walkable(edges, a, e.a) {
        var hops :| IsWalk(edges, hops, a, e.a);
        OneMoreHop(edges, hops, a, Hop(e.a, e.b, i));
      }
      if Walkable(edges, a, e.b) {
        var hops :| IsWalk(edges, hops, a, e.b);
        OneMoreHop(edges, hops, a, Hop(e.b, e.a, i));
      }
    }
  }

  lemma OneMoreHop(edges: seq<Edge>, hops: seq<Hop>, a: Id, hop: Hop)
    requires IsWalk(edges, hops, a, hop.from) && Joins(edges, hop.edge, hop.from, hop.to)
    ensures IsWalk(edges, hops + [hop], a, hop.to)
  {
    assert (hops + [hop])[..|hops|] == hops;
  }

  /** The same, cut off at a depth and at pairs being explained already. */
  method ExplainWithin(e: EGraph, a: Id, b: Id, depth: nat, stack: seq<(Id, Id)>) returns (x: Option<Explanation>)
    requires e.Core() && a < |e.unionfind.root| && b < |e.unionfind.root|
    ensures x.Some? ==> e.history.Some? && e.unionfind.root[a] == e.unionfind.root[b]
    ensures x.Some? && (x.value.steps != [] || a == b) ==>
              Derives(e.history.value, e.unionfind.root, x.value, a, b, depth, stack)
    ensures x.Some? && a != b && depth > 0 && Key(a, b) !in stack ==> x.value.steps != []
    ensures e.history.Some? && e.unionfind.root[a] == e.unionfind.root[b] && Walkable(e.history.value, a, b) ==> x.Some?
    ensures e.traced && e.unionfind.root[a] == e.unionfind.root[b] ==> x.Some?
    decreases depth, 3
  {
    hide Forest, NodeTotal, Occupied, Bookkept, Recounted, Derives, IsWalk, Answered, Tree, Tracks, Grounds;
    HistoryIsKept(e.traced, e.history, e.reason, e.unionfind.root);
    if e.history.None? {
      return None;
    }
    var edges := e.history.value;
    var ra := e.Find(a);
    var rb := e.Find(b);
    if ra != rb {
      return None;
    }
    if a == b {
      NothingToDerive(edges, e.unionfind.root, a, depth, stack);
      return Some(Explanation([]));
    }
    if depth == 0 || Key(a, b) in stack {
      return Some(Explanation([]));
    }
    ghost var s;
    var found, came;
    found, came, s := FindPath(edges, a, b);
    if Walkable(edges, a, b) {
      WalkableIsFound(edges, a, b, found, s);
    }
    if e.traced {
      TracedIsJoined(e.traced, e.history, e.reason, e.unionfind.root, a, b, found, s);
    }
    if !found {
      return None;
    }
    FoundIsTree(edges, a, b, s);
    var hops := WalkBack(edges, a, b, came, s);
    var steps := Unfold(e, edges, hops, a, b, depth, stack + [Key(a, b)]);
    WalkMoves(edges, hops, a, b);
    StepsDerive(edges, e.unionfind.root, hops, steps, a, b, depth, stack);
    x := Some(Explanation(steps));
  }

  lemma NothingToDerive(edges: seq<Edge>, root: seq<Id>, a: Id, depth: nat, stack: seq<(Id, Id)>)
    ensures Derives(edges, root, Explanation([]), a, a, depth, stack)
  {
    assert IsWalk(edges, [], a, a) && Spells(edges, [], []);
  }

  lemma WalkableIsFound(edges: seq<Edge>, a: Id, b: Id, found: bool, s: Search)
    requires Walkable(edges, a, b) && Answered(edges, a, b, found, s)
    ensures found
  {
    var hops :| IsWalk(edges, hops, a, b);
  }

  lemma TracedIsJoined(traced: bool, history: Option<seq<Edge>>, reason: Justification, root: seq<Id>, a: Id, b: Id,
                       found: bool, s: Search)
    requires Recounted(traced, history, reason, root) && traced && a < |root| && b < |root| && root[a] == root[b]
    requires history.Some? && Answered(history.value, a, b, found, s)
    ensures found
  {
    EqualIdsAreJoined(history.value, root, a, b, found, s);
  }

  lemma FoundIsTree(edges: seq<Edge>, a: Id, b: Id, s: Search)
    requires Answered(edges, a, b, true, s)
    ensures Tree(edges, a, s) && s.dist.Keys == s.seen && b in s.seen && Shortest(edges, s.dist[b], a, b)
  {
  }

  lemma WalkMoves(edges: seq<Edge>, hops: seq<Hop>, a: Id, b: Id)
    requires IsWalk(edges, hops, a, b) && a != b
    ensures hops != []
  {
  }

  lemma {:induction false} HopIsRecorded(edges: seq<Edge>, hops: seq<Hop>, a: Id, b: Id, k: nat)
    requires IsWalk(edges, hops, a, b) && k < |hops|
    ensures hops[k].edge < |edges|
    decreases |hops|
  {
    if k < |hops| - 1 {
      HopIsRecorded(edges, hops[..|hops| - 1], a, hops[|hops| - 1].from, k);
    }
  }

  lemma StepsDerive(edges: seq<Edge>, root: seq<Id>, hops: seq<Hop>, steps: seq<Step>, a: Id, b: Id, depth: nat,
                    stack: seq<(Id, Id)>)
    requires IsWalk(edges, hops, a, b) && Shortest(edges, |hops|, a, b) && Spells(edges, hops, steps) && depth > 0
    requires forall s | s in steps :: Unfolds(edges, root, s, depth - 1, stack + [Key(a, b)])
    ensures Derives(edges, root, Explanation(steps), a, b, depth, stack)
  {
    hide Unfolds;
  }

  /** Each hop as a step, its congruence unfolded. */
  method Unfold(e: EGraph, edges: seq<Edge>, hops: seq<Hop>, a: Id, b: Id, depth: nat, stack: seq<(Id, Id)>)
    returns (steps: seq<Step>)
    requires e.Core() && depth > 0 && e.history == Some(edges) && IsWalk(edges, hops, a, b)
    requires Grounds(edges, e.unionfind.root)
    ensures Spells(edges, hops, steps) && forall s | s in steps :: Unfolds(edges, e.unionfind.root, s, depth - 1, stack)
    decreases depth, 2
  {
    hide Forest, NodeTotal, Occupied, Bookkept, Recounted, Unfolds, IsWalk, Tracks, Grounds;
    steps := [];
    for k := 0 to |hops|
      invariant |steps| == k && (forall s | s in steps :: Unfolds(edges, e.unionfind.root, s, depth - 1, stack))
      invariant forall j | 0 <= j < k :: hops[j].edge < |edges| && steps[j].why == edges[hops[j].edge].why
                                         && steps[j].from == hops[j].from && steps[j].to == hops[j].to
    {
      HopIsRecorded(edges, hops, a, b, k);
      ReasonHolds(edges, e.unionfind.root, hops[k].edge);
      var because := Because(e, edges, edges[hops[k].edge].why, depth, stack);
      BecauseUnfolds(edges, e.unionfind.root, edges[hops[k].edge].why, hops[k].from, hops[k].to, because, depth - 1,
                     stack);
      steps := steps + [Step(edges[hops[k].edge].why, hops[k].from, hops[k].to, because)];
    }
  }

  lemma ReasonHolds(edges: seq<Edge>, root: seq<Id>, i: nat)
    requires Grounds(edges, root) && i < |edges|
    ensures Cites(root, edges[i].why)
  {
    assert edges[i] in edges;
  }

  /** One argument pair is derived. */
  ghost predicate Argues(edges: seq<Edge>, root: seq<Id>, why: Justification, p: (nat, Explanation), depth: nat,
                         stack: seq<(Id, Id)>) {
    && why.Congruence? && p.0 < |PairsOf(root, why.left, why.right)| && p.1.steps != []
    && Derives(edges, root, p.1, PairsOf(root, why.left, why.right)[p.0].0, PairsOf(root, why.left, why.right)[p.0].1,
               depth, stack)
  }

  lemma PairArgues(edges: seq<Edge>, root: seq<Id>, why: Justification, k: nat, x: Explanation, depth: nat,
                   stack: seq<(Id, Id)>)
    requires why.Congruence? && k < |PairsOf(root, why.left, why.right)| && x.steps != []
    requires var pair := PairsOf(root, why.left, why.right)[k]; Derives(edges, root, x, pair.0, pair.1, depth, stack)
    ensures Argues(edges, root, why, (k, x), depth, stack)
  {
    hide Derives, PairsOf;
  }

  lemma CitedIsCongruent(root: seq<Id>, left: ENode, right: ENode)
    requires Cites(root, Congruence(left, right))
    ensures Below(left, |root|) && Below(right, |root|) && left.op == right.op && |left.children| == |right.children|
  {
    CanonDecidesCongruence(root, left, right);
  }

  /** Whatever is due among the first `n` argument pairs is listed. */
  ghost predicate ListsDue(edges: seq<Edge>, pairs: seq<(Id, Id)>, because: seq<(nat, Explanation)>, n: nat, depth: nat,
                           stack: seq<(Id, Id)>)
    requires n <= |pairs|
  {
    forall k: nat | k < n :: IsDue(edges, pairs[k], depth, stack) ==> Lists(because, k)
  }

  lemma NothingDue(edges: seq<Edge>, pairs: seq<(Id, Id)>, depth: nat, stack: seq<(Id, Id)>)
    ensures ListsDue(edges, pairs, [], 0, depth, stack)
  {
  }

  lemma ListsNext(edges: seq<Edge>, pairs: seq<(Id, Id)>, because: seq<(nat, Explanation)>,
                  more: seq<(nat, Explanation)>, n: nat, depth: nat, stack: seq<(Id, Id)>)
    requires n < |pairs| && ListsDue(edges, pairs, because, n, depth, stack) && because <= more
    requires IsDue(edges, pairs[n], depth, stack) ==> more != [] && more[|more| - 1].0 == n
    ensures ListsDue(edges, pairs, more, n + 1, depth, stack)
  {
    hide IsDue;
    forall k: nat | k < n + 1 && IsDue(edges, pairs[k], depth, stack)
      ensures Lists(more, k)
    {
      if k < n {
        var p :| p in because && p.0 == k;
        assert p in more;
      } else {
        assert more[|more| - 1] in more;
      }
    }
  }

  lemma BecauseUnfolds(edges: seq<Edge>, root: seq<Id>, why: Justification, from: Id, to: Id,
                       because: seq<(nat, Explanation)>, depth: nat, stack: seq<(Id, Id)>)
    requires forall p | p in because :: Argues(edges, root, why, p, depth, stack)
    requires why.Congruence? ==>
               var pairs := PairsOf(root, why.left, why.right); ListsDue(edges, pairs, because, |pairs|, depth, stack)
    ensures Unfolds(edges, root, Step(why, from, to, because), depth, stack)
  {
    hide IsDue, Lists, Derives;
    var s := Step(why, from, to, because);
    forall p | p in s.because
      ensures s.why.Congruence? && p.0 < |PairsOf(root, s.why.left, s.why.right)| && p.1.steps != []
      ensures Derives(edges, root, p.1, PairsOf(root, s.why.left, s.why.right)[p.0].0,
                      PairsOf(root, s.why.left, s.why.right)[p.0].1, depth, stack)
    {
      assert Argues(edges, root, why, p, depth, stack);
    }
  }

  /** Why the arguments of a congruence that differ are equal. */
  method Because(e: EGraph, edges: seq<Edge>, why: Justification, depth: nat, stack: seq<(Id, Id)>)
    returns (because: seq<(nat, Explanation)>)
    requires e.Core() && depth > 0 && e.history == Some(edges) && Cites(e.unionfind.root, why)
    ensures forall p | p in because :: Argues(edges, e.unionfind.root, why, p, depth - 1, stack)
    ensures why.Congruence? ==>
              var pairs := PairsOf(e.unionfind.root, why.left, why.right);
              ListsDue(edges, pairs, because, |pairs|, depth - 1, stack)
    decreases depth, 1
  {
    hide Forest, NodeTotal, Occupied, Bookkept, Recounted, Derives, Tracks, Walkable, Lists, ListsDue, Key, Argues,
         PairsOf, Cites;
    because := [];
    if !why.Congruence? {
      return;
    }
    CitedIsCongruent(e.unionfind.root, why.left, why.right);
    PairsAgree(e.unionfind.root, why.left, why.right);
    var pairs := PairArguments(e, why.left, why.right);
    assert ListsDue(edges, pairs, [], 0, depth - 1, stack) by {
      NothingDue(edges, pairs, depth - 1, stack);
    }
    for k := 0 to |pairs|
      invariant forall p | p in because :: Argues(edges, e.unionfind.root, why, p, depth - 1, stack)
      invariant ListsDue(edges, pairs, because, k, depth - 1, stack)
    {
      ghost var before := because;
      if pairs[k].0 != pairs[k].1 {
        var sub := ExplainWithin(e, pairs[k].0, pairs[k].1, depth - 1, stack);
        if sub.Some? && sub.value.steps != [] {
          PairArgues(edges, e.unionfind.root, why, k, sub.value, depth - 1, stack);
          because := because + [(k, sub.value)];
        }
      }
      ListsNext(edges, pairs, before, because, k, depth - 1, stack);
    }
  }

  /** Match up the arguments of two congruent nodes. */
  method PairArguments(e: EGraph, left: ENode, right: ENode) returns (pairs: seq<(Id, Id)>)
    requires e.unionfind.Valid() && Below(left, |e.unionfind.root|) && Below(right, |e.unionfind.root|)
    requires left.op == right.op && |left.children| == |right.children|
    ensures pairs == PairsOf(e.unionfind.root, left, right)
  {
    pairs := StraightPairs(left, right);
    if !left.op.IsCommutative() || |left.children| != 2 {
      return;
    }
    var agrees := AgreeIn(e, pairs);
    if agrees {
      return;
    }
    var swapped := [(left.children[0], right.children[1]), (left.children[1], right.children[0])];
    agrees := AgreeIn(e, swapped);
    if agrees {
      pairs := swapped;
    }
  }

  method AgreeIn(e: EGraph, pairs: seq<(Id, Id)>) returns (agrees: bool)
    requires e.unionfind.Valid()
    requires forall k | 0 <= k < |pairs| :: pairs[k].0 < |e.unionfind.root| && pairs[k].1 < |e.unionfind.root|
    ensures agrees <==> Agree(e.unionfind.root, pairs)
  {
    for k := 0 to |pairs|
      invariant forall j | 0 <= j < k :: e.unionfind.root[pairs[j].0] == e.unionfind.root[pairs[j].1]
    {
      var x := e.Find(pairs[k].0);
      var y := e.Find(pairs[k].1);
      if x != y {
        return false;
      }
    }
    agrees := true;
  }
}
