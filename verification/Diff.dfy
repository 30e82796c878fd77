/** When a class provably denotes a value that a variable cannot affect: the
    worklist behind the side conditions of the differentiation rules. */
module Differentiation {
  import opened Options
  import opened Lang
  import opened Graphs
  import opened Meanings
  import opened NodeOrders
  import opened UnionFinds
  import opened Histories
  import opened Expressions
  import opened Terms
  import opened Extraction
  import opened EGraphs

  // ----- the question -----

  /** The variable does not occur in the term. */
  predicate Lacks(v: Sym, t: Term) {
    t.op != Var(v) && forall k | 0 <= k < |t.args| :: Lacks(v, t.args[k])
  }

  /** The class holds a finite term without the variable. */
  ghost predicate HasWitness(g: Graph, c: Id, v: Sym) {
    exists t :: Represents(g, c, t) && Lacks(v, t)
  }

  /** The values of everything but the variable are the same. */
  ghost predicate AgreeExcept(a: Semantics, b: Semantics, v: Sym) {
    forall op: Op, args: seq<Value> | op != Var(v) :: a.eval(op, args) == b.eval(op, args)
  }

  lemma {:induction false} LacksMeansUnaffected(a: Semantics, b: Semantics, v: Sym, t: Term)
    requires AgreeExcept(a, b, v) && Lacks(v, t)
    ensures TermValue(a, t) == TermValue(b, t)
  {
    forall k | 0 <= k < |t.args|
      ensures TermValue(a, t.args[k]) == TermValue(b, t.args[k])
    {
      LacksMeansUnaffected(a, b, v, t.args[k]);
    }
    assert TermValues(a, t.args) == TermValues(b, t.args);
  }

  /** One witness speaks for the class: whatever the other nodes look like, two
      interpretations that differ in the variable alone agree on the class. */
  lemma WitnessMeansUnaffected(a: Semantics, b: Semantics, analysis: Analysis, ma: seq<Value>, mb: seq<Value>,
                               g: Graph, c: Id, v: Sym)
    requires Respects(a, analysis) && Respects(b, analysis) && AgreeExcept(a, b, v)
    requires Meaningful(a, ma, g) && Meaningful(b, mb, g) && HasWitness(g, c, v)
    ensures c < |g.root| && ma[c] == mb[c]
  {
    var t :| Represents(g, c, t) && Lacks(v, t);
    RepresentsDenotes(a, analysis, ma, g, c, t);
    RepresentsDenotes(b, analysis, mb, g, c, t);
    LacksMeansUnaffected(a, b, v, t);
  }

  // ----- the fixpoint -----

  /** The node is not the variable, and its children are all known free. */
  ghost predicate Ready(g: Graph, free: set<Id>, v: Sym, n: ENode) {
    n.op != Var(v) && forall k | 0 <= k < |n.children| :: n.children[k] < |g.root| && g.root[n.children[k]] in free
  }

  ghost predicate Witnessed(g: Graph, free: set<Id>, v: Sym, c: Id) {
    exists n :: Has(g, c, n) && Ready(g, free, v, n)
  }

  /** Some child of the node is in one of the classes. */
  ghost predicate Touches(g: Graph, n: ENode, classes: seq<Id>) {
    exists k | 0 <= k < |n.children| :: n.children[k] < |g.root| && g.root[n.children[k]] in classes
  }

  /** A class not yet admitted has no ready node, but for what is queued. */
  ghost predicate Waits(g: Graph, free: set<Id>, queue: seq<Id>, v: Sym, c: Id) {
    c in free || forall n | Has(g, c, n) && Ready(g, free, v, n) :: Touches(g, n, queue)
  }

  /** Everything admitted is a class with a witness. */
  ghost predicate AllFree(g: Graph, free: set<Id>, v: Sym) {
    forall c | c in free :: c < |g.root| && g.root[c] == c && HasWitness(g, c, v)
  }

  lemma {:induction false} ChildWitnesses(g: Graph, free: set<Id>, v: Sym, n: ENode, k: nat) returns (ts: seq<Term>)
    requires WellFormed(g) && AllFree(g, free, v) && Ready(g, free, v, n) && k <= |n.children|
    ensures |ts| == k && forall j | 0 <= j < k :: Represents(g, n.children[j], ts[j]) && Lacks(v, ts[j])
  {
    hide Represents, Lacks;
    if k == 0 {
      ts := [];
    } else {
      ts := ChildWitnesses(g, free, v, n, k - 1);
      var t := WitnessOf(g, n.children[k - 1], v);
      ts := ts + [t];
    }
  }

  lemma WitnessOf(g: Graph, c: Id, v: Sym) returns (t: Term)
    requires c < |g.root| && g.root[c] < |g.root| && g.root[g.root[c]] == g.root[c] && HasWitness(g, g.root[c], v)
    ensures Represents(g, c, t) && Lacks(v, t)
  {
    t :| Represents(g, g.root[c], t) && Lacks(v, t);
  }

  /** A class with a ready node may be admitted. */
  lemma AdmitKeeps(g: Graph, free: set<Id>, v: Sym, c: Id)
    requires WellFormed(g) && AllFree(g, free, v) && Witnessed(g, free, v, c)
    ensures AllFree(g, free + {c}, v)
  {
    hide AllFree, HasWitness;
    var n :| Has(g, c, n) && Ready(g, free, v, n);
    HasIsBelow(g, c, n);
    var ts := ChildWitnesses(g, free, v, n, |n.children|);
    assert Fits(g, n, Term(n.op, ts));
    assert Represents(g, c, Term(n.op, ts)) && Lacks(v, Term(n.op, ts));
    AdmitOne(g, free, v, c, Term(n.op, ts));
  }

  lemma AdmitOne(g: Graph, free: set<Id>, v: Sym, c: Id, t: Term)
    requires AllFree(g, free, v) && c < |g.root| && g.root[c] == c && Represents(g, c, t) && Lacks(v, t)
    ensures AllFree(g, free + {c}, v)
  {
    hide Represents, Lacks;
  }

  /** Nothing reachable is ready any more, so every witness has been found. */
  lemma {:induction false} FixpointIsComplete(g: Graph, free: set<Id>, v: Sym, cone: seq<Id>, c: Id, t: Term)
    requires WellFormed(g) && c < |g.root| && g.root[c] in cone
    requires forall x | x in cone :: Waits(g, free, [], v, x)
    requires forall x, n, k | x in cone && Has(g, x, n) && 0 <= k < |n.children| && n.children[k] < |g.root| ::
               g.root[n.children[k]] in cone
    requires Represents(g, c, t) && Lacks(v, t)
    ensures g.root[c] in free
    decreases t
  {
    hide Waits;
    var n, m := NodeFor(g, c, t);
    HasIsBelow(g, g.root[c], n);
    forall k | 0 <= k < |t.args|
      ensures g.root[m.children[k]] in free
    {
      assert m.children[k] == n.children[k] || m.children[k] == n.children[1 - k];
      FixpointIsComplete(g, free, v, cone, m.children[k], t.args[k]);
    }
    FlipIsReady(g, free, v, n, m);
    WaitsForNothing(g, free, v, g.root[c], n);
  }

  lemma FlipIsReady(g: Graph, free: set<Id>, v: Sym, n: ENode, m: ENode)
    requires (m == n || m == Flip(n)) && Ready(g, free, v, m)
    ensures Ready(g, free, v, n)
  {
    assert m != n ==> n.children == [m.children[1], m.children[0]];
  }

  lemma WaitsForNothing(g: Graph, free: set<Id>, v: Sym, c: Id, n: ENode)
    requires Waits(g, free, [], v, c) && Has(g, c, n) && Ready(g, free, v, n)
    ensures c in free
  {
    assert !Touches(g, n, []);
  }

  /** Admitting a class makes ready only nodes that mention it. */
  lemma WaitsAfterAdmit(g: Graph, free: set<Id>, queue: seq<Id>, v: Sym, c: Id, x: Id)
    requires Waits(g, free, queue, v, x)
    ensures Waits(g, free + {c}, queue + [c], v, x)
  {
    if x !in free + {c} {
      forall n | Has(g, x, n) && Ready(g, free + {c}, v, n)
        ensures Touches(g, n, queue + [c])
      {
        if Ready(g, free, v, n) {
          assert Touches(g, n, queue);
          var k :| 0 <= k < |n.children| && n.children[k] < |g.root| && g.root[n.children[k]] in queue;
          assert g.root[n.children[k]] in queue + [c];
        } else {
          var k :| 0 <= k < |n.children| && (n.children[k] < |g.root| ==> g.root[n.children[k]] !in free);
          assert g.root[n.children[k]] == c;
          assert c in queue + [c];
        }
      }
    }
  }

  // ----- what the class can reach -----

  type Users = map<Id, seq<Id>>

  /** Every child of the node is in the cone and lists the class as a user. */
  ghost predicate Linked(g: Graph, users: Users, seen: set<Id>, c: Id, n: ENode, upTo: nat) {
    forall k | 0 <= k < |n.children| && k < upTo ::
      && n.children[k] < |g.root| && g.root[n.children[k]] in seen
      && g.root[n.children[k]] in users && c in users[g.root[n.children[k]]]
  }

  ghost predicate Explored(g: Graph, users: Users, seen: set<Id>, c: Id) {
    forall n | Has(g, c, n) :: Linked(g, users, seen, c, n, |n.children|)
  }

  ghost predicate UsersAreSeen(users: Users, seen: set<Id>) {
    forall x, u | x in users && u in users[x] :: u in seen
  }

  ghost predicate Reps(g: Graph, seen: set<Id>) {
    forall c | c in seen :: c < |g.root| && g.root[c] == c
  }

  ghost predicate MoreUsers(before: Users, after: Users) {
    forall x, u | x in before && u in before[x] :: x in after && u in after[x]
  }

  lemma LinkedGrows(g: Graph, users: Users, more: Users, seen: set<Id>, wider: set<Id>, c: Id, n: ENode, upTo: nat)
    requires Linked(g, users, seen, c, n, upTo) && MoreUsers(users, more) && seen <= wider
    ensures Linked(g, more, wider, c, n, upTo)
  {
  }

  lemma ExploredGrows(g: Graph, users: Users, more: Users, seen: set<Id>, wider: set<Id>, c: Id)
    requires Explored(g, users, seen, c) && MoreUsers(users, more) && seen <= wider
    ensures Explored(g, more, wider, c)
  {
    hide Linked, MoreUsers;
    forall n | Has(g, c, n)
      ensures Linked(g, more, wider, c, n, |n.children|)
    {
      LinkedGrows(g, users, more, seen, wider, c, n, |n.children|);
    }
  }

  /** The cone so far: classes, all their own representatives. */
  ghost predicate Following(g: Graph, cone: seq<Id>, users: Users, seen: set<Id>) {
    Reps(g, seen) && UsersAreSeen(users, seen) && forall x :: x in cone <==> x in seen
  }

  /** Only what is new was pushed, and all of it. */
  ghost predicate Pushed(before: seq<Id>, after: seq<Id>, seen: set<Id>, wider: set<Id>) {
    && seen <= wider
    && (forall x | x in before :: x in after)
    && (forall x | x in after :: x in before || x in wider)
    && (forall x | x in wider :: x in seen || x in after)
    && (seen == wider ==> before == after)
  }

  lemma FollowChild(g: Graph, cone: seq<Id>, users: Users, seen: set<Id>, id: Id, n: ENode, k: nat)
    returns (more: Users, wider: set<Id>, longer: seq<Id>)
    requires WellFormed(g) && Following(g, cone, users, seen) && id in seen && Linked(g, users, seen, id, n, k)
    requires k < |n.children| && n.children[k] < |g.root|
    ensures var child := g.root[n.children[k]];
            && more == users[child := (if child in users then users[child] else []) + [id]]
            && wider == seen + {child} && longer == (if child in seen then cone else cone + [child])
    ensures Following(g, longer, more, wider) && Linked(g, more, wider, id, n, k + 1) && MoreUsers(users, more)
  {
    var child := g.root[n.children[k]];
    assert Slot(g, n.children[k]);
    more := users[child := (if child in users then users[child] else []) + [id]];
    wider := seen + {child};
    longer := if child in seen then cone else cone + [child];
    LinkedGrows(g, users, more, seen, wider, id, n, k);
  }

  /** Record the class as a user of each child of the node, and note the
      children not seen before. */
  method FollowNode(e: EGraph, id: Id, n: ENode, cone0: seq<Id>, users0: Users, seen0: set<Id>, stack0: seq<Id>)
    returns (cone: seq<Id>, users: Users, seen: set<Id>, stack: seq<Id>)
    requires e.Core() && Below(n, |e.unionfind.root|) && id in seen0
    requires Following(e.View(), cone0, users0, seen0)
    ensures Following(e.View(), cone, users, seen) && Linked(e.View(), users, seen, id, n, |n.children|)
    ensures MoreUsers(users0, users) && Pushed(stack0, stack, seen0, seen)
  {
    hide Bookkept, Forest, Following, Linked, MoreUsers, WellFormed, Recounted;
    ghost var g := e.View();
    assert WellFormed(g) by { BookkeptIsWellFormed(e); }
    cone, users, seen, stack := cone0, users0, seen0, stack0;
    assert Linked(g, users, seen, id, n, 0) && MoreUsers(users0, users) by { NothingLinked(g, users, seen, id, n); }
    for k := 0 to |n.children|
      invariant Following(g, cone, users, seen) && Linked(g, users, seen, id, n, k)
      invariant MoreUsers(users0, users) && Pushed(stack0, stack, seen0, seen) && id in seen
    {
      ghost var more, wider, longer := FollowChild(g, cone, users, seen, id, n, k);
      MoreUsersTransitive(users0, users, more);
      var child := e.Find(n.children[k]);
      users := users[child := (if child in users then users[child] else []) + [id]];
      if child !in seen {
        seen := seen + {child};
        cone := cone + [child];
        stack := stack + [child];
      }
      assert seen == wider;
    }
  }

  lemma BookkeptIsWellFormed(e: EGraph)
    requires e.Core()
    ensures WellFormed(e.View())
  {
  }

  lemma NothingLinked(g: Graph, users: Users, seen: set<Id>, id: Id, n: ENode)
    ensures Linked(g, users, seen, id, n, 0) && MoreUsers(users, users)
  {
  }

  lemma MoreUsersTransitive(a: Users, b: Users, c: Users)
    requires MoreUsers(a, b) && MoreUsers(b, c)
    ensures MoreUsers(a, c)
  {
  }

  /** The cone is closed under children, and every child lists its users. */
  ghost predicate Closed(g: Graph, cone: seq<Id>, users: Users) {
    exists seen :: Following(g, cone, users, seen) && forall c | c in cone :: Explored(g, users, seen, c)
  }

  /** Follow every node of a class. */
  method FollowClass(e: EGraph, id: Id, cone0: seq<Id>, users0: Users, seen0: set<Id>, stack0: seq<Id>)
    returns (cone: seq<Id>, users: Users, seen: set<Id>, stack: seq<Id>)
    requires e.Core() && id in seen0 && Following(e.View(), cone0, users0, seen0)
    ensures Following(e.View(), cone, users, seen) && Explored(e.View(), users, seen, id)
    ensures MoreUsers(users0, users) && Pushed(stack0, stack, seen0, seen)
  {
    hide Bookkept, Forest, Linked, MoreUsers, Recounted;
    ghost var g := e.View();
    BookkeptIsWellFormed(e);
    assert Slot(g, id);
    var nodes := e.classes[id].value.nodes;
    cone, users, seen, stack := cone0, users0, seen0, stack0;
    NothingLinked(g, users, seen, id, nodes[0]);
    for j := 0 to |nodes|
      invariant Following(g, cone, users, seen) && MoreUsers(users0, users) && Pushed(stack0, stack, seen0, seen)
      invariant id in seen
      invariant forall i | 0 <= i < j :: Linked(g, users, seen, id, nodes[i], |nodes[i].children|)
    {
      assert nodes[j] in nodes;
      ghost var users1, seen1 := users, seen;
      cone, users, seen, stack := FollowNode(e, id, nodes[j], cone, users, seen, stack);
      MoreUsersTransitive(users0, users1, users);
      forall i | 0 <= i < j
        ensures Linked(g, users, seen, id, nodes[i], |nodes[i].children|)
      {
        LinkedGrows(g, users1, users, seen1, seen, id, nodes[i], |nodes[i].children|);
      }
    }
    forall n | Has(g, id, n)
      ensures Linked(g, users, seen, id, n, |n.children|)
    {
      var i :| 0 <= i < |nodes| && nodes[i] == n;
    }
  }

  /** Everything the class can reach, and who refers to it. */
  method Cone(e: EGraph, root: Id) returns (cone: seq<Id>, users: Users)
    requires e.Core() && root < |e.unionfind.root| && e.unionfind.root[root] == root
    ensures root in cone && Closed(e.View(), cone, users)
  {
    hide Bookkept, Forest, Explored, MoreUsers, Recounted;
    ghost var g := e.View();
    BookkeptIsWellFormed(e);
    cone, users := [root], map[];
    var seen, stack := {root}, [root];
    while stack != []
      invariant Following(g, cone, users, seen) && root in seen
      invariant forall x | x in stack :: x in seen
      invariant forall x | x in seen :: x in stack || Explored(g, users, seen, x)
      decreases |g.root| - |seen|, |stack|
    {
      var id := stack[|stack| - 1];
      ghost var users1, seen1, stack1 := users, seen, stack;
      stack := stack[..|stack| - 1];
      assert forall x | x in stack1 :: x in stack || x == id;
      cone, users, seen, stack := FollowClass(e, id, cone, users, seen, stack);
      forall x | x in seen
        ensures x in stack || Explored(g, users, seen, x)
      {
        if x in seen1 && x !in stack1 {
          ExploredGrows(g, users1, users, seen1, seen, x);
        }
      }
      SeenGrows(g, seen1, seen);
    }
    assert forall c | c in cone :: Explored(g, users, seen, c);
  }

  lemma SeenGrows(g: Graph, before: set<Id>, after: set<Id>)
    requires before <= after && Reps(g, after)
    ensures |after| <= |g.root| && (before != after ==> |before| < |after|)
  {
    IdsCount(|g.root|);
    assert after <= Ids(|g.root|);
    SubsetCount(after, Ids(|g.root|));
    SubsetCount(before, after);
  }

  /** Put the users of each class in order, without repeats. */
  method SortUsers(users: Users) returns (sorted: Users)
    ensures sorted.Keys == users.Keys
    ensures forall x, u | x in users :: u in sorted[x] <==> u in users[x]
  {
    sorted := users;
    var todo := users.Keys;
    while todo != {}
      invariant todo <= users.Keys && sorted.Keys == users.Keys
      invariant forall x, u | x in users :: u in sorted[x] <==> u in users[x]
    {
      var x :| x in todo;
      todo := todo - {x};
      var ids := SortIds(sorted[x]);
      sorted := sorted[x := ids];
    }
  }

  lemma SortedUsersClose(g: Graph, cone: seq<Id>, users: Users, sorted: Users)
    requires Closed(g, cone, users) && sorted.Keys == users.Keys
    requires forall x, u | x in users :: u in sorted[x] <==> u in users[x]
    ensures Closed(g, cone, sorted)
  {
    var seen :| Following(g, cone, users, seen) && forall c | c in cone :: Explored(g, users, seen, c);
    assert MoreUsers(users, sorted);
    forall c | c in cone
      ensures Explored(g, sorted, seen, c)
    {
      ExploredGrows(g, users, sorted, seen, seen, c);
    }
    assert Following(g, cone, sorted, seen);
  }

  // ----- the worklist -----

  /** Is some node of the class ready? */
  method IsWitnessed(e: EGraph, free: set<Id>, v: Sym, id: Id) returns (yes: bool)
    requires e.Core() && id < |e.unionfind.root| && e.unionfind.root[id] == id
    ensures yes <==> Witnessed(e.View(), free, v, id)
  {
    hide Bookkept, Forest, Recounted;
    ghost var g := e.View();
    BookkeptIsWellFormed(e);
    assert Slot(g, id);
    var nodes := e.classes[id].value.nodes;
    for j := 0 to |nodes|
      invariant forall i | 0 <= i < j :: !Ready(g, free, v, nodes[i])
    {
      assert nodes[j] in nodes;
      var ready := nodes[j].op != Var(v);
      for k := 0 to |nodes[j].children|
        invariant ready <==> nodes[j].op != Var(v) && forall i | 0 <= i < k :: g.root[nodes[j].children[i]] in free
      {
        var child := e.Find(nodes[j].children[k]);
        ready := ready && child in free;
      }
      if ready {
        assert Has(g, id, nodes[j]) && Ready(g, free, v, nodes[j]);
        return true;
      }
    }
    yes := false;
  }

  /** Only what was seeded waits on nothing else. */
  ghost predicate AllWait(g: Graph, free: set<Id>, queue: seq<Id>, v: Sym, cone: seq<Id>, upTo: nat) {
    forall i | 0 <= i < |cone| && i < upTo :: Waits(g, free, queue, v, cone[i])
  }

  lemma AllWaitAfterAdmit(g: Graph, free: set<Id>, queue: seq<Id>, v: Sym, cone: seq<Id>, upTo: nat, c: Id)
    requires AllWait(g, free, queue, v, cone, upTo)
    ensures AllWait(g, free + {c}, queue + [c], v, cone, upTo)
  {
    hide Waits;
    forall i | 0 <= i < |cone| && i < upTo
      ensures Waits(g, free + {c}, queue + [c], v, cone[i])
    {
      WaitsAfterAdmit(g, free, queue, v, c, cone[i]);
    }
  }

  lemma UnwitnessedWaits(g: Graph, free: set<Id>, queue: seq<Id>, v: Sym, c: Id)
    requires c in free || !Witnessed(g, free, v, c)
    ensures Waits(g, free, queue, v, c)
  {
    forall n | Has(g, c, n)
      ensures Ready(g, free, v, n) ==> Witnessed(g, free, v, c)
    {
    }
  }

  /** Admit the classes of the cone that are ready at once, in order. */
  method Seed(e: EGraph, v: Sym, cone: seq<Id>) returns (free: set<Id>, queue: seq<Id>)
    requires e.Core() && forall c | c in cone :: c < |e.unionfind.root| && e.unionfind.root[c] == c
    ensures AllFree(e.View(), free, v) && AllWait(e.View(), free, queue, v, cone, |cone|)
    ensures forall c | c in queue :: c in free
  {
    hide Bookkept, Forest, Recounted, AllFree, AllWait, Waits, Witnessed;
    ghost var g := e.View();
    BookkeptIsWellFormed(e);
    free, queue := {}, [];
    NoneFree(g, v, cone);
    for i := 0 to |cone|
      invariant AllFree(g, free, v) && AllWait(g, free, queue, v, cone, i)
      invariant forall c | c in queue :: c in free
    {
      assert cone[i] in cone;
      var yes := IsWitnessed(e, free, v, cone[i]);
      if yes {
        AdmitKeeps(g, free, v, cone[i]);
        AllWaitAfterAdmit(g, free, queue, v, cone, i, cone[i]);
        free := free + {cone[i]};
        queue := queue + [cone[i]];
      }
      UnwitnessedWaits(g, free, queue, v, cone[i]);
      AllWaitNext(g, free, queue, v, cone, i);
    }
  }

  lemma NoneFree(g: Graph, v: Sym, cone: seq<Id>)
    ensures AllFree(g, {}, v) && AllWait(g, {}, [], v, cone, 0)
  {
  }

  lemma AllWaitNext(g: Graph, free: set<Id>, queue: seq<Id>, v: Sym, cone: seq<Id>, i: nat)
    requires i < |cone| && AllWait(g, free, queue, v, cone, i) && Waits(g, free, queue, v, cone[i])
    ensures AllWait(g, free, queue, v, cone, i + 1)
  {
  }

  /** A class neither waits for anything but the queue, nor, if it is among the
      users still to be visited, for anything but the queue and `x`. */
  ghost predicate Visiting(g: Graph, free: set<Id>, queue: seq<Id>, v: Sym, cone: seq<Id>, x: Id, users: seq<Id>,
                           j: nat) {
    forall c | c in cone ::
      Waits(g, free, queue, v, c) || (Waits(g, free, queue + [x], v, c) && exists i | j <= i < |users| :: users[i] == c)
  }

  lemma TouchesMore(g: Graph, n: ENode, classes: seq<Id>, more: seq<Id>)
    requires Touches(g, n, classes) && forall c | c in classes :: c in more
    ensures Touches(g, n, more)
  {
  }

  /** Taking a class off the queue concerns its users only. */
  lemma PopVisits(g: Graph, free: set<Id>, queue: seq<Id>, v: Sym, cone: seq<Id>, users: Users)
    requires WellFormed(g) && Closed(g, cone, users) && queue != [] && AllWait(g, free, queue, v, cone, |cone|)
    ensures var x := queue[|queue| - 1];
            Visiting(g, free, queue[..|queue| - 1], v, cone, x, if x in users then users[x] else [], 0)
  {
    var x := queue[|queue| - 1];
    var rest := queue[..|queue| - 1];
    var us := if x in users then users[x] else [];
    assert queue == rest + [x];
    var seen :| Following(g, cone, users, seen) && forall c | c in cone :: Explored(g, users, seen, c);
    forall c | c in cone && !Waits(g, free, rest, v, c)
      ensures Waits(g, free, rest + [x], v, c) && exists i | 0 <= i < |us| :: us[i] == c
    {
      var i :| 0 <= i < |cone| && cone[i] == c;
      assert Waits(g, free, queue, v, cone[i]);
      assert Explored(g, users, seen, c);
      MissingIsUser(g, free, rest, v, c, x, users, seen);
    }
  }

  lemma MissingIsUser(g: Graph, free: set<Id>, rest: seq<Id>, v: Sym, c: Id, x: Id, users: Users, seen: set<Id>)
    requires Explored(g, users, seen, c) && Waits(g, free, rest + [x], v, c) && !Waits(g, free, rest, v, c)
    ensures x in users && c in users[x]
  {
    var n :| Has(g, c, n) && Ready(g, free, v, n) && !Touches(g, n, rest);
    assert Touches(g, n, rest + [x]);
    var k :| 0 <= k < |n.children| && n.children[k] < |g.root| && g.root[n.children[k]] in rest + [x];
    assert Linked(g, users, seen, c, n, |n.children|);
  }

  lemma VisitedAll(g: Graph, free: set<Id>, queue: seq<Id>, v: Sym, cone: seq<Id>, x: Id, users: seq<Id>)
    requires Visiting(g, free, queue, v, cone, x, users, |users|)
    ensures AllWait(g, free, queue, v, cone, |cone|)
  {
    hide Waits;
    forall i | 0 <= i < |cone|
      ensures Waits(g, free, queue, v, cone[i])
    {
      assert cone[i] in cone;
    }
  }

  /** A user that is free, or has no ready node, waits for nothing. */
  lemma SkipUser(g: Graph, free: set<Id>, queue: seq<Id>, v: Sym, cone: seq<Id>, x: Id, users: seq<Id>, j: nat)
    requires Visiting(g, free, queue, v, cone, x, users, j) && j < |users|
    requires users[j] in free || !Witnessed(g, free, v, users[j])
    ensures Visiting(g, free, queue, v, cone, x, users, j + 1)
  {
    hide Waits, Witnessed;
    UnwitnessedWaits(g, free, queue, v, users[j]);
  }

  lemma AdmitUser(g: Graph, free: set<Id>, queue: seq<Id>, v: Sym, cone: seq<Id>, x: Id, users: seq<Id>, j: nat, c: Id)
    requires Visiting(g, free, queue, v, cone, x, users, j)
    ensures Visiting(g, free + {c}, queue + [c], v, cone, x, users, j)
  {
    forall d | d in cone
      ensures || Waits(g, free + {c}, queue + [c], v, d)
              || (Waits(g, free + {c}, queue + [c] + [x], v, d) && exists i | j <= i < |users| :: users[i] == d)
    {
      if Waits(g, free, queue, v, d) {
        WaitsAfterAdmit(g, free, queue, v, c, d);
      } else {
        WaitsAfterAdmit(g, free, queue + [x], v, c, d);
        WaitsInAnyOrder(g, free + {c}, queue + [x] + [c], queue + [c] + [x], v, d);
      }
    }
  }

  lemma WaitsInAnyOrder(g: Graph, free: set<Id>, queue: seq<Id>, other: seq<Id>, v: Sym, c: Id)
    requires Waits(g, free, queue, v, c) && forall x | x in queue :: x in other
    ensures Waits(g, free, other, v, c)
  {
    forall n | c !in free && Has(g, c, n) && Ready(g, free, v, n)
      ensures Touches(g, n, other)
    {
      TouchesMore(g, n, queue, other);
    }
  }

  /** Look again at the users of a class just taken off the queue. */
  method Visit(e: EGraph, v: Sym, ghost cone: seq<Id>, users: seq<Id>, ghost x: Id, free0: set<Id>, queue0: seq<Id>)
    returns (free: set<Id>, queue: seq<Id>)
    requires e.Core() && forall c | c in users :: c < |e.unionfind.root| && e.unionfind.root[c] == c
    requires AllFree(e.View(), free0, v) && Visiting(e.View(), free0, queue0, v, cone, x, users, 0)
    requires forall c | c in queue0 :: c in free0
    ensures AllFree(e.View(), free, v) && AllWait(e.View(), free, queue, v, cone, |cone|)
    ensures free0 <= free && (free == free0 ==> queue == queue0)
    ensures forall c | c in queue :: c in free
  {
    hide Bookkept, Forest, Recounted, AllFree, AllWait, Waits, Witnessed, Visiting;
    ghost var g := e.View();
    BookkeptIsWellFormed(e);
    free, queue := free0, queue0;
    for j := 0 to |users|
      invariant AllFree(g, free, v) && Visiting(g, free, queue, v, cone, x, users, j)
      invariant free0 <= free && (free == free0 ==> queue == queue0)
      invariant forall c | c in queue :: c in free
    {
      var user := users[j];
      assert user in users;
      if user !in free {
        var yes := IsWitnessed(e, free, v, user);
        if yes {
          AdmitKeeps(g, free, v, user);
          AdmitUser(g, free, queue, v, cone, x, users, j, user);
          free := free + {user};
          queue := queue + [user];
        }
      }
      SkipUser(g, free, queue, v, cone, x, users, j);
    }
    VisitedAll(g, free, queue, v, cone, x, users);
  }

  lemma ClosedUsers(g: Graph, cone: seq<Id>, users: Users, x: Id)
    requires Closed(g, cone, users)
    ensures forall c | c in cone :: c < |g.root| && g.root[c] == c
    ensures x in users ==> forall c | c in users[x] :: c < |g.root| && g.root[c] == c
  {
  }

  lemma FixpointDecides(g: Graph, free: set<Id>, v: Sym, cone: seq<Id>, users: Users, c: Id)
    requires WellFormed(g) && Closed(g, cone, users) && c < |g.root| && g.root[c] in cone
    requires AllFree(g, free, v) && AllWait(g, free, [], v, cone, |cone|)
    ensures g.root[c] in free <==> HasWitness(g, c, v)
  {
    hide Represents, Lacks, Waits;
    if g.root[c] in free {
      FreeHasWitness(g, free, v, c);
    }
    if HasWitness(g, c, v) {
      var t :| Represents(g, c, t) && Lacks(v, t);
      forall x | x in cone
        ensures Waits(g, free, [], v, x)
      {
        var i :| 0 <= i < |cone| && cone[i] == x;
      }
      ConeIsClosed(g, cone, users);
      FixpointIsComplete(g, free, v, cone, c, t);
    }
  }

  lemma FreeHasWitness(g: Graph, free: set<Id>, v: Sym, c: Id)
    requires WellFormed(g) && AllFree(g, free, v) && c < |g.root| && g.root[c] in free
    ensures HasWitness(g, c, v)
  {
    assert Slot(g, c);
    var t := WitnessOf(g, c, v);
  }

  lemma ConeIsClosed(g: Graph, cone: seq<Id>, users: Users)
    requires Closed(g, cone, users)
    ensures forall x, n, k | x in cone && Has(g, x, n) && 0 <= k < |n.children| && n.children[k] < |g.root| ::
              g.root[n.children[k]] in cone
  {
    var seen :| Following(g, cone, users, seen) && forall c | c in cone :: Explored(g, users, seen, c);
    forall x, n, k | x in cone && Has(g, x, n) && 0 <= k < |n.children| && n.children[k] < |g.root|
      ensures g.root[n.children[k]] in cone
    {
      assert Explored(g, users, seen, x) && Linked(g, users, seen, x, n, |n.children|);
    }
  }

  /** Does the class hold a finite term without the variable? */
  method FreeOfVar(e: EGraph, id: Id, v: Sym) returns (yes: bool)
    requires e.Core() && id < |e.unionfind.root|
    ensures yes <==> HasWitness(e.View(), id, v)
  {
    hide Bookkept, Forest, Recounted, AllFree, AllWait, Visiting, HasWitness, Closed;
    ghost var g := e.View();
    BookkeptIsWellFormed(e);
    assert Slot(g, id);
    var root := e.Find(id);
    var cone, unsorted := Cone(e, root);
    var users := SortUsers(unsorted);
    SortedUsersClose(g, cone, unsorted, users);
    ClosedUsers(g, cone, users, root);
    var free, queue := Seed(e, v, cone);
    while queue != []
      invariant AllFree(g, free, v) && AllWait(g, free, queue, v, cone, |cone|)
      invariant forall c | c in queue :: c in free
      decreases |g.root| - |free|, |queue|
    {
      var x := queue[|queue| - 1];
      if root in free {
        FreeHasWitness(g, free, v, id);
        return true;
      }
      PopVisits(g, free, queue, v, cone, users);
      ClosedUsers(g, cone, users, x);
      ghost var before := free;
      free, queue := Visit(e, v, cone, if x in users then users[x] else [], x, free, queue[..|queue| - 1]);
      FreeGrows(g, before, free, v);
    }
    FixpointDecides(g, free, v, cone, users, id);
    yes := root in free;
  }

  lemma FreeGrows(g: Graph, before: set<Id>, after: set<Id>, v: Sym)
    requires before <= after && AllFree(g, after, v)
    ensures |after| <= |g.root| && (before != after ==> |before| < |after|)
  {
    SeenGrows(g, before, after);
  }

  // ----- the conditions of the rules -----

  /** The class of `x` holds the variable. */
  ghost predicate HoldsVar(g: Graph, x: Id, v: Sym) {
    x < |g.root| && exists n :: Has(g, g.root[x], n) && n.op == Var(v)
  }

  /** Every variable in the class of `x`, of which there is one at least, is
      missing from some term of the body. */
  ghost predicate Independent(g: Graph, body: Id, x: Id) {
    (exists v :: HoldsVar(g, x, v)) && forall v | HoldsVar(g, x, v) :: HasWitness(g, body, v)
  }

  ghost predicate Dependent(g: Graph, body: Id, x: Id) {
    exists v :: HoldsVar(g, x, v) && !HasWitness(g, body, v)
  }

  /** The two conditions never both hold, and one of them does exactly when
      there is a variable to differentiate by. */
  lemma ConditionsAreComplementary(g: Graph, body: Id, x: Id)
    ensures !(Independent(g, body, x) && Dependent(g, body, x))
    ensures Independent(g, body, x) || Dependent(g, body, x) <==> exists v :: HoldsVar(g, x, v)
  {
    if exists v :: HoldsVar(g, x, v) {
      if !Independent(g, body, x) {
        var v :| HoldsVar(g, x, v) && !HasWitness(g, body, v);
        assert Dependent(g, body, x);
      }
    }
  }

  /** The variables in the class, in order, without repeats. */
  method DifferentiationVars(e: EGraph, x: Id) returns (vars: seq<Sym>)
    requires e.Core() && x < |e.unionfind.root|
    ensures forall i, j | 0 <= i < j < |vars| :: vars[i] < vars[j]
    ensures forall v :: v in vars <==> HoldsVar(e.View(), x, v)
  {
    hide Bookkept, Forest, Recounted;
    ghost var g := e.View();
    BookkeptIsWellFormed(e);
    assert Slot(g, x);
    var c := e.Find(x);
    assert Slot(g, c);
    var nodes := e.classes[c].value.nodes;
    var found: seq<Sym> := [];
    for j := 0 to |nodes|
      invariant forall v :: v in found <==> exists i | 0 <= i < j :: nodes[i].op == Var(v)
    {
      if nodes[j].op.Var? {
        found := found + [nodes[j].op.s];
      }
    }
    vars := SortIds(found);
    forall v | v in vars
      ensures HoldsVar(g, x, v)
    {
      var i :| 0 <= i < |nodes| && nodes[i].op == Var(v);
      assert Has(g, c, nodes[i]);
    }
  }

  method IndependentOf(e: EGraph, body: Option<Id>, x: Option<Id>) returns (yes: bool)
    requires e.Core()
    requires (body.Some? ==> body.value < |e.unionfind.root|) && (x.Some? ==> x.value < |e.unionfind.root|)
    ensures yes <==> body.Some? && x.Some? && Independent(e.View(), body.value, x.value)
  {
    hide HasWitness, HoldsVar, Bookkept, Forest, Recounted;
    if body.None? || x.None? {
      return false;
    }
    var vars := DifferentiationVars(e, x.value);
    if vars == [] {
      return false;
    }
    assert vars[0] in vars;
    for i := 0 to |vars|
      invariant forall j | 0 <= j < i :: HasWitness(e.View(), body.value, vars[j])
    {
      assert vars[i] in vars;
      var free := FreeOfVar(e, body.value, vars[i]);
      if !free {
        return false;
      }
    }
    yes := true;
  }

  method DependsOn(e: EGraph, body: Option<Id>, x: Option<Id>) returns (yes: bool)
    requires e.Core()
    requires (body.Some? ==> body.value < |e.unionfind.root|) && (x.Some? ==> x.value < |e.unionfind.root|)
    ensures yes <==> body.Some? && x.Some? && Dependent(e.View(), body.value, x.value)
  {
    hide HasWitness, HoldsVar, Bookkept, Forest, Recounted;
    if body.None? || x.None? {
      return false;
    }
    var vars := DifferentiationVars(e, x.value);
    for i := 0 to |vars|
      invariant forall j | 0 <= j < i :: HasWitness(e.View(), body.value, vars[j])
    {
      assert vars[i] in vars;
      var free := FreeOfVar(e, body.value, vars[i]);
      if !free {
        return true;
      }
    }
    assert forall v | HoldsVar(e.View(), x.value, v) :: v in vars;
    yes := false;
  }
}
