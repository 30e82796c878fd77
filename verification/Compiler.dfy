/** The bytecode compiler: constant folding, dead-literal removal, and slot
    recycling by last use. */
module Compilers {
  import opened Options
  import opened Lang
  import opened Expressions
  import opened Machines
  import opened Pressures
  import opened NodeOrders

  /** The first `n` entries of the emission order, as a set. */
  function Done(emitted: seq<Id>, n: nat): set<Id>
    requires n <= |emitted|
  {
    set x | x in emitted[..n]
  }

  /** The node's value is still to be read after `i` instructions. */
  predicate Live(lastUse: map<Id, nat>, root: Id, id: Id, i: nat) {
    id == root || (id in lastUse && lastUse[id] >= i)
  }

  /** The nodes computed by then whose values are still to be read. */
  function Alive(lastUse: map<Id, nat>, root: Id, emitted: seq<Id>, i: nat): set<Id>
    requires i <= |emitted|
  {
    set x | x in emitted[..i] && Live(lastUse, root, x, i)
  }

  /** Every slot ever used is free or holds a value still to be read. */
  predicate Balanced(lastUse: map<Id, nat>, root: Id, emitted: seq<Id>, i: nat, free: seq<nat>, highWater: nat) {
    i <= |emitted| && highWater == |free| + |Alive(lastUse, root, emitted, i)|
  }

  predicate Distinct<T(==)>(s: seq<T>) {
    forall i, j | 0 <= i < j < |s| :: s[i] != s[j]
  }

  /** The register allocation: every value still to be read is in its slot, no
      such slot is free, and no slot is free twice. */
  ghost predicate Allocated(code: seq<Instr>, emitted: seq<Id>, lastUse: map<Id, nat>, root: Id,
                            slotOf: map<Id, nat>, free: seq<nat>, highWater: nat) {
    && |code| <= |emitted| && highWater <= U16_RANGE
    && slotOf.Keys == Done(emitted, |code|)
    && (forall id | id in slotOf :: slotOf[id] < highWater)
    && (forall id | id in slotOf && Live(lastUse, root, id, |code|) ::
          HeldAt(Contents(code, emitted, |code|), slotOf[id], id) && slotOf[id] !in free)
    && Distinct(free) && (forall f | f in free :: f < highWater)
  }

  lemma {:induction false} ContentsOfPrefix(code: seq<Instr>, more: seq<Instr>, emitted: seq<Id>, i: nat)
    requires i <= |code| && i <= |emitted|
    ensures Contents(code + more, emitted, i) == Contents(code, emitted, i)
  {
    if i > 0 {
      ContentsOfPrefix(code, more, emitted, i - 1);
    }
  }

  /** A slot about to be written: off the free list, or new. */
  ghost predicate Fresh(slotOf: map<Id, nat>, lastUse: map<Id, nat>, root: Id, i: nat, free: seq<nat>,
                        highWater: nat, dst: nat) {
    && dst < highWater && dst !in free
    && (forall id | id in slotOf && Live(lastUse, root, id, i) :: slotOf[id] != dst)
  }

  /** Writing a fresh slot disturbs no value still to be read. */
  lemma EmitKeeps(code: seq<Instr>, instr: Instr, emitted: seq<Id>, lastUse: map<Id, nat>, root: Id,
                  slotOf: map<Id, nat>, free: seq<nat>, highWater: nat)
    requires Allocated(code, emitted, lastUse, root, slotOf, free, highWater) && |code| < |emitted|
    requires Fresh(slotOf, lastUse, root, |code|, free, highWater, instr.dst)
    requires Distinct(emitted)
    ensures Allocated(code + [instr], emitted, lastUse, root, slotOf[emitted[|code|] := instr.dst], free, highWater)
  {
    var i := |code|;
    var id := emitted[i];
    ContentsOfPrefix(code, [instr], emitted, i);
    assert emitted[..i + 1] == emitted[..i] + [id];
    assert Contents(code + [instr], emitted, i + 1) == Contents(code, emitted, i)[instr.dst := id];
  }

  /** A slot whose value is read no more may be freed. */
  lemma FreeKeeps(code: seq<Instr>, emitted: seq<Id>, lastUse: map<Id, nat>, root: Id,
                  slotOf: map<Id, nat>, free: seq<nat>, highWater: nat, c: Id)
    requires Allocated(code, emitted, lastUse, root, slotOf, free, highWater)
    requires c in slotOf && !Live(lastUse, root, c, |code|) && slotOf[c] !in free
    requires HeldAt(Contents(code, emitted, |code|), slotOf[c], c)
    ensures Allocated(code, emitted, lastUse, root, slotOf, free + [slotOf[c]], highWater)
  {
  }

  /** An instruction brings one value to life and ends those it reads last. */
  lemma AliveStep(nodes: seq<ENode>, folded: set<Id>, emitted: seq<Id>, lastUse: map<Id, nat>, root: Id, i: nat, x: Id)
    requires i < |emitted| && emitted[i] < |nodes| && UsedWhenRead(nodes, folded, emitted, lastUse)
    requires forall a, b | 0 <= a < b < |emitted| :: emitted[a] < emitted[b]
    requires Live(lastUse, root, emitted[i], i + 1)
    ensures x in Alive(lastUse, root, emitted, i + 1) <==>
              x == emitted[i]
              || (x in Alive(lastUse, root, emitted, i)
                  && !(x in nodes[emitted[i]].children && IsDead(lastUse, root, x, i)))
    ensures emitted[i] !in Alive(lastUse, root, emitted, i)
  {
    assert emitted[..i + 1] == emitted[..i] + [emitted[i]];
    if x in Alive(lastUse, root, emitted, i) && x != root && lastUse[x] == i {
      assert UsedBy(nodes, folded, emitted[lastUse[x]], x);
    }
  }

  lemma SizeOfStep(before: set<Id>, ended: set<Id>, id: Id)
    requires ended <= before && id !in before
    ensures |before - ended + {id}| == |before| + 1 - |ended|
  {
    assert before == (before - ended) + ended;
  }

  lemma AliveNext(nodes: seq<ENode>, folded: set<Id>, emitted: seq<Id>, lastUse: map<Id, nat>, root: Id, i: nat,
                  dead: seq<Id>)
    requires i < |emitted| && emitted[i] < |nodes| && Distinct(dead) && UsedWhenRead(nodes, folded, emitted, lastUse)
    requires forall a, b | 0 <= a < b < |emitted| :: emitted[a] < emitted[b]
    requires forall c :: c in dead <==> c in nodes[emitted[i]].children && IsDead(lastUse, root, c, i)
    requires forall c | c in dead :: c in emitted && c < emitted[i]
    requires Live(lastUse, root, emitted[i], i + 1)
    ensures |Alive(lastUse, root, emitted, i + 1)| == |Alive(lastUse, root, emitted, i)| + 1 - |dead|
  {
    hide UsedWhenRead;
    var before, after := Alive(lastUse, root, emitted, i), Alive(lastUse, root, emitted, i + 1);
    var id := emitted[i];
    var ended := set c | c in dead;
    forall c | c in ended
      ensures c in before
    {
      EmittedBefore(emitted, i, c);
    }
    AliveStep(nodes, folded, emitted, lastUse, root, i, id);
    assert after == before - ended + {id} by {
      hide Alive;
      forall x
        ensures x in after <==> x in before - ended + {id}
      {
        AliveStep(nodes, folded, emitted, lastUse, root, i, x);
      }
    }
    SizeOfStep(before, ended, id);
    DistinctSize(dead);
  }

  lemma {:induction false} DistinctSize<T>(s: seq<T>)
    requires Distinct(s)
    ensures |(set x | x in s)| == |s|
  {
    if s == [] {
      assert (set x | x in s) == {};
    } else {
      var init, last := s[..|s| - 1], s[|s| - 1];
      DistinctSize(init);
      assert (set x | x in s) == (set x | x in init) + {last};
    }
  }

  /** Whatever is emitted is read later, but for the root. */
  lemma EmittedIsLive(arith: Arithmetic, nodes: seq<ENode>, root: Id, folded: set<Id>, emitted: seq<Id>,
                      lastUse: map<Id, nat>, i: nat)
    requires Topological(nodes) && root < |nodes| && i < |emitted| && ReadBy(nodes, folded, emitted, lastUse, |emitted|)
    requires forall a, b | 0 <= a < b < |emitted| :: emitted[a] < emitted[b]
    requires forall x :: x in emitted <==> IsKept(arith, nodes, root, x)
    requires forall y: Id | IsReader(arith, nodes, root, y) :: y !in folded
    ensures Live(lastUse, root, emitted[i], i + 1)
  {
    hide Reach, Fold;
    var x := emitted[i];
    assert x in emitted;
    if x != root {
      KeptIsRead(arith, nodes, root, x);
      var y: Id :| IsReader(arith, nodes, root, y) && x in nodes[y].children;
      assert y in emitted;
      var j :| 0 <= j < |emitted| && emitted[j] == y;
      assert ReadAt(nodes, folded, emitted, lastUse, j);
      ChildIsBefore(nodes, y, x);
      assert i < j;
    }
  }

  lemma ChildIsBefore(nodes: seq<ENode>, y: Id, x: Id)
    requires Topological(nodes) && y < |nodes| && x in nodes[y].children
    ensures x < y
  {
    assert Below(nodes[y], y);
  }

  /** What is alive before an instruction is what must be held while it runs. */
  lemma AliveIsAwaited(arith: Arithmetic, nodes: seq<ENode>, root: Id, folded: set<Id>, emitted: seq<Id>,
                       lastUse: map<Id, nat>, i: nat)
    requires Topological(nodes) && root < |nodes| && i < |emitted| && emitted[|emitted| - 1] == root
    requires Scheduled(nodes, folded, emitted, lastUse)
    requires forall a, b | 0 <= a < b < |emitted| :: emitted[a] < emitted[b]
    requires forall x :: x in emitted <==> IsKept(arith, nodes, root, x)
    requires forall y: Id | y in Reach(nodes, root) && y < |nodes| :: y in folded <==> Fold(arith, nodes, y).Some?
    ensures Alive(lastUse, root, emitted, i) == Awaited(arith, nodes, root, emitted[i])
  {
    hide Reach, Fold;
    forall x
      ensures x in Alive(lastUse, root, emitted, i) <==> IsAwaited(arith, nodes, root, emitted[i], x)
    {
      AliveAwaited(arith, nodes, root, folded, emitted, lastUse, i, x);
    }
  }

  lemma AliveAwaited(arith: Arithmetic, nodes: seq<ENode>, root: Id, folded: set<Id>, emitted: seq<Id>,
                     lastUse: map<Id, nat>, i: nat, x: Id)
    requires Topological(nodes) && root < |nodes| && i < |emitted| && emitted[|emitted| - 1] == root
    requires Scheduled(nodes, folded, emitted, lastUse)
    requires forall a, b | 0 <= a < b < |emitted| :: emitted[a] < emitted[b]
    requires forall x :: x in emitted <==> IsKept(arith, nodes, root, x)
    requires forall y: Id | y in Reach(nodes, root) && y < |nodes| :: y in folded <==> Fold(arith, nodes, y).Some?
    ensures x in Alive(lastUse, root, emitted, i) <==> IsAwaited(arith, nodes, root, emitted[i], x)
  {
    hide Reach, Fold;
    assert emitted[i] in emitted && emitted[|emitted| - 1] in emitted;
    if x in Alive(lastUse, root, emitted, i) {
      var k :| 0 <= k < i && emitted[k] == x;
      assert x in emitted && x != root && x < emitted[i];
      var y := emitted[lastUse[x]];
      assert y in emitted && UsedBy(nodes, folded, y, x) && IsReader(arith, nodes, root, y);
      assert emitted[i] <= y;
    }
    if IsAwaited(arith, nodes, root, emitted[i], x) {
      EmittedBefore(emitted, i, x);
      var y: Id :| IsReader(arith, nodes, root, y) && emitted[i] <= y && x in nodes[y].children;
      assert y in emitted;
      var j :| 0 <= j < |emitted| && emitted[j] == y;
      assert ReadAt(nodes, folded, emitted, lastUse, j);
      assert i <= j;
    }
  }

  /** The constant is loaded by one of the first instructions. */
  ghost predicate IsLoaded(valueOf: map<Id, Double>, emitted: seq<Id>, n: nat, v: Double)
    requires n <= |emitted|
  {
    exists x :: x in emitted[..n] && x in valueOf && valueOf[x] == v
  }

  lemma LoadedNext(valueOf: map<Id, Double>, emitted: seq<Id>, n: nat)
    requires n < |emitted|
    ensures forall v :: IsLoaded(valueOf, emitted, n + 1, v) <==>
                          IsLoaded(valueOf, emitted, n, v) || (emitted[n] in valueOf && v == valueOf[emitted[n]])
  {
    assert emitted[..n + 1] == emitted[..n] + [emitted[n]];
    forall v
      ensures IsLoaded(valueOf, emitted, n + 1, v) <==>
                IsLoaded(valueOf, emitted, n, v) || (emitted[n] in valueOf && v == valueOf[emitted[n]])
    {
      if IsLoaded(valueOf, emitted, n, v) {
        var x :| x in emitted[..n] && x in valueOf && valueOf[x] == v;
        assert x in emitted[..n + 1];
      }
      if emitted[n] in valueOf && v == valueOf[emitted[n]] {
        assert emitted[n] in emitted[..n + 1];
      }
    }
  }

  /** The next instruction finds no slot, or no room for its constant. */
  ghost predicate IsStuck(valueOf: map<Id, Double>, lastUse: map<Id, nat>, root: Id, emitted: seq<Id>, i: nat,
                          consts: seq<Double>) {
    && i < |emitted|
    && (|| |Alive(lastUse, root, emitted, i)| >= U16_RANGE
        || (emitted[i] in valueOf && |consts| == U16_RANGE && valueOf[emitted[i]] !in consts))
  }

  lemma NothingAlive(lastUse: map<Id, nat>, root: Id, emitted: seq<Id>)
    ensures Alive(lastUse, root, emitted, 0) == {}
  {
  }

  /** What is emitted, and when it is read. */
  ghost predicate IsPlanned(arith: Arithmetic, nodes: seq<ENode>, root: Id, valueOf: map<Id, Double>, emitted: seq<Id>,
                            lastUse: map<Id, nat>) {
    && Topological(nodes) && root < |nodes| && emitted != [] && emitted[|emitted| - 1] == root
    && Scheduled(nodes, valueOf.Keys, emitted, lastUse)
    && (forall a, b | 0 <= a < b < |emitted| :: emitted[a] < emitted[b])
    && (forall x :: x in emitted <==> IsKept(arith, nodes, root, x))
    && (forall y: Id | y in Reach(nodes, root) && y < |nodes| :: y in valueOf <==> Fold(arith, nodes, y).Some?)
    && (forall y | y in valueOf :: y < |nodes| && Fold(arith, nodes, y) == Some(valueOf[y]))
  }

  lemma LoadedIsLiteral(arith: Arithmetic, nodes: seq<ENode>, root: Id, valueOf: map<Id, Double>, emitted: seq<Id>,
                        lastUse: map<Id, nat>, n: nat, v: Double)
    requires IsPlanned(arith, nodes, root, valueOf, emitted, lastUse) && n <= |emitted|
    ensures IsLoaded(valueOf, emitted, n, v) ==> v in Literals(arith, nodes, root)
    ensures n == |emitted| && v in Literals(arith, nodes, root) ==> IsLoaded(valueOf, emitted, n, v)
  {
    hide Reach, Fold, Scheduled;
    if IsLoaded(valueOf, emitted, n, v) {
      var x :| x in emitted[..n] && x in valueOf && valueOf[x] == v;
      assert x in emitted && IsKept(arith, nodes, root, x);
    }
    if n == |emitted| && v in Literals(arith, nodes, root) {
      var x :| x in Reach(nodes, root) && IsKept(arith, nodes, root, x) && Fold(arith, nodes, x).Some?
               && v == Fold(arith, nodes, x).value;
      assert x in emitted && emitted[..n] == emitted;
    }
  }

  lemma StuckIsTooLarge(arith: Arithmetic, nodes: seq<ENode>, root: Id, valueOf: map<Id, Double>, emitted: seq<Id>,
                        lastUse: map<Id, nat>, i: nat, consts: seq<Double>)
    requires IsPlanned(arith, nodes, root, valueOf, emitted, lastUse)
    requires IsStuck(valueOf, lastUse, root, emitted, i, consts)
    requires Distinct(consts) && forall v :: v in consts <==> IsLoaded(valueOf, emitted, i, v)
    ensures IsTooLarge(arith, nodes, root)
  {
    hide Reach, Fold, Alive, Awaited, Literals, IsLoaded;
    assert emitted[i] in emitted;
    AliveIsAwaited(arith, nodes, root, valueOf.Keys, emitted, lastUse, i);
    if |Alive(lastUse, root, emitted, i)| < U16_RANGE {
      var v := valueOf[emitted[i]];
      LoadedNext(valueOf, emitted, i);
      var loaded := set w | w in consts;
      DistinctSize(consts);
      forall w | w in loaded + {v}
        ensures w in Literals(arith, nodes, root)
      {
        LoadedIsLiteral(arith, nodes, root, valueOf, emitted, lastUse, i + 1, w);
      }
      SubsetIsFewer(loaded + {v}, Literals(arith, nodes, root));
    }
  }

  lemma FitsIsNotTooLarge(arith: Arithmetic, nodes: seq<ENode>, root: Id, valueOf: map<Id, Double>, emitted: seq<Id>,
                          lastUse: map<Id, nat>, consts: seq<Double>)
    requires IsPlanned(arith, nodes, root, valueOf, emitted, lastUse)
    requires Distinct(consts) && (forall v :: v in consts <==> IsLoaded(valueOf, emitted, |emitted|, v))
    requires |consts| <= U16_RANGE
    requires forall j | 0 <= j < |emitted| :: |Alive(lastUse, root, emitted, j)| < U16_RANGE
    ensures !IsTooLarge(arith, nodes, root)
  {
    hide Reach, Fold, Alive, Awaited, Literals, IsLoaded;
    var loaded := set w | w in consts;
    DistinctSize(consts);
    forall v | v in Literals(arith, nodes, root)
      ensures v in loaded
    {
      LoadedIsLiteral(arith, nodes, root, valueOf, emitted, lastUse, |emitted|, v);
    }
    SubsetIsFewer(Literals(arith, nodes, root), loaded);
    forall e: Id | IsKept(arith, nodes, root, e)
      ensures |Awaited(arith, nodes, root, e)| < U16_RANGE
    {
      assert e in emitted;
      var j :| 0 <= j < |emitted| && emitted[j] == e;
      AliveIsAwaited(arith, nodes, root, valueOf.Keys, emitted, lastUse, j);
    }
  }

  lemma SubsetIsFewer<T>(a: set<T>, b: set<T>)
    requires a <= b
    ensures |a| <= |b|
  {
    assert b == a + (b - a);
  }

  /** There are no more slots than indices. */
  lemma SlotsAreFew(code: seq<Instr>, emitted: seq<Id>, lastUse: map<Id, nat>, root: Id, slotOf: map<Id, nat>,
                    free: seq<nat>, highWater: nat)
    requires Allocated(code, emitted, lastUse, root, slotOf, free, highWater)
    ensures highWater <= U16_RANGE
  {
  }

  lemma LastIsHeld(code: seq<Instr>, emitted: seq<Id>)
    requires 0 < |code| <= |emitted|
    ensures HeldAt(Contents(code, emitted, |code|), code[|code| - 1].dst, emitted[|code| - 1])
  {
  }

  lemma DeadAreBefore(nodes: seq<ENode>, emitted: seq<Id>, folded: set<Id>, lastUse: map<Id, nat>, root: Id, i: nat,
                      dead: seq<Id>)
    requires Topological(nodes) && i < |emitted| && emitted[i] < |nodes|
    requires UsedWhenRead(nodes, folded, emitted, lastUse)
    requires forall x, c | x in emitted && x !in folded && x < |nodes| && c in nodes[x].children :: c in emitted
    requires forall c | c in dead :: c in nodes[emitted[i]].children && IsDead(lastUse, root, c, i)
    ensures forall c | c in dead :: c in emitted && c < emitted[i]
  {
    forall c | c in dead
      ensures c in emitted && c < emitted[i]
    {
      assert UsedBy(nodes, folded, emitted[lastUse[c]], c) && emitted[i] in emitted;
      ChildIsBefore(nodes, emitted[i], c);
    }
  }

  class Compiler {
    const arith: Arithmetic
    const nodes: seq<ENode>
    const root: Id
    var order: seq<Id>
    var code: seq<Instr>
    var consts: seq<Double>
    var constIndex: map<Double, nat>
    var params: seq<Sym>
    /** Slot holding each emitted node. */
    var slotOf: map<Id, nat>
    /** Compile-time value of each node that has one. */
    var valueOf: map<Id, Double>
    var free: seq<nat>
    var highWater: nat

    /** The constant pool is indexed by value, and fits sixteen bits. */
    ghost predicate Pool()
      reads this
    {
      && |consts| <= U16_RANGE
      && (forall x | x in constIndex :: constIndex[x] < |consts| && consts[constIndex[x]] == x)
      && (forall x | x in consts :: x in constIndex) && Distinct(consts)
    }

    ghost predicate Ready()
      reads this
    {
      && Topological(nodes) && root < |nodes|
      && (forall i, j | 0 <= i < j < |order| :: order[i] < order[j])
      && (forall x :: x in order <==> x in Reach(nodes, root))
      && order != [] && order[|order| - 1] == root
      && (forall s :: s in params <==> Reads(nodes, order, s))
    }

    constructor (arith: Arithmetic, nodes: seq<ENode>, root: Id, rank: Sym -> nat)
      requires Topological(nodes) && root < |nodes|
      ensures this.arith == arith && this.nodes == nodes && this.root == root
      ensures Ready() && Pool() && code == [] && consts == [] && slotOf == map[] && valueOf == map[]
      ensures free == [] && highWater == 0
    {
      this.arith, this.nodes, this.root := arith, nodes, root;
      code, consts, constIndex := [], [], map[];
      slotOf, valueOf, free, highWater := map[], map[], [], 0;
      order, params := [], [];
      new;
      var reached := Reachable(nodes, root);
      ReachIsBelow(nodes, root);
      order := reached;
      params := Parameters(nodes, reached, rank);
    }

    method InternConst(x: Double) returns (k: Result<nat>)
      requires Pool()
      modifies this`consts, this`constIndex
      ensures Pool() && old(consts) <= consts && |consts| <= |old(consts)| + 1
      ensures k.Ok? ==> k.value < |consts| && consts[k.value] == x
      ensures k.Ok? ==> forall v :: v in consts <==> v in old(consts) || v == x
      ensures k.Err? ==> k.error == ProgramTooLarge && consts == old(consts) && |consts| == U16_RANGE && x !in consts
    {
      if x in constIndex {
        return Ok(constIndex[x]);
      }
      var i := |consts|;
      if i >= U16_RANGE {
        return Err(ProgramTooLarge);
      }
      consts := consts + [x];
      constIndex := constIndex[x := i];
      k := Ok(i);
    }

    method Alloc(ghost emitted: seq<Id>, ghost lastUse: map<Id, nat>) returns (s: Result<nat>)
      requires Allocated(code, emitted, lastUse, root, slotOf, free, highWater)
      modifies this`free, this`highWater
      ensures Allocated(code, emitted, lastUse, root, slotOf, free, highWater)
      ensures old(highWater) <= highWater <= old(highWater) + 1
      ensures s.Ok? ==> Fresh(slotOf, lastUse, root, |code|, free, highWater, s.value)
      ensures s.Ok? ==> highWater - |free| == old(highWater - |free|) + 1
      ensures s.Err? ==>
                s.error == ProgramTooLarge && old(highWater) == highWater == U16_RANGE && old(free) == free == []
    {
      if free != [] {
        var top := free[|free| - 1];
        assert top in free;
        free := free[..|free| - 1];
        assert forall f | f in free :: f in old(free);
        s := Ok(top);
      } else {
        if highWater >= U16_RANGE {
          return Err(ProgramTooLarge);
        }
        s := Ok(highWater);
        highWater := highWater + 1;
      }
    }

    /** Pass one: fold. One forward pass settles the whole expression. */
    method FoldAll() returns (r: Result<()>)
      requires Ready() && valueOf == map[]
      modifies this`valueOf
      ensures r.Err? ==> r.error == UnreducedDiff && exists x :: x in order && x < |nodes| && nodes[x].op.Diff?
      ensures r.Ok? ==> Folded()
    {
      ReachIsBelow(nodes, root);
      for i := 0 to |order|
        invariant forall x | x in order[..i] :: x < |nodes| && !nodes[x].op.Diff?
        invariant forall x :: x in valueOf <==> x in order[..i] && x < |nodes| && Fold(arith, nodes, x).Some?
        invariant forall x | x in valueOf :: x < |nodes| && Fold(arith, nodes, x) == Some(valueOf[x])
      {
        var id := order[i];
        assert id in order && order[..i + 1] == order[..i] + [id];
        if nodes[id].op.Diff? {
          return Err(UnreducedDiff);
        }
        forall k | 0 <= k < |nodes[id].children|
          ensures nodes[id].children[k] in order[..i]
        {
          ChildComesBefore(nodes, root, order, i, k);
        }
        var v := FoldNode(id);
        if v.Some? {
          valueOf := valueOf[id := v.value];
        }
      }
      assert order[..|order|] == order;
      r := Ok(());
    }

    /** The compile-time value of one node, from those known so far. */
    method FoldNode(id: Id) returns (v: Option<Double>)
      requires Topological(nodes) && id < |nodes|
      requires forall x | x in valueOf :: x < |nodes| && Fold(arith, nodes, x) == Some(valueOf[x])
      requires forall k | 0 <= k < |nodes[id].children| ::
                 nodes[id].children[k] in valueOf || Fold(arith, nodes, nodes[id].children[k]).None?
      ensures v == Fold(arith, nodes, id)
    {
      var n := nodes[id];
      if n.op.Const? {
        return Some(n.op.c);
      }
      if n.op.Var? || n.op.Diff? {
        return None;
      }
      var args := [];
      for k := 0 to |n.children|
        invariant |args| == k && forall j | 0 <= j < k :: Fold(arith, nodes, n.children[j]) == Some(args[j])
      {
        if n.children[k] !in valueOf {
          return None;
        }
        args := args + [valueOf[n.children[k]]];
      }
      assert Folds(arith, nodes, id, |n.children|).value == args;
      v := OpEval(arith, n.op, args);
    }

    /** No derivative is reachable, and exactly the foldable nodes are folded. */
    ghost predicate Folded()
      reads this
      requires Topological(nodes)
    {
      && (forall x | x in order :: x < |nodes| && !nodes[x].op.Diff?)
      && (forall x :: x in valueOf <==> x in order && x < |nodes| && Fold(arith, nodes, x).Some?)
      && (forall x | x in valueOf :: x < |nodes| && Fold(arith, nodes, x) == Some(valueOf[x]))
    }

    /** The operands of what is not folded, and the root. */
    method Needed() returns (needed: set<Id>)
      requires Ready() && Folded()
      ensures root in needed
      ensures forall j | 0 <= j < |order| :: NeedsOperands(nodes, valueOf.Keys, order[j], needed)
      ensures forall c | c in needed :: c == root || IsOperand(arith, nodes, root, c)
    {
      hide Reach, Reads;
      needed := {root};
      for i := 0 to |order|
        invariant root in needed
        invariant forall c | c in needed :: c == root || IsOperand(arith, nodes, root, c)
        invariant forall j | 0 <= j < i :: NeedsOperands(nodes, valueOf.Keys, order[j], needed)
      {
        assert order[i] in order;
        if order[i] !in valueOf {
          ghost var before := needed;
          assert IsReader(arith, nodes, root, order[i]);
          needed := needed + (set c | c in nodes[order[i]].children);
          forall j | 0 <= j < i
            ensures NeedsOperands(nodes, valueOf.Keys, order[j], needed)
          {
            assert NeedsOperands(nodes, valueOf.Keys, order[j], before);
          }
        }
      }
    }

    /** The nodes worth an instruction: whatever is not folded, what such a node
        reads, and the root. */
    method Emitted() returns (emitted: seq<Id>)
      requires Ready() && Folded()
      ensures Selected(emitted)
    {
      hide NeedsOperands, Reads, Reach, Fold;
      var needed := Needed();
      emitted := [];
      for i := 0 to |order|
        invariant forall a, b | 0 <= a < b < |emitted| :: emitted[a] < emitted[b]
        invariant forall a | 0 <= a < |emitted| :: i < |order| ==> emitted[a] < order[i]
        invariant forall x :: x in emitted <==> x in order[..i] && (x !in valueOf || x in needed)
        invariant i == |order| ==> emitted != [] && emitted[|emitted| - 1] == root
      {
        assert order[..i + 1] == order[..i] + [order[i]];
        if order[i] !in valueOf || order[i] in needed {
          emitted := emitted + [order[i]];
        }
      }
      assert order[..|order|] == order;
      forall x, c | x in emitted && x !in valueOf && x < |nodes| && c in nodes[x].children
        ensures c in emitted
      {
        OperandIsNeeded(nodes, root, valueOf.Keys, order, needed, x, c);
      }
      forall x
        ensures x in emitted <==> IsKept(arith, nodes, root, x)
      {
        if IsKept(arith, nodes, root, x) && x != root && x in valueOf {
          var y: Id :| IsReader(arith, nodes, root, y) && x in nodes[y].children;
          OperandIsNeeded(nodes, root, valueOf.Keys, order, needed, y, x);
        }
      }
    }

    /** What is emitted: in order, the root last, operands included. */
    ghost predicate Selected(emitted: seq<Id>)
      reads this
      requires Topological(nodes) && root < |nodes|
    {
      && (forall a, b | 0 <= a < b < |emitted| :: emitted[a] < emitted[b])
      && (forall x | x in emitted :: x in order && x < |nodes|)
      && (forall x :: x in emitted <==> IsKept(arith, nodes, root, x))
      && (forall x, c | x in emitted && x !in valueOf && x < |nodes| && c in nodes[x].children :: c in emitted)
      && emitted != [] && emitted[|emitted| - 1] == root
    }

    /** Pass two: emit. */
    method EmitAll(emitted: seq<Id>, lastUse: map<Id, nat>) returns (r: Result<()>)
      requires Ready() && Folded() && Selected(emitted) && Scheduled(nodes, valueOf.Keys, emitted, lastUse)
      requires Pool() && code == [] && consts == [] && slotOf == map[] && free == [] && highWater == 0
      modifies this`code, this`consts, this`constIndex, this`slotOf, this`free, this`highWater
      ensures r.Err? ==> r.error == ProgramTooLarge && |emitted| > U16_RANGE
      ensures r.Ok? ==> |code| == |emitted| && AllCompute(emitted) && highWater <= U16_RANGE
      ensures r.Err? <==> IsTooLarge(arith, nodes, root)
    {
      hide Computes, Fold, ReadBy, UsedWhenRead, Reach, Fresh, Alive, IsTooLarge;
      NothingAlive(lastUse, root, emitted);
      for i := 0 to |emitted|
        invariant |code| == i && Pool() && AllCompute(emitted)
        invariant Allocated(code, emitted, lastUse, root, slotOf, free, highWater)
        invariant highWater <= i && |consts| <= i
        invariant Accounted(emitted, lastUse) && forall j | 0 <= j < i :: |Alive(lastUse, root, emitted, j)| < U16_RANGE
      {
        ghost var loaded := consts;
        var e := EmitOne(emitted, lastUse);
        if e.Err? {
          StuckIsTooLarge(arith, nodes, root, valueOf, emitted, lastUse, i, loaded);
          return Err(e.error);
        }
      }
      FitsIsNotTooLarge(arith, nodes, root, valueOf, emitted, lastUse, consts);
      r := Ok(());
    }

    /** The slots and the constants taken so far, counted. */
    ghost predicate Accounted(emitted: seq<Id>, lastUse: map<Id, nat>)
      reads this
    {
      && Balanced(lastUse, root, emitted, |code|, free, highWater)
      && forall v :: v in consts <==> IsLoaded(valueOf, emitted, |code|, v)
    }

    /** Each instruction so far computes its node from the slots before it. */
    ghost predicate AllCompute(emitted: seq<Id>)
      reads this
      requires Topological(nodes)
    {
      ComputeAll(arith, nodes, consts, params, highWater, code, emitted)
    }

    /** Emit the next instruction, and recycle the slots it reads last. */
    method EmitOne(emitted: seq<Id>, lastUse: map<Id, nat>) returns (r: Result<()>)
      requires Ready() && Folded() && Selected(emitted) && Scheduled(nodes, valueOf.Keys, emitted, lastUse)
      requires Pool() && AllCompute(emitted) && |code| < |emitted|
      requires Allocated(code, emitted, lastUse, root, slotOf, free, highWater)
      requires highWater <= |code| && |consts| <= |code| && Accounted(emitted, lastUse)
      modifies this`code, this`consts, this`constIndex, this`slotOf, this`free, this`highWater
      ensures r.Err? ==> r.error == ProgramTooLarge && old(|code|) >= U16_RANGE
      ensures r.Ok? ==>
                && |code| == old(|code|) + 1 && Pool() && AllCompute(emitted)
                && Allocated(code, emitted, lastUse, root, slotOf, free, highWater)
                && highWater <= |code| && |consts| <= |code|
      ensures r.Ok? ==> Accounted(emitted, lastUse) && |Alive(lastUse, root, emitted, old(|code|))| < U16_RANGE
      ensures r.Err? ==> IsStuck(valueOf, lastUse, root, emitted, old(|code|), old(consts))
    {
      hide Allocated, ComputeAll, Computes, Fresh, InstrInRange, ReadBy, Contents, Reads, Reach, Fold, Alive,
           IsLoaded, UsedWhenRead;
      var i := |code|;
      assert emitted[i] in emitted;
      SlotsAreFew(code, emitted, lastUse, root, slotOf, free, highWater);
      var instr := Emit(emitted, lastUse);
      if instr.Err? {
        return Err(instr.error);
      }
      SlotsAreFew(code, emitted, lastUse, root, slotOf, free, highWater);
      assert |Alive(lastUse, root, emitted, i)| < U16_RANGE;
      LoadedNext(valueOf, emitted, i);
      Append(emitted, lastUse, instr.value);
      assert Balanced(lastUse, root, emitted, |code|, free, highWater);
      assert forall v :: v in consts <==> IsLoaded(valueOf, emitted, |code|, v);
      r := Ok(());
    }

    /** Write the instruction, and recycle the slots it reads last. */
    method Append(emitted: seq<Id>, lastUse: map<Id, nat>, instr: Instr)
      requires Ready() && Folded() && Selected(emitted) && Scheduled(nodes, valueOf.Keys, emitted, lastUse)
      requires AllCompute(emitted) && |code| < |emitted| && emitted[|code|] < |nodes|
      requires Allocated(code, emitted, lastUse, root, slotOf, free, highWater)
      requires Fresh(slotOf, lastUse, root, |code|, free, highWater, instr.dst)
      requires Computes(arith, nodes, consts, params, instr, Contents(code, emitted, |code|), emitted[|code|])
      requires InstrInRange(Program([], consts, params, highWater), instr)
      modifies this`code, this`slotOf, this`free
      ensures |code| == old(|code|) + 1 && AllCompute(emitted)
      ensures Allocated(code, emitted, lastUse, root, slotOf, free, highWater)
      ensures |free| - old(|free|)
                == |Alive(lastUse, root, emitted, old(|code|))| + 1 - |Alive(lastUse, root, emitted, |code|)|
    {
      hide Allocated, ComputeAll, Computes, Fresh, InstrInRange, ReadBy, Contents, Reads, Reach, Fold, Alive,
           UsedWhenRead;
      var i := |code|;
      assert emitted[i] in emitted;
      AppendComputes(arith, nodes, consts, params, highWater, code, instr, emitted);
      EmitKeeps(code, instr, emitted, lastUse, root, slotOf, free, highWater);
      DeadIsHeld(nodes, valueOf.Keys, code, instr, emitted, lastUse, root, slotOf, free, highWater);
      code := code + [instr];
      slotOf := slotOf[emitted[i] := instr.dst];
      LastIsHeld(code, emitted);
      ghost var dead := Recycle(emitted, lastUse, instr.dst);
      EmittedIsLive(arith, nodes, root, valueOf.Keys, emitted, lastUse, i);
      DeadAreBefore(nodes, emitted, valueOf.Keys, lastUse, root, i, dead);
      AliveNext(nodes, valueOf.Keys, emitted, lastUse, root, i, dead);
    }

    /** The next instruction, writing a slot no value still to be read is in. */
    method Emit(emitted: seq<Id>, ghost lastUse: map<Id, nat>) returns (r: Result<Instr>)
      requires Ready() && Folded() && Selected(emitted) && Scheduled(nodes, valueOf.Keys, emitted, lastUse)
      requires Pool() && AllCompute(emitted) && |code| < |emitted|
      requires Allocated(code, emitted, lastUse, root, slotOf, free, highWater)
      requires highWater <= |code| && |consts| <= |code| && Balanced(lastUse, root, emitted, |code|, free, highWater)
      modifies this`consts, this`constIndex, this`free, this`highWater
      ensures Pool() && AllCompute(emitted) && Allocated(code, emitted, lastUse, root, slotOf, free, highWater)
      ensures highWater <= |code| + 1 && |consts| <= |code| + 1
      ensures r.Err? ==> r.error == ProgramTooLarge && |code| >= U16_RANGE
      ensures r.Err? ==> IsStuck(valueOf, lastUse, root, emitted, |code|, old(consts))
      ensures r.Ok? ==> highWater - |free| == old(highWater - |free|) + 1
      ensures r.Ok? ==> forall v :: v in consts <==>
                          v in old(consts) || (emitted[|code|] in valueOf && v == valueOf[emitted[|code|]])
      ensures r.Ok? ==> emitted[|code|] < |nodes|
      ensures r.Ok? ==> Fresh(slotOf, lastUse, root, |code|, free, highWater, r.value.dst)
      ensures r.Ok? ==>
                Computes(arith, nodes, consts, params, r.value, Contents(code, emitted, |code|), emitted[|code|])
      ensures r.Ok? ==> InstrInRange(Program([], consts, params, highWater), r.value)
    {
      hide Allocated, ComputeAll, Scheduled, Computes, Fresh, Alive;
      var id := emitted[|code|];
      assert id in emitted;
      if id in valueOf {
        r := EmitLiteral(emitted, lastUse, valueOf[id]);
        LiteralComputes(arith, nodes, consts, params, r, Contents(code, emitted, |code|), id, valueOf[id]);
      } else {
        var operands := Operands(emitted, lastUse);
        ghost var before := highWater;
        var dst := Alloc(emitted, lastUse);
        PoolGrows(arith, nodes, consts, consts, params, before, highWater, code, emitted);
        if dst.Err? {
          return Err(dst.error);
        }
        FreshIsBelow(slotOf, lastUse, root, |code|, free, highWater, dst.value);
        if nodes[id].op.Var? {
          ParameterIsListed(nodes, order, id);
        }
        NotFoldedNotConst(arith, nodes, id);
        r := Ok(Encode(nodes[id], params, dst.value, operands));
        EncodeComputes(arith, nodes, consts, params, Contents(code, emitted, |code|), id, dst.value, operands,
                       highWater);
      }
    }

    /** Load a compile-time value. */
    method EmitLiteral(emitted: seq<Id>, ghost lastUse: map<Id, nat>, v: Double) returns (r: Result<Instr>)
      requires Topological(nodes) && Pool() && AllCompute(emitted) && |code| < |emitted|
      requires Allocated(code, emitted, lastUse, root, slotOf, free, highWater)
      requires highWater <= |code| && |consts| <= |code| && Balanced(lastUse, root, emitted, |code|, free, highWater)
      modifies this`consts, this`constIndex, this`free, this`highWater
      ensures Pool() && AllCompute(emitted) && Allocated(code, emitted, lastUse, root, slotOf, free, highWater)
      ensures highWater <= |code| + 1 && |consts| <= |code| + 1
      ensures r.Err? ==> r.error == ProgramTooLarge && |code| >= U16_RANGE
      ensures r.Err? ==>
                || |Alive(lastUse, root, emitted, |code|)| >= U16_RANGE
                || (|old(consts)| == U16_RANGE && v !in old(consts))
      ensures r.Ok? ==> highWater - |free| == old(highWater - |free|) + 1
      ensures r.Ok? ==> forall w :: w in consts <==> w in old(consts) || w == v
      ensures r.Ok? ==> Fresh(slotOf, lastUse, root, |code|, free, highWater, r.value.dst)
      ensures r.Ok? ==> r.value.LoadConst? && r.value.k < |consts| && consts[r.value.k] == v && r.value.dst < highWater
    {
      hide Allocated, ComputeAll;
      ghost var before := (consts, highWater);
      var k := InternConst(v);
      PoolGrows(arith, nodes, before.0, consts, params, before.1, highWater, code, emitted);
      if k.Err? {
        return Err(k.error);
      }
      var dst := Alloc(emitted, lastUse);
      PoolGrows(arith, nodes, consts, consts, params, before.1, highWater, code, emitted);
      if dst.Err? {
        return Err(dst.error);
      }
      r := Ok(LoadConst(dst.value, k.value));
    }

    /** The slots of the operands of the next node, each still holding its value. */
    method Operands(emitted: seq<Id>, ghost lastUse: map<Id, nat>) returns (operands: seq<nat>)
      requires Ready() && Selected(emitted) && Scheduled(nodes, valueOf.Keys, emitted, lastUse)
      requires |code| < |emitted| && emitted[|code|] < |nodes| && emitted[|code|] !in valueOf
      requires Allocated(code, emitted, lastUse, root, slotOf, free, highWater)
      ensures |operands| == |nodes[emitted[|code|]].children|
      ensures forall k | 0 <= k < |operands| ::
                operands[k] < highWater
                && HeldAt(Contents(code, emitted, |code|), operands[k], nodes[emitted[|code|]].children[k])
    {
      var i := |code|;
      var id := emitted[i];
      var children := nodes[id].children;
      operands := [];
      for k := 0 to |children|
        invariant |operands| == k
        invariant forall j | 0 <= j < k ::
                    operands[j] < highWater && HeldAt(Contents(code, emitted, i), operands[j], children[j])
      {
        var c := children[k];
        assert c in children && id in emitted && c in emitted;
        EmittedBefore(emitted, i, c);
        assert ReadAt(nodes, valueOf.Keys, emitted, lastUse, i);
        operands := operands + [slotOf[c]];
      }
    }

    /** Free the slots of operands whose last use was the instruction just
        emitted, each once. */
    method Recycle(emitted: seq<Id>, lastUse: map<Id, nat>, dst: nat) returns (ghost ended: seq<Id>)
      requires Topological(nodes) && 0 < |code| <= |emitted| && emitted[|code| - 1] < |nodes|
      requires HeldAt(Contents(code, emitted, |code|), dst, emitted[|code| - 1])
      requires Allocated(code, emitted, lastUse, root, slotOf, free, highWater)
      requires forall c | c in nodes[emitted[|code| - 1]].children && IsDead(lastUse, root, c, |code| - 1) ::
                 c in slotOf && slotOf[c] !in free && HeldAt(Contents(code, emitted, |code|), slotOf[c], c)
      modifies this`free
      ensures Allocated(code, emitted, lastUse, root, slotOf, free, highWater)
      ensures Distinct(ended) && |free| == old(|free|) + |ended|
      ensures forall c ::
                c in ended <==> c in nodes[emitted[|code| - 1]].children && IsDead(lastUse, root, c, |code| - 1)
    {
      var i := |code| - 1;
      var children := nodes[emitted[i]].children;
      var dead := DeadOperands(children, lastUse, root, i);
      ended := dead;
      assert forall k | 0 <= k < |dead| :: dead[k] in dead;
      for j := 0 to |dead|
        invariant Allocated(code, emitted, lastUse, root, slotOf, free, highWater)
        invariant forall k | j <= k < |dead| :: slotOf[dead[k]] !in free
        invariant |free| == old(|free|) + j
      {
        var s := slotOf[dead[j]];
        assert dead[j] in dead;
        ChildIsBefore(nodes, emitted[i], dead[j]);
        HeldOnce(Contents(code, emitted, |code|), s, dst, dead[j], emitted[i]);
        if s != dst {
          FreeKeeps(code, emitted, lastUse, root, slotOf, free, highWater, dead[j]);
          free := free + [s];
          forall k | j < k < |dead|
            ensures slotOf[dead[k]] != s
          {
            assert dead[k] in dead;
            HeldOnce(Contents(code, emitted, |code|), slotOf[dead[k]], s, dead[k], dead[j]);
          }
        }
      }
    }

    /** Compile, or say why not. */
    method Run() returns (r: Result<Program>)
      requires Ready() && Pool() && code == [] && consts == [] && slotOf == map[] && valueOf == map[]
      requires free == [] && highWater == 0
      modifies this
      ensures r == Err(UnreducedDiff) <==> exists x :: x in Reach(nodes, root) && x < |nodes| && nodes[x].op.Diff?
      ensures r == Err(ProgramTooLarge) <==> r != Err(UnreducedDiff) && IsTooLarge(arith, nodes, root)
      ensures r.Err? && r.error != UnreducedDiff ==> r.error == ProgramTooLarge && |nodes| > U16_RANGE
      ensures r.Ok? ==> Implements(arith, nodes, root, r.value)
      ensures r.Ok? ==> forall s ::
                s in r.value.params <==> exists x :: x in Reach(nodes, root) && x < |nodes| && nodes[x].op == Var(s)
    {
      hide ComputeAll, Certified, Allocated, ReadBy, UsedWhenRead, Fold;
      var folded := FoldAll();
      if folded.Err? {
        return Err(folded.error);
      }
      var emitted := Emitted();
      var lastUse := LastUses(nodes, valueOf.Keys, emitted);
      var done := EmitAll(emitted, lastUse);
      if done.Err? {
        AscendingIsShort(emitted, |nodes|);
        return Err(done.error);
      }
      var slots := if highWater == 0 then 1 else highWater;
      CodeIsCertified(arith, nodes, root, consts, params, highWater, code, emitted);
      r := Ok(Program(code, consts, params, slots));
    }
  }

  /** A program for the term, run in an environment, and the interpreter agree:
      on the value, and on whether there is one. */
  lemma ProgramAgrees(arith: Arithmetic, nodes: seq<ENode>, root: Id, p: Program, env: Env,
                      args: seq<Double>, slots: seq<Double>)
    requires Implements(arith, nodes, root, p) && |args| == |p.params| <= U16_RANGE && |slots| == p.slots
    requires root < |nodes| && Topological(nodes)
    requires forall s :: s in p.params <==> exists x :: x in Reach(nodes, root) && x < |nodes| && nodes[x].op == Var(s)
    requires forall i | 0 <= i < |args| :: p.params[i] in env && args[i] == env[p.params[i]]
    ensures p.code != [] && InRange(p) && p.code[|p.code| - 1].dst < p.slots
    ensures Val(arith, nodes, env, root) == Some(Slots(arith, p, args, slots, |p.code|)[p.code[|p.code| - 1].dst])
  {
    hide Val, Reach, Implements;
    RunIsVal(arith, nodes, root, p, args, slots);
    forall x | x in Reach(nodes, root) && x < |nodes| && nodes[x].op.Var?
      ensures Agree(Bind(p.params, args), env, nodes[x].op.s)
    {
      assert nodes[x].op == Var(nodes[x].op.s);
      assert nodes[x].op.s in p.params;
      assert p.params[IndexOf(p.params, nodes[x].op.s)] == nodes[x].op.s;
    }
    ValAgrees(arith, nodes, Bind(p.params, args), env, root);
  }

  /** Compile a term and run it in an environment. */
  method CompileAndEval(arith: Arithmetic, nodes: seq<ENode>, root: Id, rank: Sym -> nat, env: Env)
    returns (compiled: Result<Program>, r: Result<Double>)
    requires Topological(nodes) && root < |nodes|
    ensures compiled.Err? ==> r == Err(compiled.error)
    ensures compiled.Ok? && |compiled.value.params| <= U16_RANGE ==>
              && (r.Ok? <==> Val(arith, nodes, env, root).Some?)
              && (r.Ok? ==> Val(arith, nodes, env, root) == Some(r.value))
              && (r.Err? ==> exists x :: x in Reach(nodes, root) && x < |nodes| && Faulty(nodes[x], env, r.error))
  {
    hide Val, Reach, Implements;
    var c := new Compiler(arith, nodes, root, rank);
    compiled := c.Run();
    if compiled.Err? {
      return compiled, Err(compiled.error);
    }
    var p := compiled.value;
    ImplementsInRange(arith, nodes, root, p);
    r := EvalEnv(arith, p, env);
    if |p.params| <= U16_RANGE {
      if r.Ok? {
        ghost var args, s :| RunsTo(arith, p, env, args, s, r.value);
        ProgramAgrees(arith, nodes, root, p, env, args, s);
      } else {
        var x :| x in Reach(nodes, root) && x < |nodes| && nodes[x].op == Var(r.error.s);
        VarFails(arith, nodes, env, x);
        ValFails(arith, nodes, env, root, x);
        assert Faulty(nodes[x], env, r.error);
      }
    }
  }

  lemma VarFails(arith: Arithmetic, nodes: seq<ENode>, env: Env, x: Id)
    requires Topological(nodes) && x < |nodes| && nodes[x].op.Var? && nodes[x].op.s !in env
    ensures Val(arith, nodes, env, x).None?
  {
  }

  lemma ImplementsInRange(arith: Arithmetic, nodes: seq<ENode>, root: Id, p: Program)
    requires Implements(arith, nodes, root, p)
    ensures InRange(p) && p.code != []
  {
  }

  /** If the node is not folded, its operands are among those needed. */
  predicate NeedsOperands(nodes: seq<ENode>, folded: set<Id>, x: Id, needed: set<Id>) {
    x < |nodes| && x !in folded ==> forall c | c in nodes[x].children :: c in needed
  }

  lemma OperandIsNeeded(nodes: seq<ENode>, root: Id, folded: set<Id>, order: seq<Id>, needed: set<Id>, x: Id, c: Id)
    requires Topological(nodes) && root < |nodes| && (forall y :: y in order <==> y in Reach(nodes, root))
    requires forall j | 0 <= j < |order| :: NeedsOperands(nodes, folded, order[j], needed)
    requires x in order && x !in folded && x < |nodes| && c in nodes[x].children
    ensures c in order && c in needed
  {
    var j :| 0 <= j < |order| && order[j] == x;
    assert NeedsOperands(nodes, folded, order[j], needed);
    ReachIsClosed(nodes, root);
    var k :| 0 <= k < |nodes[x].children| && nodes[x].children[k] == c;
    assert nodes[x].children[k] in order;
  }

  /** The instruction for a node that is not a literal. */
  function Encode(n: ENode, params: seq<Sym>, dst: nat, operands: seq<nat>): Instr
    requires |operands| == n.op.Arity() && !n.op.Const? && (n.op.Var? ==> n.op.s in params)
  {
    if n.op.Var? then LoadParam(dst, IndexOf(params, n.op.s) % U16_RANGE)
    else if n.op.If? then Select(dst, operands[0], operands[1], operands[2])
    else if n.op.Arity() == 1 then Un(dst, n.op, operands[0])
    else Bin(dst, n.op, operands[0], operands[1])
  }

  lemma EncodeComputes(arith: Arithmetic, nodes: seq<ENode>, consts: seq<Double>, params: seq<Sym>,
                       at: map<nat, Id>, id: Id, dst: nat, operands: seq<nat>, slots: nat)
    requires Topological(nodes) && id < |nodes| && dst < slots && !nodes[id].op.Const? && !nodes[id].op.Diff?
    requires |operands| == nodes[id].op.Arity() && (nodes[id].op.Var? ==> nodes[id].op.s in params)
    requires forall k | 0 <= k < |operands| :: operands[k] < slots && HeldAt(at, operands[k], nodes[id].children[k])
    ensures Computes(arith, nodes, consts, params, Encode(nodes[id], params, dst, operands), at, id)
    ensures InstrInRange(Program([], consts, params, slots), Encode(nodes[id], params, dst, operands))
  {
    assert |operands| > 0 ==> HeldAt(at, operands[0], nodes[id].children[0]);
    assert |operands| > 1 ==> HeldAt(at, operands[1], nodes[id].children[1]);
    assert |operands| > 2 ==> HeldAt(at, operands[2], nodes[id].children[2]);
  }

  lemma LiteralComputes(arith: Arithmetic, nodes: seq<ENode>, consts: seq<Double>, params: seq<Sym>,
                        r: Result<Instr>, at: map<nat, Id>, id: Id, v: Double)
    requires Topological(nodes) && id < |nodes| && Fold(arith, nodes, id) == Some(v)
    requires r.Ok? ==> r.value.LoadConst? && r.value.k < |consts| && consts[r.value.k] == v
    ensures r.Ok? ==> Computes(arith, nodes, consts, params, r.value, at, id)
  {
  }

  lemma NotFoldedNotConst(arith: Arithmetic, nodes: seq<ENode>, id: Id)
    requires Topological(nodes) && id < |nodes| && Fold(arith, nodes, id).None?
    ensures !nodes[id].op.Const?
  {
  }

  lemma FreshIsBelow(slotOf: map<Id, nat>, lastUse: map<Id, nat>, root: Id, i: nat, free: seq<nat>, highWater: nat,
                     dst: nat)
    requires Fresh(slotOf, lastUse, root, i, free, highWater, dst)
    ensures dst < highWater
  {
  }

  /** Different nodes are held in different slots. */
  lemma HeldOnce(at: map<nat, Id>, s: nat, t: nat, x: Id, y: Id)
    requires HeldAt(at, s, x) && HeldAt(at, t, y) && x != y
    ensures s != t
  {
  }

  predicate IsDead(lastUse: map<Id, nat>, root: Id, c: Id, i: nat) {
    c in lastUse && lastUse[c] == i && c != root
  }

  /** The operands read for the last time by instruction `i`, each once. */
  method DeadOperands(children: seq<Id>, lastUse: map<Id, nat>, root: Id, i: nat) returns (dead: seq<Id>)
    ensures Distinct(dead)
    ensures forall c :: c in dead <==> c in children && IsDead(lastUse, root, c, i)
  {
    var found := [];
    for k := 0 to |children|
      invariant forall c :: c in found <==> c in children[..k] && IsDead(lastUse, root, c, i)
    {
      assert children[..k + 1] == children[..k] + [children[k]];
      if IsDead(lastUse, root, children[k], i) {
        found := found + [children[k]];
      }
    }
    dead := SortIds(found);
    assert children[..|children|] == children;
  }

  lemma EmittedBefore(emitted: seq<Id>, i: nat, c: Id)
    requires i < |emitted| && c in emitted && c < emitted[i]
    requires forall a, b | 0 <= a < b < |emitted| :: emitted[a] < emitted[b]
    ensures c in Done(emitted, i)
  {
    var j :| 0 <= j < |emitted| && emitted[j] == c;
    assert emitted[..i][j] == c;
  }

  lemma ParameterIsListed(nodes: seq<ENode>, order: seq<Id>, id: Id)
    requires id in order && id < |nodes| && nodes[id].op.Var?
    ensures Reads(nodes, order, nodes[id].op.s)
  {
    var i :| 0 <= i < |order| && order[i] == id;
  }

  lemma {:induction false} AscendingIsShort(ids: seq<Id>, n: nat)
    requires forall a, b | 0 <= a < b < |ids| :: ids[a] < ids[b]
    requires forall x | x in ids :: x < n
    ensures |ids| <= n
  {
    if ids != [] {
      var init := ids[..|ids| - 1];
      assert ids[|ids| - 1] in ids;
      forall x | x in init
        ensures x < n - 1
      {
        var a :| 0 <= a < |init| && init[a] == x;
        assert ids[a] < ids[|ids| - 1];
      }
      AscendingIsShort(init, n - 1);
    }
  }

  /** Instruction `j` computes its node from the slots before it, in range. */
  ghost predicate ComputesAt(arith: Arithmetic, nodes: seq<ENode>, consts: seq<Double>, params: seq<Sym>, slots: nat,
                             code: seq<Instr>, emitted: seq<Id>, j: nat)
    requires Topological(nodes) && j < |code| <= |emitted|
  {
    && emitted[j] < |nodes|
    && Computes(arith, nodes, consts, params, code[j], Contents(code, emitted, j), emitted[j])
    && InstrInRange(Program([], consts, params, slots), code[j])
  }

  ghost predicate ComputeAll(arith: Arithmetic, nodes: seq<ENode>, consts: seq<Double>, params: seq<Sym>, slots: nat,
                             code: seq<Instr>, emitted: seq<Id>)
    requires Topological(nodes)
  {
    && |code| <= |emitted|
    && (forall j | 0 <= j < |code| :: ComputesAt(arith, nodes, consts, params, slots, code, emitted, j))
  }

  /** More constants and more slots do no harm. */
  lemma PoolGrows(arith: Arithmetic, nodes: seq<ENode>, consts: seq<Double>, more: seq<Double>, params: seq<Sym>,
                  slots: nat, slots': nat, code: seq<Instr>, emitted: seq<Id>)
    requires Topological(nodes) && consts <= more && slots <= slots'
    requires ComputeAll(arith, nodes, consts, params, slots, code, emitted)
    ensures ComputeAll(arith, nodes, more, params, slots', code, emitted)
  {
    hide Contents, Fold, IndexOf, HeldAt;
    forall j | 0 <= j < |code|
      ensures ComputesAt(arith, nodes, more, params, slots', code, emitted, j)
    {
      assert ComputesAt(arith, nodes, consts, params, slots, code, emitted, j);
    }
  }

  lemma ComputesInLonger(arith: Arithmetic, nodes: seq<ENode>, consts: seq<Double>, params: seq<Sym>, slots: nat,
                         code: seq<Instr>, instr: Instr, emitted: seq<Id>, j: nat)
    requires Topological(nodes) && j < |code| < |emitted|
    requires ComputesAt(arith, nodes, consts, params, slots, code, emitted, j)
    ensures ComputesAt(arith, nodes, consts, params, slots, code + [instr], emitted, j)
  {
    hide Computes, InstrInRange, Contents;
    ContentsOfPrefix(code, [instr], emitted, j);
  }

  lemma ComputesLast(arith: Arithmetic, nodes: seq<ENode>, consts: seq<Double>, params: seq<Sym>, slots: nat,
                     code: seq<Instr>, instr: Instr, emitted: seq<Id>)
    requires Topological(nodes) && |code| < |emitted| && emitted[|code|] < |nodes|
    requires InstrInRange(Program([], consts, params, slots), instr)
    requires Computes(arith, nodes, consts, params, instr, Contents(code, emitted, |code|), emitted[|code|])
    ensures ComputesAt(arith, nodes, consts, params, slots, code + [instr], emitted, |code|)
  {
    hide Computes, InstrInRange, Contents;
    ContentsOfPrefix(code, [instr], emitted, |code|);
  }

  lemma AppendComputes(arith: Arithmetic, nodes: seq<ENode>, consts: seq<Double>, params: seq<Sym>, slots: nat,
                       code: seq<Instr>, instr: Instr, emitted: seq<Id>)
    requires Topological(nodes) && ComputeAll(arith, nodes, consts, params, slots, code, emitted) && |code| < |emitted|
    requires emitted[|code|] < |nodes| && InstrInRange(Program([], consts, params, slots), instr)
    requires Computes(arith, nodes, consts, params, instr, Contents(code, emitted, |code|), emitted[|code|])
    ensures ComputeAll(arith, nodes, consts, params, slots, code + [instr], emitted)
  {
    hide Computes, InstrInRange, Contents, ComputesAt;
    ComputesLast(arith, nodes, consts, params, slots, code, instr, emitted);
    forall j | 0 <= j < |code|
      ensures ComputesAt(arith, nodes, consts, params, slots, code + [instr], emitted, j)
    {
      ComputesInLonger(arith, nodes, consts, params, slots, code, instr, emitted, j);
    }
  }

  /** A finished program computes the term, and always has a slot. */
  lemma CodeIsCertified(arith: Arithmetic, nodes: seq<ENode>, root: Id, consts: seq<Double>, params: seq<Sym>,
                        highWater: nat, code: seq<Instr>, emitted: seq<Id>)
    requires Topological(nodes) && ComputeAll(arith, nodes, consts, params, highWater, code, emitted)
    requires |code| == |emitted| && emitted != [] && emitted[|emitted| - 1] == root
    ensures highWater > 0
    ensures Implements(arith, nodes, root, Program(code, consts, params, if highWater == 0 then 1 else highWater))
  {
    var p := Program(code, consts, params, if highWater == 0 then 1 else highWater);
    assert ComputesAt(arith, nodes, consts, params, highWater, code, emitted, 0);
    forall i | 0 <= i < |emitted|
      ensures emitted[i] < |nodes| && InstrInRange(p, code[i])
      ensures Computes(arith, nodes, consts, params, code[i], Contents(code, emitted, i), emitted[i])
    {
      assert ComputesAt(arith, nodes, consts, params, highWater, code, emitted, i);
    }
    assert Certified(arith, nodes, root, p, emitted);
  }

  /** An operand read for the last time is still in its slot, which is not free. */
  lemma DeadIsHeld(nodes: seq<ENode>, folded: set<Id>, code: seq<Instr>, instr: Instr, emitted: seq<Id>,
                   lastUse: map<Id, nat>, root: Id, slotOf: map<Id, nat>, free: seq<nat>, highWater: nat)
    requires Allocated(code, emitted, lastUse, root, slotOf, free, highWater) && |code| < |emitted|
    requires Fresh(slotOf, lastUse, root, |code|, free, highWater, instr.dst)
    requires UsedWhenRead(nodes, folded, emitted, lastUse) && emitted[|code|] < |nodes|
    requires Topological(nodes) && (forall a, b | 0 <= a < b < |emitted| :: emitted[a] < emitted[b])
    requires forall x, c | x in emitted && x !in folded && x < |nodes| && c in nodes[x].children :: c in emitted
    ensures var slotOf' := slotOf[emitted[|code|] := instr.dst];
            forall c | c in nodes[emitted[|code|]].children && IsDead(lastUse, root, c, |code|) ::
              c in slotOf' && slotOf'[c] !in free
              && HeldAt(Contents(code + [instr], emitted, |code| + 1), slotOf'[c], c)
  {
    var i := |code|;
    var id := emitted[i];
    ContentsOfPrefix(code, [instr], emitted, i);
    assert Contents(code + [instr], emitted, i + 1) == Contents(code, emitted, i)[instr.dst := id];
    forall c | c in nodes[id].children && IsDead(lastUse, root, c, i)
      ensures c in slotOf && c != id && slotOf[c] !in free && slotOf[c] != instr.dst
      ensures HeldAt(Contents(code, emitted, i), slotOf[c], c)
    {
      assert id !in folded && id in emitted && c in emitted;
      EmittedBefore(emitted, i, c);
    }
  }

  /** A last use is a use: by an instruction that reads the node. */
  predicate UsedWhenRead(nodes: seq<ENode>, folded: set<Id>, emitted: seq<Id>, lastUse: map<Id, nat>) {
    forall c | c in lastUse ::
      lastUse[c] < |emitted| && UsedBy(nodes, folded, emitted[lastUse[c]], c)
  }

  predicate UsedBy(nodes: seq<ENode>, folded: set<Id>, x: Id, c: Id) {
    x !in folded && x < |nodes| && c in nodes[x].children
  }

  /** The operands of instruction `i` are read no earlier than by it. */
  predicate ReadAt(nodes: seq<ENode>, folded: set<Id>, emitted: seq<Id>, lastUse: map<Id, nat>, i: nat)
    requires i < |emitted|
  {
    emitted[i] < |nodes| && emitted[i] !in folded ==>
      forall c | c in nodes[emitted[i]].children :: c in lastUse && lastUse[c] >= i
  }

  predicate ReadBy(nodes: seq<ENode>, folded: set<Id>, emitted: seq<Id>, lastUse: map<Id, nat>, n: nat)
    requires n <= |emitted|
  {
    forall i | 0 <= i < n :: ReadAt(nodes, folded, emitted, lastUse, i)
  }

  /** Last uses are uses, and no operand is read after its last use. */
  predicate Scheduled(nodes: seq<ENode>, folded: set<Id>, emitted: seq<Id>, lastUse: map<Id, nat>) {
    ReadBy(nodes, folded, emitted, lastUse, |emitted|) && UsedWhenRead(nodes, folded, emitted, lastUse)
  }

  /** The position of the last instruction that reads each node. */
  method LastUses(nodes: seq<ENode>, folded: set<Id>, emitted: seq<Id>) returns (lastUse: map<Id, nat>)
    requires forall x | x in emitted :: x < |nodes|
    requires forall x, c | x in emitted && x !in folded && c in nodes[x].children :: c in emitted
    ensures Scheduled(nodes, folded, emitted, lastUse)
  {
    lastUse := map[];
    for i := 0 to |emitted|
      invariant ReadBy(nodes, folded, emitted, lastUse, i)
      invariant forall c | c in lastUse :: lastUse[c] < i && UsedBy(nodes, folded, emitted[lastUse[c]], c)
    {
      var id := emitted[i];
      assert id in emitted;
      if id !in folded {
        ghost var before := lastUse;
        lastUse := lastUse + (map c | c in nodes[id].children && c in emitted :: i);
        forall j | 0 <= j < i
          ensures ReadAt(nodes, folded, emitted, lastUse, j)
        {
          assert ReadAt(nodes, folded, emitted, before, j);
        }
      }
    }
  }

  /** A listed node reads the variable. */
  predicate Reads(nodes: seq<ENode>, order: seq<Id>, s: Sym) {
    exists i | 0 <= i < |order| :: order[i] < |nodes| && nodes[order[i]].op == Var(s)
  }

  predicate RankSorted(params: seq<Sym>, rank: Sym -> nat) {
    forall i, j | 0 <= i < j < |params| :: rank(params[i]) <= rank(params[j])
  }

  lemma InsertKeeps(params: seq<Sym>, s: Sym, at: nat, rank: Sym -> nat)
    requires Distinct(params) && RankSorted(params, rank) && s !in params && at <= |params|
    requires forall k | 0 <= k < at :: rank(params[k]) <= rank(s)
    requires at < |params| ==> rank(s) < rank(params[at])
    ensures Distinct(params[..at] + [s] + params[at..]) && RankSorted(params[..at] + [s] + params[at..], rank)
    ensures forall t :: t in params[..at] + [s] + params[at..] <==> t in params || t == s
  {
    var more := params[..at] + [s] + params[at..];
    assert params == params[..at] + params[at..];
    forall i | 0 <= i < |more|
      ensures more[i] == if i < at then params[i] else if i == at then s else params[i - 1]
    {
    }
  }

  method InsertParameter(params0: seq<Sym>, s: Sym, rank: Sym -> nat) returns (params: seq<Sym>)
    requires Distinct(params0) && RankSorted(params0, rank)
    ensures Distinct(params) && RankSorted(params, rank)
    ensures forall t :: t in params <==> t in params0 || t == s
  {
    if s in params0 {
      return params0;
    }
    var at := 0;
    while at < |params0| && rank(params0[at]) <= rank(s)
      invariant 0 <= at <= |params0|
      invariant forall k | 0 <= k < at :: rank(params0[k]) <= rank(s)
    {
      at := at + 1;
    }
    params := params0[..at] + [s] + params0[at..];
    InsertKeeps(params0, s, at, rank);
  }

  /** The variables among the listed nodes, sorted by the rank of their names
      and without repeats. */
  method Parameters(nodes: seq<ENode>, order: seq<Id>, rank: Sym -> nat) returns (params: seq<Sym>)
    requires forall x | x in order :: x < |nodes|
    ensures forall s :: s in params <==> Reads(nodes, order, s)
    ensures Distinct(params) && RankSorted(params, rank)
  {
    params := [];
    for i := 0 to |order|
      invariant forall s :: s in params <==> Reads(nodes, order[..i], s)
      invariant Distinct(params) && RankSorted(params, rank)
    {
      assert order[i] in order;
      ghost var next := order[..i + 1];
      assert next == order[..i] + [order[i]];
      var op := nodes[order[i]].op;
      forall s
        ensures Reads(nodes, next, s) <==> Reads(nodes, order[..i], s) || op == Var(s)
      {
        ReadsOneMore(nodes, order[..i], order[i], s);
      }
      if op.Var? {
        params := InsertParameter(params, op.s, rank);
      }
    }
    assert order[..|order|] == order;
  }

  lemma ReadsOneMore(nodes: seq<ENode>, order: seq<Id>, x: Id, s: Sym)
    ensures Reads(nodes, order + [x], s) <==> Reads(nodes, order, s) || (x < |nodes| && nodes[x].op == Var(s))
  {
    var more := order + [x];
    if Reads(nodes, order, s) {
      var i :| 0 <= i < |order| && order[i] < |nodes| && nodes[order[i]].op == Var(s);
      assert more[i] == order[i];
    }
    if x < |nodes| && nodes[x].op == Var(s) {
      assert more[|order|] == x;
    }
  }
}
