/** The register machine compiled programs run on, and when a program computes
    what the reference interpreter does. */
module Machines {
  import opened Options
  import opened Lang
  import opened Expressions

  /** Every instruction writes one numbered slot; its operands are slots, a
      constant or a parameter. */
  datatype Instr =
    | LoadConst(dst: nat, k: nat)
    | LoadParam(dst: nat, p: nat)
    | Un(dst: nat, op: Op, a: nat)
    | Bin(dst: nat, op: Op, a: nat, b: nat)
    | Select(dst: nat, c: nat, a: nat, b: nat)

  datatype Program = Program(code: seq<Instr>, consts: seq<Double>, params: seq<Sym>, slots: nat)

  /** Slots, constants and parameters are numbered with sixteen bits. */
  const U16_RANGE: nat := 0x1_0000

  /** Every index of the instruction is in range. */
  predicate InstrInRange(p: Program, instr: Instr) {
    && instr.dst < p.slots
    && match instr
       case LoadConst(_, k) => k < |p.consts|
       case LoadParam(_, q) => q < |p.params|
       case Un(_, _, a) => a < p.slots
       case Bin(_, _, a, b) => a < p.slots && b < p.slots
       case Select(_, c, a, b) => c < p.slots && a < p.slots && b < p.slots
  }

  predicate InRange(p: Program) {
    forall i | 0 <= i < |p.code| :: InstrInRange(p, p.code[i])
  }

  /** What one instruction computes from the slots. */
  function Step(arith: Arithmetic, p: Program, args: seq<Double>, s: seq<Double>, instr: Instr): Double
    requires |s| == p.slots && |args| == |p.params| && InstrInRange(p, instr)
  {
    match instr
    case LoadConst(_, k) => p.consts[k]
    case LoadParam(_, q) => args[q]
    case Un(_, op, a) => arith(op, [s[a]])
    case Bin(_, op, a, b) => arith(op, [s[a], s[b]])
    case Select(_, c, a, b) => if Truthy(s[c]) then s[a] else s[b]
  }

  /** The slots after the first `i` instructions. */
  function Slots(arith: Arithmetic, p: Program, args: seq<Double>, s: seq<Double>, i: nat): (t: seq<Double>)
    requires |s| == p.slots && |args| == |p.params| && InRange(p) && i <= |p.code|
    ensures |t| == p.slots
  {
    if i == 0 then s
    else
      var before := Slots(arith, p, args, s, i - 1);
      before[p.code[i - 1].dst := Step(arith, p, args, before, p.code[i - 1])]
  }

  /** Run the program on a caller-owned slot array, grown if it is too small. */
  method EvalWith(arith: Arithmetic, p: Program, args: seq<Double>, slots0: seq<Double>)
    returns (last: Double, slots: seq<Double>)
    requires |args| == |p.params| && InRange(p)
    ensures |slots| == if |slots0| < p.slots then p.slots else |slots0|
    ensures slots[p.slots..] == if |slots0| < p.slots then [] else slots0[p.slots..]
    ensures exists s :: |s| == p.slots && slots[..p.slots] == Slots(arith, p, args, s, |p.code|)
    ensures p.code != [] ==> last == slots[p.code[|p.code| - 1].dst]
  {
    slots := slots0;
    if |slots| < p.slots {
      slots := slots + seq(p.slots - |slots|, _ => POSITIVE_ZERO);
    }
    ghost var start := slots;
    last := POSITIVE_ZERO;
    for i := 0 to |p.code|
      invariant |slots| == |start| && slots[p.slots..] == start[p.slots..]
      invariant slots[..p.slots] == Slots(arith, p, args, start[..p.slots], i)
      invariant i > 0 ==> last == slots[p.code[i - 1].dst]
    {
      var instr := p.code[i];
      assert InstrInRange(p, instr);
      var s := slots[..p.slots];
      var v: Double;
      match instr {
        case LoadConst(_, k) => v := p.consts[k];
        case LoadParam(_, q) => v := args[q];
        case Un(_, op, a) => v := arith(op, [s[a]]);
        case Bin(_, op, a, b) => v := arith(op, [s[a], s[b]]);
        case Select(_, c, a, b) => v := if Truthy(s[c]) then s[a] else s[b];
      }
      slots := slots[instr.dst := v];
      assert slots[..p.slots] == s[instr.dst := v];
      last := v;
    }
  }

  // ----- when a program computes a term -----

  /** Which node's value each slot holds after the first `i` instructions, the
      `j`th of which computes node `nodes[j]`. */
  function Contents(code: seq<Instr>, emitted: seq<Id>, i: nat): map<nat, Id>
    requires i <= |code| && i <= |emitted|
  {
    if i == 0 then map[] else Contents(code, emitted, i - 1)[code[i - 1].dst := emitted[i - 1]]
  }

  predicate HeldAt(at: map<nat, Id>, slot: nat, id: Id) {
    slot in at && at[slot] == id
  }

  /** The compile-time value of a node, if every operand has one. */
  function Fold(arith: Arithmetic, nodes: seq<ENode>, id: Id): Option<Double>
    requires Topological(nodes) && id < |nodes|
    decreases id, 1, 0
  {
    var op := nodes[id].op;
    if op.Const? then Some(op.c)
    else if op.Var? || op.Diff? then None
    else
      var args := Folds(arith, nodes, id, |nodes[id].children|);
      if args.Some? then OpEval(arith, op, args.value) else None
  }

  function Folds(arith: Arithmetic, nodes: seq<ENode>, id: Id, k: nat): (args: Option<seq<Double>>)
    requires Topological(nodes) && id < |nodes| && k <= |nodes[id].children|
    ensures args.Some? ==> |args.value| == k
    ensures args.Some? <==> forall j | 0 <= j < k :: Fold(arith, nodes, nodes[id].children[j]).Some?
    ensures args.Some? ==> forall j | 0 <= j < k :: Fold(arith, nodes, nodes[id].children[j]) == Some(args.value[j])
    decreases id, 0, k
  {
    if k == 0 then Some([])
    else
      var init := Folds(arith, nodes, id, k - 1);
      var last := Fold(arith, nodes, nodes[id].children[k - 1]);
      if init.Some? && last.Some? then Some(init.value + [last.value]) else None
  }

  /** A folded node has its value in every environment. */
  lemma {:induction false} FoldIsVal(arith: Arithmetic, nodes: seq<ENode>, env: Env, id: Id)
    requires Topological(nodes) && id < |nodes| && Fold(arith, nodes, id).Some?
    ensures Val(arith, nodes, env, id) == Fold(arith, nodes, id)
    decreases id
  {
    var n := nodes[id];
    if !n.op.Const? {
      forall j | 0 <= j < |n.children|
        ensures Val(arith, nodes, env, n.children[j]) == Fold(arith, nodes, n.children[j])
      {
        FoldIsVal(arith, nodes, env, n.children[j]);
      }
      var folded, valued := Folds(arith, nodes, id, |n.children|), Vals(arith, nodes, env, id, |n.children|);
      assert folded.value == valued.value;
    }
  }

  /** Where a variable stands among the parameters. */
  function IndexOf(params: seq<Sym>, s: Sym): (i: nat)
    requires s in params
    ensures i < |params| && params[i] == s
  {
    if params[0] == s then 0 else 1 + IndexOf(params[1..], s)
  }

  /** The instruction computes node `id` from what the slots hold. The index of
      a parameter is cast to sixteen bits unchecked. */
  predicate Computes(arith: Arithmetic, nodes: seq<ENode>, consts: seq<Double>, params: seq<Sym>,
                     instr: Instr, at: map<nat, Id>, id: Id)
    requires Topological(nodes) && id < |nodes|
  {
    var n := nodes[id];
    match instr
    case LoadConst(_, k) => k < |consts| && Fold(arith, nodes, id) == Some(consts[k])
    case LoadParam(_, q) => n.op.Var? && n.op.s in params && q == IndexOf(params, n.op.s) % U16_RANGE
    case Un(_, op, a) => n.op == op && op.IsUnary() && HeldAt(at, a, n.children[0])
    case Bin(_, op, a, b) =>
      n.op == op && op.Arity() == 2 && !op.Diff? && HeldAt(at, a, n.children[0]) && HeldAt(at, b, n.children[1])
    case Select(_, c, a, b) =>
      n.op.If? && HeldAt(at, c, n.children[0]) && HeldAt(at, a, n.children[1]) && HeldAt(at, b, n.children[2])
  }

  /** Every instruction computes the node it was emitted for, operands still in
      their slots, and the last one computes the root. */
  ghost predicate Certified(arith: Arithmetic, nodes: seq<ENode>, root: Id, p: Program, emitted: seq<Id>) {
    && Topological(nodes) && root < |nodes|
    && |emitted| == |p.code| && p.code != [] && emitted[|emitted| - 1] == root
    && InRange(p)
    && (forall i | 0 <= i < |emitted| :: emitted[i] < |nodes|
          && Computes(arith, nodes, p.consts, p.params, p.code[i], Contents(p.code, emitted, i), emitted[i]))
  }

  /** The program computes the term rooted at `root`. */
  ghost predicate Implements(arith: Arithmetic, nodes: seq<ENode>, root: Id, p: Program) {
    exists emitted :: Certified(arith, nodes, root, p, emitted)
  }

  function Bind(params: seq<Sym>, args: seq<Double>): Env
    requires |params| == |args|
  {
    map s | s in params :: args[IndexOf(params, s)]
  }

  /** Every slot holds the value of the node it is said to hold. */
  ghost predicate AllHeld(arith: Arithmetic, nodes: seq<ENode>, env: Env, at: map<nat, Id>, s: seq<Double>)
    requires Topological(nodes)
  {
    forall slot | slot in at :: slot < |s| && at[slot] < |nodes| && Val(arith, nodes, env, at[slot]) == Some(s[slot])
  }

  /** The instruction produces the value of the node, given operands that do. */
  lemma StepIsVal(arith: Arithmetic, nodes: seq<ENode>, p: Program, args: seq<Double>, s: seq<Double>,
                  instr: Instr, at: map<nat, Id>, id: Id)
    requires Topological(nodes) && id < |nodes| && |s| == p.slots && |args| == |p.params| <= U16_RANGE
    requires InstrInRange(p, instr) && Computes(arith, nodes, p.consts, p.params, instr, at, id)
    requires AllHeld(arith, nodes, Bind(p.params, args), at, s)
    ensures Val(arith, nodes, Bind(p.params, args), id) == Some(Step(arith, p, args, s, instr))
  {
    var n := nodes[id];
    var env := Bind(p.params, args);
    match instr
    case LoadConst(_, k) => FoldIsVal(arith, nodes, env, id);
    case LoadParam(_, q) =>
    case Un(_, op, a) =>
      assert Vals(arith, nodes, env, id, 1).value == [s[a]];
    case Bin(_, op, a, b) =>
      assert Vals(arith, nodes, env, id, 2).value == [s[a], s[b]];
    case Select(_, c, a, b) =>
      assert Vals(arith, nodes, env, id, 3).value == [s[c], s[a], s[b]];
  }

  /** Whatever was in the slots, after `i` instructions each slot holds the
      value of the node it is said to hold. */
  lemma {:induction false} SlotsHoldValues(arith: Arithmetic, nodes: seq<ENode>, root: Id, p: Program, emitted: seq<Id>,
                                           args: seq<Double>, s: seq<Double>, i: nat)
    requires Certified(arith, nodes, root, p, emitted) && i <= |p.code|
    requires |s| == p.slots && |args| == |p.params| <= U16_RANGE
    ensures AllHeld(arith, nodes, Bind(p.params, args), Contents(p.code, emitted, i), Slots(arith, p, args, s, i))
  {
    hide Val, Computes, Bind, Step;
    if i > 0 {
      SlotsHoldValues(arith, nodes, root, p, emitted, args, s, i - 1);
      var at, before := Contents(p.code, emitted, i - 1), Slots(arith, p, args, s, i - 1);
      var instr := p.code[i - 1];
      assert InstrInRange(p, instr) && Computes(arith, nodes, p.consts, p.params, instr, at, emitted[i - 1]);
      StepIsVal(arith, nodes, p, args, before, instr, at, emitted[i - 1]);
    }
  }

  /** Running a compiled program on any slot array, dirty or not, gives what the
      interpreter gives, as long as the parameters can be numbered. */
  lemma RunIsVal(arith: Arithmetic, nodes: seq<ENode>, root: Id, p: Program, args: seq<Double>, s: seq<Double>)
    requires Implements(arith, nodes, root, p) && |s| == p.slots && |args| == |p.params| <= U16_RANGE
    ensures p.code != [] && InRange(p) && root < |nodes| && Topological(nodes)
    ensures p.code[|p.code| - 1].dst < p.slots
    ensures Val(arith, nodes, Bind(p.params, args), root)
            == Some(Slots(arith, p, args, s, |p.code|)[p.code[|p.code| - 1].dst])
  {
    var emitted :| Certified(arith, nodes, root, p, emitted);
    SlotsHoldValues(arith, nodes, root, p, emitted, args, s, |p.code|);
    assert p.code[|p.code| - 1].dst in Contents(p.code, emitted, |p.code|);
  }

  /** The program, run by `EvalWith`, agrees with the interpreter. */
  method Eval(arith: Arithmetic, nodes: seq<ENode>, root: Id, p: Program, args: seq<Double>) returns (v: Double)
    requires Implements(arith, nodes, root, p) && |args| == |p.params| <= U16_RANGE
    ensures root < |nodes| && Topological(nodes)
    ensures Val(arith, nodes, Bind(p.params, args), root) == Some(v)
  {
    RunIsVal(arith, nodes, root, p, args, seq(p.slots, _ => POSITIVE_ZERO));
    var slots;
    v, slots := EvalWith(arith, p, args, seq(p.slots, _ => POSITIVE_ZERO));
    var s :| |s| == p.slots && slots[..p.slots] == Slots(arith, p, args, s, |p.code|);
    RunIsVal(arith, nodes, root, p, args, s);
  }

  /** The environment's arguments leave `v` in the last slot written. */
  ghost predicate RunsTo(arith: Arithmetic, p: Program, env: Env, args: seq<Double>, s: seq<Double>, v: Double)
    requires InRange(p)
  {
    && |args| == |p.params| && |s| == p.slots
    && (forall i | 0 <= i < |args| :: p.params[i] in env && args[i] == env[p.params[i]])
    && (p.code != [] ==> p.code[|p.code| - 1].dst < p.slots
                         && v == Slots(arith, p, args, s, |p.code|)[p.code[|p.code| - 1].dst])
  }

  /** Bind the parameters in an environment, and run. */
  method EvalEnv(arith: Arithmetic, p: Program, env: Env) returns (r: Result<Double>)
    requires InRange(p)
    ensures r.Err? ==> r.error.Unbound? && r.error.s in p.params && r.error.s !in env
    ensures r.Ok? ==> forall s | s in p.params :: s in env
    ensures r.Ok? ==> exists args, s :: RunsTo(arith, p, env, args, s, r.value)
  {
    var args := [];
    for i := 0 to |p.params|
      invariant |args| == i && forall j | 0 <= j < i :: p.params[j] in env && args[j] == env[p.params[j]]
    {
      if p.params[i] !in env {
        return Err(Unbound(p.params[i]));
      }
      args := args + [env[p.params[i]]];
    }
    var v, slots := EvalWith(arith, p, args, seq(p.slots, _ => POSITIVE_ZERO));
    if p.code != [] {
      assert InstrInRange(p, p.code[|p.code| - 1]);
    }
    ghost var s :| |s| == p.slots && slots[..p.slots] == Slots(arith, p, args, s, |p.code|);
    assert RunsTo(arith, p, env, args, s, v);
    r := Ok(v);
  }

  /** A value depends only on the variables the term reads. */
  lemma {:induction false} ValAgrees(arith: Arithmetic, nodes: seq<ENode>, a: Env, b: Env, id: Id)
    requires Topological(nodes) && id < |nodes|
    requires forall x | x in Reach(nodes, id) && x < |nodes| && nodes[x].op.Var? :: Agree(a, b, nodes[x].op.s)
    ensures Val(arith, nodes, a, id) == Val(arith, nodes, b, id)
    decreases id
  {
    ReachIsBelow(nodes, id);
    var n := nodes[id];
    if n.op.Var? {
      assert Agree(a, b, n.op.s);
    } else if !n.op.Const? && !n.op.Diff? {
      forall k | 0 <= k < |n.children|
        ensures Val(arith, nodes, a, n.children[k]) == Val(arith, nodes, b, n.children[k])
      {
        ReachHasChildren(nodes, id, |n.children|, k);
        ValAgrees(arith, nodes, a, b, n.children[k]);
      }
      var va, vb := Vals(arith, nodes, a, id, |n.children|), Vals(arith, nodes, b, id, |n.children|);
      assert va.Some? ==> va.value == vb.value;
    }
  }

  predicate Agree(a: Env, b: Env, s: Sym) {
    (s in a <==> s in b) && (s in a ==> a[s] == b[s])
  }

  /** The cast leaves every parameter index right exactly when there are at most
      65536 of them. */
  lemma ParameterIndexIsExact(params: seq<Sym>)
    requires forall i, j | 0 <= i < j < |params| :: params[i] != params[j]
    ensures (forall s | s in params :: params[IndexOf(params, s) % U16_RANGE] == s) <==> |params| <= U16_RANGE
  {
    if |params| > U16_RANGE {
      var s := params[U16_RANGE];
      assert s in params && IndexOf(params, s) == U16_RANGE;
      assert params[0] != s;
    }
  }
}
