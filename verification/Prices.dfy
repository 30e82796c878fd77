/** What the latency model is for: which terms it makes extraction prefer. */
module Prices {
  import opened Lang
  import opened Graphs
  import opened Terms
  import opened Extraction

  /** The operators by price, the cheapest first. */
  const KINDS: seq<set<Op>> := [
    {Add, Sub, Neg, Abs, Sign, Not, Lt, Le, Gt, Ge, Eq, Ne, And, Or, Min, Max, Floor, Ceil}, {If}, {Mul}, {Div}, {Sqrt},
    {Exp, Ln}, {Sin, Cos, Tan, Atan2}, {Pow}, {Diff}]

  /** What they cost, in adds. */
  const ADDS: seq<nat> := [1, 2, 4, 15, 20, 45, 60, 80, 1_000_000_000]

  function PriceOf(t: Term): nat {
    TermCost(OpCost, t)
  }

  /** An operator costs so many adds beside its arguments; a literal or a variable
      costs something, but less than any. */
  lemma KindsArePriced(op: Op, costs: seq<nat>)
    ensures op.Const? || op.Var? ==> Sum(costs) < OpCost(op, costs) < OpCost(Add, costs)
    ensures !op.Const? && !op.Var? ==>
              exists i | 0 <= i < |KINDS| ::
                op in KINDS[i] && OpCost(op, costs) - Sum(costs) == ADDS[i] * (OpCost(Add, costs) - Sum(costs))
  {
    if !op.Const? && !op.Var? {
      var i := if op.If? then 1 else if op.Mul? then 2 else if op.Div? then 3 else if op.Sqrt? then 4
               else if op.Exp? || op.Ln? then 5 else if op.Sin? || op.Cos? || op.Tan? || op.Atan2? then 6
               else if op.Pow? then 7 else if op.Diff? then 8 else 0;
      assert op in KINDS[i];
    }
  }

  lemma PairPrice(op: Op, a: Term, b: Term)
    ensures PriceOf(Term(op, [a, b])) == Latency(op) + PriceOf(a) + PriceOf(b)
  {
    PairCosts(PriceOf(a), PriceOf(b));
    assert TermCosts(OpCost, [a, b]) == [PriceOf(a), PriceOf(b)];
  }

  lemma OnePrice(op: Op, a: Term)
    ensures PriceOf(Term(op, [a])) == Latency(op) + PriceOf(a)
  {
    var costs := [PriceOf(a)];
    assert TermCosts(OpCost, [a]) == costs;
    assert costs[..0] == [] && Sum(costs) == Sum(costs[..0]) + costs[0];
  }

  /** Twice a quotient is cheaper than its sum with itself, and the exponential of a
      sum cheaper than a product of exponentials. */
  lemma SharingPays(x: Term, y: Term, two: Double)
    ensures PriceOf(Term(Mul, [Term(Const(two), []), Term(Div, [x, y])]))
            < PriceOf(Term(Add, [Term(Div, [x, y]), Term(Div, [x, y])]))
    ensures PriceOf(Term(Exp, [Term(Add, [x, y])])) < PriceOf(Term(Mul, [Term(Exp, [x]), Term(Exp, [y])]))
  {
    PairPrice(Div, x, y);
    PairPrice(Mul, Term(Const(two), []), Term(Div, [x, y]));
    PairPrice(Add, Term(Div, [x, y]), Term(Div, [x, y]));
    PairPrice(Add, x, y);
    OnePrice(Exp, Term(Add, [x, y]));
    OnePrice(Exp, x);
    OnePrice(Exp, y);
    PairPrice(Mul, Term(Exp, [x]), Term(Exp, [y]));
  }

  predicate HasDerivative(t: Term) {
    t.op.Diff? || exists k | 0 <= k < |t.args| :: HasDerivative(t.args[k])
  }

  lemma {:induction false} DerivativeIsDear(t: Term)
    requires HasDerivative(t)
    ensures PriceOf(t) >= 1_000_000_000 * Latency(Add)
    decreases t
  {
    if !t.op.Diff? {
      var k :| 0 <= k < |t.args| && HasDerivative(t.args[k]);
      DerivativeIsDear(t.args[k]);
      ArgumentIsCheaper(t, k);
    }
  }

  lemma ArgumentIsCheaper(t: Term, k: nat)
    requires k < |t.args|
    ensures PriceOf(t.args[k]) < PriceOf(t)
  {
    OpCostIsFair();
    hide Latency;
    assert OpCost(t.op, TermCosts(OpCost, t.args)) > TermCosts(OpCost, t.args)[k];
  }

  /** A term with a derivative left in it is extracted only if every term of the
      class costs a thousand million adds. */
  lemma DerivativesAreLast(g: Graph, c: Id, cost: nat, nodes: seq<ENode>, t: Term)
    requires IsBest(OpCost, g, c, cost, nodes) && HasDerivative(Unfold(nodes, |nodes| - 1)) && Represents(g, c, t)
    ensures PriceOf(t) >= 1_000_000_000 * Latency(Add)
  {
    hide Represents;
    DerivativeIsDear(Unfold(nodes, |nodes| - 1));
  }
}
