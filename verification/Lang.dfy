/** The object language: ids, operators, e-nodes, and what it means for an
    e-node to be canonical for a partition of the ids. */
module Lang {
  type Id = nat

  /** `a` and `b` are `x` and `y`, in some order. */
  predicate Pair(a: Id, b: Id, x: Id, y: Id) {
    (a == x && b == y) || (a == y && b == x)
  }

  /** An interned name. Symbols compare by their interner index. */
  type Sym = nat

  /** A double up to NaN payload, represented by its total-order key. */
  type Double = nat

  const POSITIVE_ZERO: Double := 0x8000_0000_0000_0000
  const NEGATIVE_ZERO: Double := 0x7FFF_FFFF_FFFF_FFFF
  const NOT_A_NUMBER: Double := 0xFFF8_0000_0000_0000

  datatype Op =
    | Const(c: Double) | Var(s: Sym)
    | Add | Sub | Mul | Div | Pow | Min | Max | Atan2
    | Neg | Sqrt | Ln | Exp | Sin | Cos | Tan | Abs | Sign | Floor | Ceil
    | Lt | Le | Gt | Ge | Eq | Ne
    | And | Or | Not
    | If
    | Diff
  {
    predicate IsCommutative() {
      Add? || Mul? || Min? || Max? || Eq? || Ne? || And? || Or?
    }

    predicate IsUnary() {
      Neg? || Sqrt? || Ln? || Exp? || Sin? || Cos? || Tan? || Abs? || Sign? || Floor? || Ceil? || Not?
    }

    function Arity(): nat {
      if Const? || Var? then 0 else if IsUnary() then 1 else if If? then 3 else 2
    }
  }

  /** An operator applied to child ids: e-classes inside an e-graph, earlier
      nodes inside an expression. */
  datatype ENode = ENode(op: Op, children: seq<Id>)

  /** Every child of the node names one of the first `n` ids. */
  predicate Below(node: ENode, n: nat) {
    forall k | 0 <= k < |node.children| :: node.children[k] < n
  }

  /** Sort the children of a commutative operator. */
  function Normalize(node: ENode): ENode {
    if node.op.IsCommutative() && |node.children| == 2 && node.children[0] > node.children[1]
    then ENode(node.op, [node.children[1], node.children[0]])
    else node
  }

  /** Every child mapped through a table of labels. */
  function MapChildren(part: seq<nat>, node: ENode): (mapped: ENode)
    requires Below(node, |part|)
    ensures mapped.op == node.op && |mapped.children| == |node.children|
    ensures forall k | 0 <= k < |node.children| :: mapped.children[k] == part[node.children[k]]
  {
    ENode(node.op, seq(|node.children|, k requires 0 <= k < |node.children| => part[node.children[k]]))
  }

  /** The node with each child replaced by its part and commutative arguments
      put in order. With representatives as labels this is the canonical form. */
  function Canon(part: seq<nat>, node: ENode): ENode
    requires Below(node, |part|)
  {
    Normalize(MapChildren(part, node))
  }

  /** Some child of the node carries part `x`. */
  predicate Mentions(part: seq<nat>, node: ENode, x: nat)
    requires Below(node, |part|)
  {
    exists k | 0 <= k < |node.children| :: part[node.children[k]] == x
  }

  /** Same operator, and arguments that agree in order or, for a commutative
      operator, after one swap. */
  predicate Congruent(part: seq<nat>, a: ENode, b: ENode)
    requires Below(a, |part|) && Below(b, |part|)
  {
    && a.op == b.op
    && |a.children| == |b.children|
    && (|| (forall k | 0 <= k < |a.children| :: part[a.children[k]] == part[b.children[k]])
        || (&& a.op.IsCommutative() && |a.children| == 2
            && part[a.children[0]] == part[b.children[1]]
            && part[a.children[1]] == part[b.children[0]]))
  }

  /** `coarse` never separates two ids that `fine` identifies. */
  predicate Coarsens(coarse: seq<nat>, fine: seq<nat>) {
    && |coarse| == |fine|
    && (forall i | 0 <= i < |fine| :: fine[i] < |fine|)
    && (forall i | 0 <= i < |fine| :: coarse[fine[i]] == coarse[i])
  }

  /** Canonical forms decide congruence, argument order included. */
  lemma CanonDecidesCongruence(part: seq<nat>, a: ENode, b: ENode)
    requires Below(a, |part|) && Below(b, |part|)
    ensures Canon(part, a) == Canon(part, b) <==> Congruent(part, a, b)
  {
    var ma, mb := MapChildren(part, a), MapChildren(part, b);
    if Congruent(part, a, b) {
      if forall k | 0 <= k < |a.children| :: part[a.children[k]] == part[b.children[k]] {
        assert ma.children == mb.children;
      } else {
        assert ma.children == [mb.children[1], mb.children[0]];
        assert mb.children == [ma.children[1], ma.children[0]];
      }
    }
  }

  /** Canonicalizing first by a finer partition changes nothing. */
  lemma CanonOfCanon(coarse: seq<nat>, fine: seq<nat>, node: ENode)
    requires Coarsens(coarse, fine) && Below(node, |fine|)
    ensures Below(Canon(fine, node), |fine|)
    ensures Canon(coarse, Canon(fine, node)) == Canon(coarse, node)
  {
    var inner := Canon(fine, node);
    assert Below(inner, |fine|);
    CanonDecidesCongruence(coarse, inner, node);
  }

  /** Nodes with one canonical form mention the same labels. */
  lemma CanonMentions(part: seq<nat>, a: ENode, b: ENode, x: nat)
    requires Below(a, |part|) && Below(b, |part|)
    requires Canon(part, a) == Canon(part, b)
    ensures Mentions(part, a, x) == Mentions(part, b, x)
  {
    CanonDecidesCongruence(part, a, b);
  }
}
