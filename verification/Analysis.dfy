/** The mathematical analysis: constant folding and ranges, and why what it says
    of a class is true of its value. */
module MathFacts {
  import opened Options
  import opened Lang
  import opened Intervals
  import Tightness
  import opened Graphs
  import opened Meanings

  // ----- what operators compute -----

  /** The library functions, as far as their results are ordered. */
  datatype Library = Library(format: Format, pi: Ext, sqrt: Ext -> Ext, exp: Ext -> Ext, ln: Ext -> Ext,
                             floor: Ext -> Ext, ceil: Ext -> Ext)

  predicate OrdersAt(h: Ext -> Ext, x: Ext, y: Ext) {
    Leq(x, y) ==> Leq(h(x), h(y))
  }

  /** Invalid for NaN only. */
  predicate TotalAt(h: Ext -> Ext, x: Ext) {
    h(x).NaN? <==> x.NaN?
  }

  /** Invalid for NaN and below zero. */
  predicate FromZeroAt(h: Ext -> Ext, x: Ext) {
    h(x).NaN? <==> x.NaN? || Less(x, ZERO)
  }

  ghost predicate KeepsOrder(h: Ext -> Ext) {
    (forall x :: TotalAt(h, x)) && forall x, y :: OrdersAt(h, x, y)
  }

  ghost predicate KeepsOrderFromZero(h: Ext -> Ext) {
    (forall x :: FromZeroAt(h, x)) && forall x, y | Leq(ZERO, x) :: OrdersAt(h, x, y)
  }

  /** Exponentials are not negative, only zero has the root zero, and the
      logarithm of zero is minus infinity. */
  ghost predicate IsLibrary(lib: Library) {
    && IsFormat(lib.format) && lib.pi.Fin? && Leq(ZERO, lib.pi)
    && KeepsOrder(lib.floor) && KeepsOrder(lib.ceil) && KeepsOrder(lib.exp) && lib.exp(NegInf) == ZERO
    && KeepsOrderFromZero(lib.sqrt) && lib.sqrt(ZERO) == ZERO && (forall x: Ext | x != ZERO :: lib.sqrt(x) != ZERO)
    && KeepsOrderFromZero(lib.ln) && lib.ln(ZERO) == NegInf
  }

  function Signum(x: Ext): Ext {
    if x.NaN? then NaN else if Less(ZERO, x) then ONE else if Less(x, ZERO) then Negated(ONE) else ZERO
  }

  /** A condition holds if it is a number other than zero. */
  predicate Truthy(x: Ext) {
    !x.NaN? && x != ZERO
  }

  function Truth(b: bool): Ext {
    if b then ONE else ZERO
  }

  /** The results an operator can have, signs of zeros aside. */
  predicate Evaluates(lib: Library, op: Op, args: seq<Ext>, v: Ext)
    requires |args| == op.Arity()
  {
    var f := lib.format;
    match op
    case Add => v == Round(f, Sum(args[0], args[1]))
    case Sub => v == Round(f, Sum(args[0], Negated(args[1])))
    case Mul => v == Round(f, Product(args[0], args[1]))
    case Div => Divides(f, args[0], args[1], v)
    case Pow => PowerOf(f, args[0], args[1], v)
    case Min => v == Smaller(args[0], args[1])
    case Max => v == Larger(args[0], args[1])
    case Atan2 => if args[0].NaN? || args[1].NaN? then v.NaN? else Between(Negated(lib.pi), v, lib.pi)
    case Neg => v == Negated(args[0])
    case Abs => v == Magnitude(args[0])
    case Sqrt => v == lib.sqrt(args[0])
    case Ln => v == lib.ln(args[0])
    case Exp => v == lib.exp(args[0])
    case Sin => if args[0].Fin? then Between(Negated(ONE), v, ONE) else v.NaN?
    case Cos => if args[0].Fin? then Between(Negated(ONE), v, ONE) else v.NaN?
    case Sign => v == Signum(args[0])
    case Floor => v == lib.floor(args[0])
    case Ceil => v == lib.ceil(args[0])
    case Lt => v == Truth(Less(args[0], args[1]))
    case Le => v == Truth(Leq(args[0], args[1]))
    case Gt => v == Truth(Less(args[1], args[0]))
    case Ge => v == Truth(Leq(args[1], args[0]))
    case Eq => v == Truth(args[0] == args[1] && !args[0].NaN?)
    case Ne => v == Truth(args[0] != args[1] || args[0].NaN?)
    case And => v == Truth(Truthy(args[0]) && Truthy(args[1]))
    case Or => v == Truth(Truthy(args[0]) || Truthy(args[1]))
    case Not => v == Truth(!Truthy(args[0]))
    case If => v == if Truthy(args[0]) then args[1] else args[2]
    case Tan => true
    case Diff => true
    case Const(_) => true
    case Var(_) => true
  }

  predicate Swaps(lib: Library, op: Op, x: Ext, y: Ext, v: Ext)
    requires op.Arity() == 2
  {
    Evaluates(lib, op, [x, y], v) <==> Evaluates(lib, op, [y, x], v)
  }

  /** The operators whose arguments are sorted are just those whose results do not
      depend on their order. (The angle of a point and a derivative, of which less is
      said here, are not among them.) */
  lemma CommutativeExactly(lib: Library, op: Op)
    requires IsLibrary(lib) && op.Arity() == 2
    ensures op.Atan2? || op.Diff? ==> !op.IsCommutative()
    ensures !op.Atan2? && !op.Diff? ==> (op.IsCommutative() <==> forall x, y, v :: Swaps(lib, op, x, y, v))
  {
    hide IsLibrary;
    if op.IsCommutative() {
      forall x, y, v
        ensures Swaps(lib, op, x, y, v)
      {
        ProductCommutes(x, y);
      }
    } else if !op.Atan2? && !op.Diff? {
      OrderMatters(lib, op);
    }
  }

  lemma ProductCommutes(x: Ext, y: Ext)
    ensures Product(x, y) == Product(y, x) && Sum(x, y) == Sum(y, x)
  {
    if x.Fin? && y.Fin? {
      assert Times(x.r, y.r) == Times(y.r, x.r);
    }
  }

  lemma OrderMatters(lib: Library, op: Op)
    requires IsLibrary(lib) && op.Arity() == 2 && !op.IsCommutative() && !op.Atan2? && !op.Diff?
    ensures exists x, y, v :: !Swaps(lib, op, x, y, v)
  {
    var f := lib.format;
    assert RoundsAt(f, 1.0) && f.round(-1.0) == Negated(ONE);
    var x, y := ZERO, ONE;
    var v := if op.Sub? then Negated(ONE) else if op.Div? || op.Pow? then ZERO else ONE;
    var w := if op.Gt? || op.Ge? then ZERO else v;
    TimesZero(1.0);
    assert op.Pow? ==> RealPower(0.0, 1) == 0.0 && RealPower(1.0, 0) == 1.0;
    assert !Swaps(lib, op, x, y, w);
  }

  // ----- the ranges of results -----

  const BOOL := Interval(ZERO, ONE, false, false)

  function SqrtRange(lib: Library, a: Interval): Interval {
    if IsBottom(a) then TOP
    else
      var lo, hi := lib.sqrt(Larger(a.lo, ZERO)), lib.sqrt(Larger(a.hi, ZERO));
      Interval(Larger(WidenLo(lib.format, lo), ZERO), WidenHi(lib.format, hi), a.nan || Less(a.lo, ZERO), a.nonzero)
  }

  function ExpRange(lib: Library, a: Interval): Interval {
    if IsBottom(a) then TOP
    else Interval(Larger(WidenLo(lib.format, lib.exp(a.lo)), ZERO), WidenHi(lib.format, lib.exp(a.hi)), a.nan, false)
  }

  function LnRange(lib: Library, a: Interval): Interval {
    if IsBottom(a) then TOP
    else
      var lo := if Leq(a.lo, ZERO) then NegInf else WidenLo(lib.format, lib.ln(a.lo));
      var hi := if Leq(a.hi, ZERO) then NegInf else WidenHi(lib.format, lib.ln(a.hi));
      Interval(lo, hi, a.nan || Less(a.lo, ZERO), false)
  }

  function TrigRange(a: Interval): Interval {
    Interval(Negated(ONE), ONE, a.nan || !a.lo.Fin? || !a.hi.Fin?, false)
  }

  function SignRange(a: Interval): Interval {
    Interval(Signum(a.lo), Signum(a.hi), a.nan, a.nonzero)
  }

  /** The range of a node from those of its children. */
  function Range(lib: Library, assumed: Sym -> Interval, literal: Double -> Ext, op: Op, r: seq<Interval>): Interval
    requires |r| == op.Arity()
  {
    var f := lib.format;
    match op
    case Const(c) => Point(literal(c))
    case Var(s) => assumed(s)
    case Add => Intervals.Add(f, r[0], r[1])
    case Sub => Intervals.Sub(f, r[0], r[1])
    case Mul => Intervals.Mul(f, r[0], r[1])
    case Div => Intervals.Div(f, r[0], r[1])
    case Pow => PowOf(f, r[0], r[1])
    case Min => Intervals.Min(r[0], r[1])
    case Max => Intervals.Max(r[0], r[1])
    case Atan2 => Interval(Negated(lib.pi), lib.pi, r[0].nan || r[1].nan, false)
    case Neg => Intervals.Neg(r[0])
    case Abs => Intervals.Abs(r[0])
    case Sqrt => SqrtRange(lib, r[0])
    case Ln => LnRange(lib, r[0])
    case Exp => ExpRange(lib, r[0])
    case Sin => TrigRange(r[0])
    case Cos => TrigRange(r[0])
    case Sign => SignRange(r[0])
    case Floor => Interval(lib.floor(r[0].lo), lib.floor(r[0].hi), r[0].nan, false)
    case Ceil => Interval(lib.ceil(r[0].lo), lib.ceil(r[0].hi), r[0].nan, false)
    case If => Join(r[1], r[2])
    case Tan => TOP
    case Diff => TOP
    case _ => BOOL
  }

  // ----- ranges are sound -----

  lemma SqrtIsSound(lib: Library, a: Interval, x: Ext)
    requires IsLibrary(lib) && Contains(a, x)
    ensures Contains(SqrtRange(lib, a), lib.sqrt(x))
  {
    hide IsFormat;
    var l, h := Larger(a.lo, ZERO), Larger(a.hi, ZERO);
    var y := if Leq(ZERO, x) then x else ZERO;
    assert FromZeroAt(lib.sqrt, x) && FromZeroAt(lib.sqrt, l) && FromZeroAt(lib.sqrt, h);
    assert OrdersAt(lib.sqrt, ZERO, y) && OrdersAt(lib.sqrt, l, y) && OrdersAt(lib.sqrt, y, h);
    if Leq(ZERO, x) && !IsBottom(a) {
      WidenedBelow(lib.format, lib.sqrt(l), lib.sqrt(x));
      WidenedAbove(lib.format, lib.sqrt(x), lib.sqrt(h));
    }
  }

  lemma ExpIsSound(lib: Library, a: Interval, x: Ext)
    requires IsLibrary(lib) && Contains(a, x)
    ensures Contains(ExpRange(lib, a), lib.exp(x))
  {
    hide IsFormat;
    assert TotalAt(lib.exp, x) && TotalAt(lib.exp, a.lo) && TotalAt(lib.exp, a.hi);
    assert OrdersAt(lib.exp, NegInf, x) && OrdersAt(lib.exp, a.lo, x) && OrdersAt(lib.exp, x, a.hi);
    if !x.NaN? && !IsBottom(a) {
      WidenedBelow(lib.format, lib.exp(a.lo), lib.exp(x));
      WidenedAbove(lib.format, lib.exp(x), lib.exp(a.hi));
    }
  }

  lemma LnIsSound(lib: Library, a: Interval, x: Ext)
    requires IsLibrary(lib) && Contains(a, x)
    ensures Contains(LnRange(lib, a), lib.ln(x))
  {
    hide IsFormat;
    var y := if Leq(ZERO, x) then x else ZERO;
    assert FromZeroAt(lib.ln, x) && FromZeroAt(lib.ln, a.lo) && FromZeroAt(lib.ln, a.hi);
    assert OrdersAt(lib.ln, y, a.hi);
    if Less(ZERO, a.lo) {
      assert OrdersAt(lib.ln, a.lo, y);
    }
    if Leq(ZERO, x) && !IsBottom(a) {
      if Less(ZERO, a.lo) {
        WidenedBelow(lib.format, lib.ln(a.lo), lib.ln(x));
      }
      if Less(ZERO, a.hi) {
        WidenedAbove(lib.format, lib.ln(x), lib.ln(a.hi));
      }
    }
  }

  /** The operands whose ranges are sound: any but those of a minimum, maximum
      or power that is not safe. */
  predicate RangeApplies(lib: Library, op: Op, r: seq<Interval>)
    requires |r| == op.Arity()
  {
    && (op.Min? ==> MinIsSafe(r[0], r[1]))
    && (op.Max? ==> MaxIsSafe(r[0], r[1]))
    && (op.Pow? ==> PowIsSafe(lib.format, r[0], r[1]))
  }

  lemma ArithmeticIsSound(lib: Library, op: Op, r: seq<Interval>, args: seq<Ext>, v: Ext, assumed: Sym -> Interval,
                          literal: Double -> Ext)
    requires IsLibrary(lib) && op.Arity() == 2 == |r| == |args| && Contains(r[0], args[0]) && Contains(r[1], args[1])
    requires Evaluates(lib, op, args, v) && RangeApplies(lib, op, r)
    ensures Contains(Range(lib, assumed, literal, op, r), v)
  {
    hide IsFormat, Intervals.Add, Intervals.Sub, Intervals.Mul, Intervals.Div, PowOf, PowIsSafe, PowerOf, MinIsSafe,
         MaxIsSafe, Divides, Product, Sum, Round,
         KeepsOrder, KeepsOrderFromZero;
    match op {
      case Add => AddIsSound(lib.format, r[0], r[1], args[0], args[1]);
      case Sub => SubIsSound(lib.format, r[0], r[1], args[0], args[1]);
      case Mul => MulIsSound(lib.format, r[0], r[1], args[0], args[1]);
      case Div => DivIsSound(lib.format, r[0], r[1], args[0], args[1], v);
      case Pow => SafePowersHold(lib.format, r[0], r[1], args[0], args[1], v);
      case Min => MinIsSound(r[0], r[1], args[0], args[1]);
      case Max => MaxIsSound(r[0], r[1], args[0], args[1]);
      case _ =>
    }
  }

  /** Rounding to an integer loses no order, only the fact of not being zero. */
  lemma IntegralIsSound(h: Ext -> Ext, a: Interval, x: Ext)
    requires KeepsOrder(h) && Contains(a, x)
    ensures Contains(Interval(h(a.lo), h(a.hi), a.nan, false), h(x))
  {
    assert OrdersAt(h, a.lo, x) && OrdersAt(h, x, a.hi) && TotalAt(h, x);
  }

  lemma SignIsSound(a: Interval, x: Ext)
    requires Contains(a, x)
    ensures Contains(SignRange(a), Signum(x))
  {
  }

  lemma TrigIsSound(a: Interval, x: Ext, v: Ext)
    requires Contains(a, x) && if x.Fin? then Between(Negated(ONE), v, ONE) else v.NaN?
    ensures Contains(TrigRange(a), v)
  {
  }

  lemma AnythingIsInTop(v: Ext)
    ensures Contains(TOP, v)
  {
  }

  lemma TruthIsBool(b: bool)
    ensures Contains(BOOL, Truth(b))
  {
  }

  lemma UnaryIsSound(lib: Library, op: Op, r: seq<Interval>, args: seq<Ext>, v: Ext, assumed: Sym -> Interval,
                     literal: Double -> Ext)
    requires IsLibrary(lib) && op.Arity() == 1 == |r| == |args| && Contains(r[0], args[0])
    requires Evaluates(lib, op, args, v)
    ensures Contains(Range(lib, assumed, literal, op, r), v)
  {
    hide IsFormat, SqrtRange, ExpRange, LnRange, SignRange, TrigRange, Signum, Intervals.Neg, Intervals.Abs,
         Contains, Between, Negated, Magnitude, KeepsOrder, KeepsOrderFromZero;
    var a, x := r[0], args[0];
    match op {
      case Neg => NegIsSound(a, x);
      case Abs => AbsIsSound(a, x);
      case Sqrt => SqrtIsSound(lib, a, x);
      case Ln => LnIsSound(lib, a, x);
      case Exp => ExpIsSound(lib, a, x);
      case Floor => IntegralIsSound(lib.floor, a, x);
      case Ceil => IntegralIsSound(lib.ceil, a, x);
      case Sign => SignIsSound(a, x);
      case Sin => TrigIsSound(a, x, v);
      case Cos => TrigIsSound(a, x, v);
      case Tan => AnythingIsInTop(v);
      case Not => TruthIsBool(!Truthy(x));
    }
  }

  /** The range computed for a node contains whatever the node can evaluate to,
      if its operands are safe. */
  lemma RangeIsSound(lib: Library, op: Op, r: seq<Interval>, args: seq<Ext>, v: Ext, assumed: Sym -> Interval,
                     literal: Double -> Ext)
    requires IsLibrary(lib) && |r| == op.Arity() == |args| && forall k | 0 <= k < |r| :: Contains(r[k], args[k])
    requires Evaluates(lib, op, args, v) && RangeApplies(lib, op, r)
    requires op.Const? ==> v == literal(op.c)
    requires op.Var? ==> Contains(assumed(op.s), v)
    ensures Contains(Range(lib, assumed, literal, op, r), v)
  {
    hide IsLibrary, Join, SqrtRange, ExpRange, LnRange;
    if op.Const? {
      PointIsExact(v, v);
    } else if op.If? {
      assert Contains(r[1], args[1]) && Contains(r[2], args[2]);
      JoinIsSound(r[1], r[2], v);
    } else if op.Arity() == 1 {
      UnaryIsSound(lib, op, r, args, v, assumed, literal);
    } else if op.Arity() == 2 {
      ArithmeticIsSound(lib, op, r, args, v, assumed, literal);
    }
  }

  predicate HoldsRange(lib: Library, op: Op, r: seq<Interval>, args: seq<Ext>, v: Ext, assumed: Sym -> Interval,
                       literal: Double -> Ext)
    requires |r| == op.Arity()
  {
    && |args| == op.Arity()
    && (forall k | 0 <= k < |r| :: Contains(r[k], args[k]))
    && Evaluates(lib, op, args, v)
    && (op.Const? ==> v == literal(op.c))
    && (op.Var? ==> Contains(assumed(op.s), v))
    ==> Contains(Range(lib, assumed, literal, op, r), v)
  }

  /** The range of an operator contains all its results if and only if the
      operands are safe. */
  lemma RangeIsSoundExactly(lib: Library, op: Op, r: seq<Interval>, assumed: Sym -> Interval, literal: Double -> Ext)
    requires IsLibrary(lib) && |r| == op.Arity()
    ensures (forall args, v :: HoldsRange(lib, op, r, args, v, assumed, literal)) <==> RangeApplies(lib, op, r)
  {
    hide IsLibrary, IsFormat, PowOf, PowerOf, PowIsSafe, MinIsSafe, MaxIsSafe, RangeApplies, Intervals.Min,
         Intervals.Max, Contains;
    if RangeApplies(lib, op, r) {
      forall args, v
        ensures HoldsRange(lib, op, r, args, v, assumed, literal)
      {
        RangeAlwaysHolds(lib, op, r, args, v, assumed, literal);
      }
    } else {
      var args, v := UnsafeRange(lib, op, r, assumed, literal);
    }
  }

  lemma RangeAlwaysHolds(lib: Library, op: Op, r: seq<Interval>, args: seq<Ext>, v: Ext, assumed: Sym -> Interval,
                         literal: Double -> Ext)
    requires IsLibrary(lib) && |r| == op.Arity() && RangeApplies(lib, op, r)
    ensures HoldsRange(lib, op, r, args, v, assumed, literal)
  {
    hide IsLibrary, RangeApplies, Range, Evaluates, Contains;
    if |args| == op.Arity() && (forall k | 0 <= k < |r| :: Contains(r[k], args[k])) && Evaluates(lib, op, args, v)
       && (op.Const? ==> v == literal(op.c)) && (op.Var? ==> Contains(assumed(op.s), v)) {
      RangeIsSound(lib, op, r, args, v, assumed, literal);
    }
  }

  /** Unsafe operands have members with a result outside the range. */
  lemma UnsafeRange(lib: Library, op: Op, r: seq<Interval>, assumed: Sym -> Interval, literal: Double -> Ext)
    returns (args: seq<Ext>, v: Ext)
    requires IsLibrary(lib) && |r| == op.Arity() && !RangeApplies(lib, op, r)
    ensures !HoldsRange(lib, op, r, args, v, assumed, literal)
  {
    hide IsFormat, PowOf, PowerOf, PowIsSafe, MinIsSafe, MaxIsSafe, Intervals.Min, Intervals.Max, Contains;
    var x, y;
    if op.Min? {
      MinIsSoundExactly(r[0], r[1]);
      x, y :| !HoldsMin(r[0], r[1], x, y);
      v := Smaller(x, y);
    } else if op.Max? {
      MaxIsSoundExactly(r[0], r[1]);
      x, y :| !HoldsMax(r[0], r[1], x, y);
      v := Larger(x, y);
    } else {
      PowIsSoundExactly(lib.format, r[0], r[1]);
      x, y, v :| !HoldsPow(lib.format, r[0], r[1], x, y, v);
    }
    args := [x, y];
  }

  /** And no more than they must: from operands whose bounds are members, the bounds
      of an arithmetic operation are results of members, at most a step outward; a
      negation, a magnitude or a literal holds nothing but what it must; and a
      choice ends where one of its branches does. */
  lemma RangeIsTight(lib: Library, op: Op, r: seq<Interval>, assumed: Sym -> Interval, literal: Double -> Ext)
    requires IsLibrary(lib) && |r| == op.Arity() && forall k | 0 <= k < |r| :: Tightness.Ends(r[k])
    ensures var f, i := lib.format, Range(lib, assumed, literal, op, r);
            && (op.Add? && !Sum(r[0].lo, r[1].lo).NaN? && !Sum(r[0].hi, r[1].hi).NaN? ==>
                  Tightness.Reached(f, Tightness.Addition, r[0], r[1], i))
            && (op.Sub? && !Sum(r[0].lo, Negated(r[1].hi)).NaN? && !Sum(r[0].hi, Negated(r[1].lo)).NaN? ==>
                  Tightness.Reached(f, Tightness.Subtraction, r[0], r[1], i))
            && (op.Mul? && !AllNaN(Corners(r[0], r[1])) ==>
                  Tightness.Reached(f, Tightness.Multiplication, r[0], r[1], i))
            && (op.Div? && (Less(ZERO, r[1].lo) || Less(r[1].hi, ZERO)) && !AllNaN(Tightness.Ratios(r[0], r[1])) ==>
                  Tightness.Reached(f, Tightness.Division, r[0], r[1], i))
            && (op.Neg? ==> forall x :: Contains(i, Negated(x)) <==> Contains(r[0], x))
            && (op.Abs? ==> forall m :: Contains(i, m) <==> exists x :: Contains(r[0], x) && Magnitude(x) == m)
            && (op.If? ==>
                  (Contains(r[1], i.lo) || Contains(r[2], i.lo)) && (Contains(r[1], i.hi) || Contains(r[2], i.hi)))
            && (op.Const? ==> forall v :: Contains(i, v) <==> v == literal(op.c))
  {
    hide IsFormat, Tightness.Reached, Corners, AllNaN, Contains, Intervals.Add, Intervals.Sub, Intervals.Mul,
         Intervals.Neg, Intervals.Abs, Intervals.Div, Tightness.Ratios, Join, Sum, Point;
    match op {
      case Add => Tightness.AddIsTight(lib.format, r[0], r[1]);
      case Sub => Tightness.SubIsTight(lib.format, r[0], r[1]);
      case Mul =>
        if !AllNaN(Corners(r[0], r[1])) {
          Tightness.MulIsTight(lib.format, r[0], r[1]);
        }
      case Div =>
        if (Less(ZERO, r[1].lo) || Less(r[1].hi, ZERO)) && !AllNaN(Tightness.Ratios(r[0], r[1])) {
          Tightness.DivIsTight(lib.format, r[0], r[1]);
        }
      case Neg =>
        Tightness.EndsAreOrdered(r[0]);
        forall x
          ensures Contains(Intervals.Neg(r[0]), Negated(x)) <==> Contains(r[0], x)
        {
          Tightness.NegIsExact(r[0], x);
        }
      case Abs =>
        Tightness.EndsAreOrdered(r[0]);
        forall m
          ensures Contains(Intervals.Abs(r[0]), m) <==> exists x :: Contains(r[0], x) && Magnitude(x) == m
        {
          Tightness.AbsIsExact(r[0], m);
        }
      case If => Tightness.JoinIsTight(r[1], r[2]);
      case Const(c) =>
        forall v
          ensures Contains(Point(literal(c)), v) <==> v == literal(c)
        {
          PointIsExact(literal(c), v);
        }
      case _ =>
    }
  }

  /** The other ranges end where their operands do: at the results for the bounds,
      exactly or a step outward, a root and an exponential no lower than zero. */
  lemma RangeEndsAtResults(lib: Library, op: Op, r: seq<Interval>, assumed: Sym -> Interval, literal: Double -> Ext)
    requires IsLibrary(lib) && |r| == op.Arity() && forall k | 0 <= k < |r| :: Tightness.Ends(r[k])
    ensures var i := Range(lib, assumed, literal, op, r);
            && (op.Floor? || op.Ceil? || op.Sign? ==>
                  Evaluates(lib, op, [r[0].lo], i.lo) && Evaluates(lib, op, [r[0].hi], i.hi))
            && (op.Exp? || (op.Sqrt? && Leq(ZERO, r[0].lo)) || (op.Ln? && Less(ZERO, r[0].lo)) ==>
                  EndsAStepOff(lib, op, r[0], i))
            && (op.Min? || op.Max? ==>
                  (i.lo == r[0].lo || i.lo == r[1].lo) && (i.hi == r[0].hi || i.hi == r[1].hi))
  {
    if op.Exp? || (op.Sqrt? && Leq(ZERO, r[0].lo)) || (op.Ln? && Less(ZERO, r[0].lo)) {
      StepsOff(lib, op, r[0], assumed, literal);
      assert r == [r[0]];
    }
    hide IsLibrary, EndsAStepOff, Tightness.Ends, Intervals.Add, Intervals.Sub, Intervals.Mul, Intervals.Div, PowOf,
         Intervals.Abs, Intervals.Neg, Join, SqrtRange, ExpRange, LnRange, TrigRange;
  }

  /** NaN is allowed exactly if it can come of a member. */
  lemma InvalidExactly(lib: Library, op: Op, a: Interval, assumed: Sym -> Interval, literal: Double -> Ext)
    requires IsLibrary(lib) && Tightness.Ends(a) && op.Arity() == 1 && !op.Not? && !op.Tan?
    ensures Range(lib, assumed, literal, op, [a]).nan <==>
              exists x :: Contains(a, x) && Evaluates(lib, op, [x], NaN)
  {
    hide IsFormat, KeepsOrder, KeepsOrderFromZero;
    MembersWithoutResult(lib, op, a);
    Tightness.EndsAreOrdered(a);
  }

  predicate IsInvalidAt(op: Op, x: Ext) {
    x.NaN? || ((op.Sqrt? || op.Ln?) && Less(x, ZERO)) || ((op.Sin? || op.Cos?) && !x.Fin?)
  }

  lemma InvalidAt(lib: Library, op: Op, x: Ext)
    requires IsLibrary(lib) && op.Arity() == 1 && !op.Not? && !op.Tan?
    ensures Evaluates(lib, op, [x], NaN) <==> IsInvalidAt(op, x)
  {
    assert TotalAt(lib.floor, x) && TotalAt(lib.ceil, x) && TotalAt(lib.exp, x);
    assert FromZeroAt(lib.sqrt, x) && FromZeroAt(lib.ln, x);
    hide IsLibrary;
  }

  lemma MembersWithoutResult(lib: Library, op: Op, a: Interval)
    requires IsLibrary(lib) && Tightness.Ends(a) && op.Arity() == 1 && !op.Not? && !op.Tan?
    ensures (exists x :: Contains(a, x) && Evaluates(lib, op, [x], NaN)) <==>
              || a.nan || ((op.Sqrt? || op.Ln?) && Less(a.lo, ZERO))
              || ((op.Sin? || op.Cos?) && !(a.lo.Fin? && a.hi.Fin?))
  {
    forall x
      ensures Evaluates(lib, op, [x], NaN) <==> IsInvalidAt(op, x)
    {
      InvalidAt(lib, op, x);
    }
    hide Evaluates, IsLibrary;
    assert Contains(a, NaN) <==> a.nan;
    assert Contains(a, a.lo) && Contains(a, a.hi);
  }

  /** Truth values are zero and one, sines and cosines stay between one and its
      negation, angles within half a turn, and a variable within what is assumed. */
  lemma RangeIsBounded(lib: Library, op: Op, r: seq<Interval>, assumed: Sym -> Interval, literal: Double -> Ext, x: Ext)
    requires IsLibrary(lib) && |r| == op.Arity() && Contains(Range(lib, assumed, literal, op, r), x)
    ensures op.Lt? || op.Le? || op.Gt? || op.Ge? || op.Eq? || op.Ne? || op.And? || op.Or? || op.Not? ==>
              Leq(ZERO, x) && Leq(x, ONE)
    ensures op.Sin? || op.Cos? ==> x.NaN? || (Leq(Negated(ONE), x) && Leq(x, ONE))
    ensures op.Atan2? ==> if x.NaN? then r[0].nan || r[1].nan else Leq(Negated(lib.pi), x) && Leq(x, lib.pi)
    ensures op.Var? ==> Contains(assumed(op.s), x)
  {
    hide IsLibrary, Intervals.Add, Intervals.Sub, Intervals.Mul, Intervals.Div, PowOf, Intervals.Abs, Intervals.Neg,
         Join, SqrtRange, ExpRange, LnRange, SignRange, Intervals.Min, Intervals.Max;
  }

  ghost predicate EndsAStepOff(lib: Library, op: Op, a: Interval, i: Interval)
    requires op.Arity() == 1
  {
    && (exists v :: Evaluates(lib, op, [a.hi], v) && i.hi == WidenHi(lib.format, v))
    && (exists v :: Evaluates(lib, op, [a.lo], v)
                    && (i.lo == WidenLo(lib.format, v) || (i.lo == ZERO && Leq(WidenLo(lib.format, v), ZERO))))
  }

  lemma StepsOff(lib: Library, op: Op, a: Interval, assumed: Sym -> Interval, literal: Double -> Ext)
    requires IsLibrary(lib) && Tightness.Ends(a)
    requires op.Exp? || (op.Sqrt? && Leq(ZERO, a.lo)) || (op.Ln? && Less(ZERO, a.lo))
    ensures EndsAStepOff(lib, op, a, Range(lib, assumed, literal, op, [a]))
  {
    Tightness.EndsAreOrdered(a);
    EndsHaveResults(lib, op, a);
    hide IsLibrary, WidenLo, WidenHi;
    if op.Exp? {
      assert Evaluates(lib, op, [a.hi], lib.exp(a.hi)) && Evaluates(lib, op, [a.lo], lib.exp(a.lo));
    } else if op.Sqrt? {
      assert Evaluates(lib, op, [a.hi], lib.sqrt(a.hi)) && Evaluates(lib, op, [a.lo], lib.sqrt(a.lo));
    } else {
      assert Evaluates(lib, op, [a.hi], lib.ln(a.hi)) && Evaluates(lib, op, [a.lo], lib.ln(a.lo));
    }
  }

  lemma EndsHaveResults(lib: Library, op: Op, a: Interval)
    requires IsLibrary(lib) && Tightness.Ends(a) && (op.Exp? || op.Sqrt? || op.Ln?)
    ensures op.Exp? ==> Evaluates(lib, op, [a.lo], lib.exp(a.lo)) && Evaluates(lib, op, [a.hi], lib.exp(a.hi))
    ensures op.Sqrt? ==> Evaluates(lib, op, [a.lo], lib.sqrt(a.lo)) && Evaluates(lib, op, [a.hi], lib.sqrt(a.hi))
    ensures op.Ln? ==> Evaluates(lib, op, [a.lo], lib.ln(a.lo)) && Evaluates(lib, op, [a.hi], lib.ln(a.hi))
    ensures !lib.exp(a.lo).NaN? && (Leq(ZERO, a.lo) ==> !lib.sqrt(a.lo).NaN? && !lib.ln(a.lo).NaN?)
    ensures !WidenLo(lib.format, lib.exp(a.lo)).NaN?
    ensures Leq(ZERO, a.lo) ==> !WidenLo(lib.format, lib.sqrt(a.lo)).NaN?
  {
    assert TotalAt(lib.exp, a.lo) && FromZeroAt(lib.sqrt, a.lo) && FromZeroAt(lib.ln, a.lo);
    Tightness.WidenedIsNumber(lib.format, lib.exp(a.lo));
    if Leq(ZERO, a.lo) {
      Tightness.WidenedIsNumber(lib.format, lib.sqrt(a.lo));
    }
  }

  // ----- facts -----

  /** The operators on values, folding of literals, and what an extended real
      keeps of a value: all but the sign of a zero. */
  datatype Arithmetic = Arithmetic(eval: (Op, seq<Value>) -> Value, fold: (Op, seq<Double>) -> Double,
                                   ext: Value -> Ext)

  function Literal(ar: Arithmetic, c: Double): Value {
    ar.eval(Const(c), [])
  }

  function LiteralExt(ar: Arithmetic): Double -> Ext {
    (c: Double) => ar.ext(Literal(ar, c))
  }

  predicate Holds(ar: Arithmetic, d: Fact, v: Value) {
    (d.constant.Some? ==> v == Literal(ar, d.constant.value)) && Contains(d.range, ar.ext(v))
  }

  predicate IsTranscendental(op: Op) {
    op.Ln? || op.Exp? || op.Sin? || op.Cos? || op.Tan? || op.Pow? || op.Atan2?
  }

  function Constants(data: seq<Fact>): (c: Option<seq<Double>>)
    ensures c.Some? <==> forall k | 0 <= k < |data| :: data[k].constant.Some?
    ensures c.Some? ==> |c.value| == |data| && forall k | 0 <= k < |data| :: c.value[k] == data[k].constant.value
  {
    if data == [] then Some([])
    else
      var init, last := Constants(data[..|data| - 1]), data[|data| - 1].constant;
      if init.None? || last.None? then None else Some(init.value + [last.value])
  }

  function Ranges(data: seq<Fact>): (r: seq<Interval>)
    ensures |r| == |data| && forall k | 0 <= k < |data| :: r[k] == data[k].range
  {
    seq(|data|, k requires 0 <= k < |data| => data[k].range)
  }

  function Exts(ar: Arithmetic, args: seq<Value>): (xs: seq<Ext>)
    ensures |xs| == |args| && forall k | 0 <= k < |args| :: xs[k] == ar.ext(args[k])
  {
    seq(|args|, k requires 0 <= k < |args| => ar.ext(args[k]))
  }

  function Literals(ar: Arithmetic, cs: seq<Double>): (values: seq<Value>)
    ensures |values| == |cs| && forall k | 0 <= k < |cs| :: values[k] == Literal(ar, cs[k])
  {
    seq(|cs|, k requires 0 <= k < |cs| => Literal(ar, cs[k]))
  }

  predicate IsFolded(op: Op, foldTranscendental: bool) {
    !op.Const? && !op.Var? && !op.Diff? && (IsTranscendental(op) ==> foldTranscendental)
  }

  /** The value of a node whose children are all known, if it is finite. */
  function Folded(ar: Arithmetic, foldTranscendental: bool, op: Op, data: seq<Fact>): Option<Double> {
    if op.Const? then Some(op.c)
    else if !IsFolded(op, foldTranscendental) then None
    else
      var args := Constants(data);
      if args.None? then None
      else
        var c := ar.fold(op, args.value);
        if ar.ext(Literal(ar, c)).Fin? then Some(c) else None
  }

  /** The fact of one node from those of its children. */
  function Make(lib: Library, ar: Arithmetic, assumed: Sym -> Interval, foldTranscendental: bool, op: Op,
                data: seq<Fact>): Fact
    requires |data| == op.Arity()
  {
    var constant := Folded(ar, foldTranscendental, op, data);
    var range := Range(lib, assumed, LiteralExt(ar), op, Ranges(data));
    Fact(constant, if constant.Some? then Meet(range, Point(ar.ext(Literal(ar, constant.value)))) else range)
  }

  /** Exactly which constant is known of a node: the literal itself, or the value
      of an operator that can be evaluated at compile time, a transcendental one
      only if allowed, on children all known, if that value is finite. */
  lemma ConstantIsExact(lib: Library, ar: Arithmetic, assumed: Sym -> Interval, foldTranscendental: bool, op: Op,
                        data: seq<Fact>, c: Double)
    requires |data| == op.Arity()
    ensures Make(lib, ar, assumed, foldTranscendental, op, data).constant == Some(c) <==>
              || op == Const(c)
              || (&& (op.Add? || op.Sub? || op.Mul? || op.Div? || op.Pow? || op.Min? || op.Max? || op.Atan2?
                      || op.Neg? || op.Sqrt? || op.Ln? || op.Exp? || op.Sin? || op.Cos? || op.Tan? || op.Abs?
                      || op.Sign? || op.Floor? || op.Ceil? || op.Lt? || op.Le? || op.Gt? || op.Ge? || op.Eq?
                      || op.Ne? || op.And? || op.Or? || op.Not? || op.If?)
                  && (op.Ln? || op.Exp? || op.Sin? || op.Cos? || op.Tan? || op.Pow? || op.Atan2? ==> foldTranscendental)
                  && exists cs: seq<Double> ::
                       && |cs| == |data| && (forall k | 0 <= k < |data| :: data[k].constant == Some(cs[k]))
                       && c == ar.fold(op, cs) && ar.ext(ar.eval(Const(c), [])).Fin?)
  {
    hide Range, Meet, Point, IsFolded;
    FoldableOps(op, foldTranscendental);
    FoldedExactly(ar, foldTranscendental, op, data, c);
  }

  /** A value known and allowed by the range is all that the fact allows. */
  lemma KnownIsPinned(lib: Library, ar: Arithmetic, assumed: Sym -> Interval, foldTranscendental: bool, op: Op,
                      data: seq<Fact>, x: Ext)
    requires |data| == op.Arity()
    ensures var d := Make(lib, ar, assumed, foldTranscendental, op, data);
            d.constant.Some? ==>
              var v := ar.ext(Literal(ar, d.constant.value));
              v.Fin? && Contains(Range(lib, assumed, LiteralExt(ar), op, Ranges(data)), v) ==>
                (Contains(d.range, x) <==> x == v)
  {
    hide Range, Folded;
  }

  lemma FoldableOps(op: Op, foldTranscendental: bool)
    ensures IsFolded(op, foldTranscendental) <==>
              && (op.Add? || op.Sub? || op.Mul? || op.Div? || op.Pow? || op.Min? || op.Max? || op.Atan2?
                  || op.Neg? || op.Sqrt? || op.Ln? || op.Exp? || op.Sin? || op.Cos? || op.Tan? || op.Abs?
                  || op.Sign? || op.Floor? || op.Ceil? || op.Lt? || op.Le? || op.Gt? || op.Ge? || op.Eq?
                  || op.Ne? || op.And? || op.Or? || op.Not? || op.If?)
              && (op.Ln? || op.Exp? || op.Sin? || op.Cos? || op.Tan? || op.Pow? || op.Atan2? ==> foldTranscendental)
  {
  }

  lemma FoldedExactly(ar: Arithmetic, foldTranscendental: bool, op: Op, data: seq<Fact>, c: Double)
    ensures Folded(ar, foldTranscendental, op, data) == Some(c) <==>
              || op == Const(c)
              || (&& !op.Const? && IsFolded(op, foldTranscendental)
                  && exists cs: seq<Double> ::
                       && |cs| == |data| && (forall k | 0 <= k < |data| :: data[k].constant == Some(cs[k]))
                       && c == ar.fold(op, cs) && ar.ext(ar.eval(Const(c), [])).Fin?)
  {
    hide IsFolded, Constants;
    forall cs
      ensures Constants(data) == Some(cs) <==>
                |cs| == |data| && forall k | 0 <= k < |data| :: data[k].constant == Some(cs[k])
    {
      ConstantsAre(data, cs);
    }
    if Constants(data).Some? {
      assert Constants(data) == Some(Constants(data).value);
    }
  }

  lemma ConstantsAre(data: seq<Fact>, cs: seq<Double>)
    ensures Constants(data) == Some(cs) <==>
              |cs| == |data| && forall k | 0 <= k < |data| :: data[k].constant == Some(cs[k])
  {
    if Constants(data).Some? && |cs| == |data| && forall k | 0 <= k < |data| :: data[k].constant == Some(cs[k]) {
      assert Constants(data).value == cs;
    }
  }

  function Merge(a: Fact, b: Fact): Fact {
    Fact(if a.constant.Some? then a.constant else b.constant, Meet(a.range, b.range))
  }

  /** Facts about one value combine into a fact about it. */
  lemma MergeIsSound(ar: Arithmetic, a: Fact, b: Fact, v: Value)
    requires Holds(ar, a, v) && Holds(ar, b, v)
    ensures Holds(ar, Merge(a, b), v)
  {
    MeetIsSound(a.range, b.range, ar.ext(v));
  }

  /** The operators evaluate as they should. */
  predicate Computes(lib: Library, ar: Arithmetic, op: Op, args: seq<Value>)
  {
    |args| == op.Arity() ==> Evaluates(lib, op, Exts(ar, args), ar.ext(ar.eval(op, args)))
  }

  /** Folding literals gives the literal of the value. */
  predicate FoldsRight(ar: Arithmetic, op: Op, cs: seq<Double>) {
    |cs| == op.Arity() ==> ar.eval(op, Literals(ar, cs)) == Literal(ar, ar.fold(op, cs))
  }

  /** The fact of a node is true of its value if those of its children are, and
      safe. */
  lemma MakeIsSound(lib: Library, ar: Arithmetic, assumed: Sym -> Interval, foldTranscendental: bool, op: Op,
                    data: seq<Fact>, args: seq<Value>)
    requires IsLibrary(lib) && |data| == op.Arity() == |args| && Computes(lib, ar, op, args)
    requires IsFolded(op, foldTranscendental) ==> forall cs :: FoldsRight(ar, op, cs)
    requires forall k | 0 <= k < |data| :: Holds(ar, data[k], args[k])
    requires op.Var? ==> Contains(assumed(op.s), ar.ext(ar.eval(op, args)))
    requires RangeApplies(lib, op, Ranges(data))
    ensures Holds(ar, Make(lib, ar, assumed, foldTranscendental, op, data), ar.eval(op, args))
  {
    hide IsLibrary, Evaluates, Range, RangeApplies, Contains, Meet, Point;
    var v := ar.eval(op, args);
    var literal := LiteralExt(ar);
    assert op.Const? ==> args == [] && v == Literal(ar, op.c);
    RangeIsSound(lib, op, Ranges(data), Exts(ar, args), ar.ext(v), assumed, literal);
    var constant := Folded(ar, foldTranscendental, op, data);
    if constant.Some? {
      if !op.Const? {
        var cs := Constants(data).value;
        assert Literals(ar, cs) == args;
        assert FoldsRight(ar, op, cs);
      }
      PointIsExact(ar.ext(v), ar.ext(v));
      MeetIsSound(Range(lib, assumed, literal, op, Ranges(data)), Point(ar.ext(v)), ar.ext(v));
    }
  }

  // ----- the analysis of an e-graph -----

  /** The shipped analysis. A node of the wrong arity says nothing. */
  function MathAnalysis(lib: Library, ar: Arithmetic, assumed: Sym -> Interval, foldTranscendental: bool): Analysis {
    Analysis((op: Op, data: seq<Fact>) =>
               if |data| == op.Arity() then Make(lib, ar, assumed, foldTranscendental, op, data) else Fact(None, TOP),
             Merge)
  }

  /** Operators and facts it is vouched for: `fair` facts that are true. */
  function MathSemantics(ar: Arithmetic, known: Op -> bool, fair: Fact -> bool): Semantics {
    Semantics(ar.eval, (d: Fact, v: Value) => fair(d) && Holds(ar, d, v), known)
  }

  /** An operator evaluates, folds and commutes as it should, and a variable is
      what was assumed of it. */
  ghost predicate Behaves(lib: Library, ar: Arithmetic, assumed: Sym -> Interval, foldTranscendental: bool, op: Op) {
    && (forall args :: Computes(lib, ar, op, args))
    && (IsFolded(op, foldTranscendental) ==> forall cs :: FoldsRight(ar, op, cs))
    && (op.IsCommutative() ==> forall a, b :: ar.eval(op, [a, b]) == ar.eval(op, [b, a]))
    && (op.Var? ==> Contains(assumed(op.s), ar.ext(ar.eval(op, []))))
  }

  /** The operator, from fair facts that are true, is safe and gives a fair fact. */
  ghost predicate KeepsFair(lib: Library, ar: Arithmetic, assumed: Sym -> Interval, foldTranscendental: bool,
                            known: Op -> bool, fair: Fact -> bool, op: Op, data: seq<Fact>, args: seq<Value>) {
    |data| == op.Arity() && AllHold(MathSemantics(ar, known, fair), data, args)
    ==> RangeApplies(lib, op, Ranges(data)) && fair(Make(lib, ar, assumed, foldTranscendental, op, data))
  }

  predicate MergesFair(ar: Arithmetic, fair: Fact -> bool, a: Fact, b: Fact, v: Value) {
    fair(a) && fair(b) && Holds(ar, a, v) && Holds(ar, b, v) ==> fair(Merge(a, b))
  }

  /** The shipped analysis is what a run asks of one, for any operators and
      facts that keep its operands safe. */
  lemma MathRespects(lib: Library, ar: Arithmetic, assumed: Sym -> Interval, foldTranscendental: bool,
                     known: Op -> bool, fair: Fact -> bool)
    requires IsLibrary(lib)
    requires forall op: Op | known(op) :: Behaves(lib, ar, assumed, foldTranscendental, op)
    requires forall op, data, args | known(op) ::
               KeepsFair(lib, ar, assumed, foldTranscendental, known, fair, op, data, args)
    requires forall a, b, v :: MergesFair(ar, fair, a, b, v)
    requires forall d: Fact | fair(d) && d.constant.Some? :: known(Const(d.constant.value))
    ensures Respects(MathSemantics(ar, known, fair), MathAnalysis(lib, ar, assumed, foldTranscendental))
  {
    hide IsLibrary, Make, Holds, Merge, Contains, RangeApplies;
    var sem, analysis := MathSemantics(ar, known, fair), MathAnalysis(lib, ar, assumed, foldTranscendental);
    forall op: Op, data: seq<Fact>, args: seq<Value> | sem.knows(op) && |data| == op.Arity() && AllHold(sem, data, args)
      ensures sem.holds(analysis.make(op, data), sem.eval(op, args))
    {
      assert Behaves(lib, ar, assumed, foldTranscendental, op);
      assert KeepsFair(lib, ar, assumed, foldTranscendental, known, fair, op, data, args);
      assert op.Var? ==> args == [];
      MakeIsSound(lib, ar, assumed, foldTranscendental, op, data, args);
    }
    forall a: Fact, b: Fact, v: Value | sem.holds(a, v) && sem.holds(b, v)
      ensures sem.holds(analysis.merge(a, b), v)
    {
      assert MergesFair(ar, fair, a, b, v);
      MergeIsSound(ar, a, b, v);
    }
    forall d: Fact, v: Value | sem.holds(d, v) && d.constant.Some?
      ensures v == sem.eval(Const(d.constant.value), [])
    {
      ConstantHolds(ar, d, v);
    }
    forall op: Op, a: Value, b: Value | op.IsCommutative() && sem.knows(op)
      ensures sem.eval(op, [a, b]) == sem.eval(op, [b, a])
    {
      assert Behaves(lib, ar, assumed, foldTranscendental, op);
    }
  }

  lemma ConstantHolds(ar: Arithmetic, d: Fact, v: Value)
    requires Holds(ar, d, v) && d.constant.Some?
    ensures v == Literal(ar, d.constant.value)
  {
  }

  /** All operators but the minimum, the maximum and the power. */
  function Unconditional(): Op -> bool {
    (op: Op) => !op.Min? && !op.Max? && !op.Pow?
  }

  /** It is so for all of those, whatever the facts. */
  lemma MathRespectsUnconditional(lib: Library, ar: Arithmetic, assumed: Sym -> Interval, foldTranscendental: bool)
    requires IsLibrary(lib)
    requires forall op: Op | Unconditional()(op) :: Behaves(lib, ar, assumed, foldTranscendental, op)
    ensures Respects(MathSemantics(ar, Unconditional(), _ => true), MathAnalysis(lib, ar, assumed, foldTranscendental))
  {
    MathRespects(lib, ar, assumed, foldTranscendental, Unconditional(), _ => true);
  }

  /** Numbers, and operators that make no NaN of them. */
  predicate IsNaNFree(ar: Arithmetic, op: Op) {
    match op
    case Const(c) => !ar.ext(Literal(ar, c)).NaN?
    case Var(_) => true
    case Min => true
    case Max => true
    case Neg => true
    case Abs => true
    case Sign => true
    case Floor => true
    case Ceil => true
    case If => true
    case Lt => true
    case Le => true
    case Gt => true
    case Ge => true
    case Eq => true
    case Ne => true
    case And => true
    case Or => true
    case Not => true
    case _ => false
  }

  function NaNFree(ar: Arithmetic): Op -> bool {
    (op: Op) => IsNaNFree(ar, op)
  }

  /** A fact that leaves no room for NaN. */
  predicate IsNumber(ar: Arithmetic, d: Fact) {
    !d.range.nan && (d.constant.Some? ==> !ar.ext(Literal(ar, d.constant.value)).NaN?)
  }

  function Numbers(ar: Arithmetic): Fact -> bool {
    (d: Fact) => IsNumber(ar, d)
  }

  lemma RangeIsNumber(lib: Library, ar: Arithmetic, assumed: Sym -> Interval, op: Op, r: seq<Interval>)
    requires |r| == op.Arity() && IsNaNFree(ar, op) && (op.Var? ==> !assumed(op.s).nan)
    requires forall k | 0 <= k < |r| :: !r[k].nan
    ensures !Range(lib, assumed, LiteralExt(ar), op, r).nan
  {
  }

  /** With minimum and maximum it is so where no NaN can enter. */
  lemma MathRespectsNumbers(lib: Library, ar: Arithmetic, assumed: Sym -> Interval, foldTranscendental: bool)
    requires IsLibrary(lib) && forall s: Sym :: !assumed(s).nan
    requires forall op: Op | IsNaNFree(ar, op) :: Behaves(lib, ar, assumed, foldTranscendental, op)
    ensures Respects(MathSemantics(ar, NaNFree(ar), Numbers(ar)), MathAnalysis(lib, ar, assumed, foldTranscendental))
  {
    hide IsLibrary, Behaves, Range, Meet, Contains, Evaluates;
    var known, fair := NaNFree(ar), Numbers(ar);
    forall op, data, args | known(op)
      ensures KeepsFair(lib, ar, assumed, foldTranscendental, known, fair, op, data, args)
    {
      if |data| == op.Arity() && AllHold(MathSemantics(ar, known, fair), data, args) {
        NumbersKeepFair(lib, ar, assumed, foldTranscendental, op, data, args);
      }
    }
    forall a, b, v
      ensures MergesFair(ar, fair, a, b, v)
    {
      if fair(a) && fair(b) && Holds(ar, a, v) && Holds(ar, b, v) {
        MeetIsNumber(a.range, b.range, ar.ext(v));
      }
    }
    MathRespects(lib, ar, assumed, foldTranscendental, known, fair);
  }

  lemma MeetIsNumber(a: Interval, b: Interval, x: Ext)
    requires Contains(a, x) && Contains(b, x) && !a.nan && !b.nan
    ensures !Meet(a, b).nan
  {
  }

  lemma NumbersKeepFair(lib: Library, ar: Arithmetic, assumed: Sym -> Interval, foldTranscendental: bool, op: Op,
                        data: seq<Fact>, args: seq<Value>)
    requires IsLibrary(lib) && (forall s: Sym :: !assumed(s).nan) && Behaves(lib, ar, assumed, foldTranscendental, op)
    requires IsNaNFree(ar, op) && |data| == op.Arity() == |args|
    requires forall k | 0 <= k < |data| :: IsNumber(ar, data[k]) && Holds(ar, data[k], args[k])
    ensures RangeApplies(lib, op, Ranges(data)) && IsNumber(ar, Make(lib, ar, assumed, foldTranscendental, op, data))
  {
    hide IsLibrary, Range, Meet, Contains, Evaluates;
    RangeIsNumber(lib, ar, assumed, op, Ranges(data));
    var constant := Folded(ar, foldTranscendental, op, data);
    if constant.Some? {
      var v := ar.eval(op, args);
      MakeIsSound(lib, ar, assumed, foldTranscendental, op, data, args);
      var literal := LiteralExt(ar);
      var x := ar.ext(Literal(ar, constant.value));
      assert ar.ext(v) == x;
      RangeIsSound(lib, op, Ranges(data), Exts(ar, args), x, assumed, literal);
      PointIsExact(x, x);
      MeetIsNumber(Range(lib, assumed, literal, op, Ranges(data)), Point(x), x);
    }
  }
}
