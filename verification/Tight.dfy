/** How much an interval says: no more than one step of the format beyond values
    that members can really give. */
module Tightness {
  import opened Intervals

  /** Both bounds are members. */
  predicate Ends(i: Interval) {
    Contains(i, i.lo) && Contains(i, i.hi) && !i.lo.NaN? && !i.hi.NaN?
  }

  /** The negation of an interval holds the negations of its members, and nothing
      else. */
  lemma NegIsExact(a: Interval, x: Ext)
    requires !IsBottom(a)
    ensures Contains(Neg(a), Negated(x)) <==> Contains(a, x)
  {
  }

  /** The magnitude of an interval holds the magnitudes of its members, and nothing
      else. */
  lemma AbsIsExact(a: Interval, m: Ext)
    requires !IsBottom(a) && !a.lo.NaN? && !a.hi.NaN?
    ensures Contains(Abs(a), m) <==> exists x :: Contains(a, x) && Magnitude(x) == m
  {
    if Contains(Abs(a), m) {
      var x := if Contains(a, m) then m else Negated(m);
      assert Contains(a, x) && Magnitude(x) == m;
    }
    if exists x :: Contains(a, x) && Magnitude(x) == m {
      var x :| Contains(a, x) && Magnitude(x) == m;
      AbsIsSound(a, x);
    }
  }

  /** Two facts that do not exclude each other combine into what both say. */
  lemma MeetIsExact(a: Interval, b: Interval, x: Ext)
    requires !a.lo.NaN? && !a.hi.NaN? && !b.lo.NaN? && !b.hi.NaN?
    requires !Less(Smaller(a.hi, b.hi), Larger(a.lo, b.lo))
    ensures Contains(Meet(a, b), x) <==> Contains(a, x) && Contains(b, x)
  {
  }

  /** The bounds of a join are bounds of one of the two, and it may be NaN, or
      zero, only if one of the two may. */
  lemma JoinIsTight(a: Interval, b: Interval)
    requires Ends(a) && Ends(b)
    ensures var j := Join(a, b);
            && (Contains(a, j.lo) || Contains(b, j.lo)) && (Contains(a, j.hi) || Contains(b, j.hi))
            && (j.nan <==> Contains(a, NaN) || Contains(b, NaN))
            && (j.nonzero <==> a.nonzero && b.nonzero)
  {
  }

  datatype Operation = Addition | Subtraction | Multiplication | Division

  /** The exact result. */
  function Result(op: Operation, x: Ext, y: Ext): Ext {
    match op
    case Addition => Sum(x, y)
    case Subtraction => Sum(x, Negated(y))
    case Multiplication => Product(x, y)
    case Division => Quotient(x, y)
  }

  /** The bounds are results of members, rounded and widened by a step. */
  ghost predicate Reached(f: Format, op: Operation, a: Interval, b: Interval, i: Interval) {
    && (exists x, y :: Contains(a, x) && Contains(b, y) && i.lo == WidenLo(f, Round(f, Result(op, x, y))))
    && (exists x, y :: Contains(a, x) && Contains(b, y) && i.hi == WidenHi(f, Round(f, Result(op, x, y))))
  }

  /** Some members have no valid result. */
  ghost predicate SomeInvalid(op: Operation, a: Interval, b: Interval) {
    exists x, y :: Contains(a, x) && Contains(b, y) && Result(op, x, y).NaN?
  }

  lemma WidenedIsNumber(f: Format, x: Ext)
    requires IsFormat(f) && !x.NaN?
    ensures !WidenLo(f, x).NaN? && !WidenHi(f, x).NaN?
  {
    if x.Fin? {
      assert RoundsAt(f, x.r);
    }
  }

  /** The bounds of a sum are sums of members, a step outward; and it may be NaN only
      if some members add up to nothing valid. */
  lemma AddIsTight(f: Format, a: Interval, b: Interval)
    requires IsFormat(f) && Ends(a) && Ends(b)
    ensures !Sum(a.lo, b.lo).NaN? && !Sum(a.hi, b.hi).NaN? ==> Reached(f, Addition, a, b, Add(f, a, b))
    ensures Add(f, a, b).nan <==> SomeInvalid(Addition, a, b)
  {
    RoundKeepsNaN(f, Sum(a.lo, b.lo));
    RoundKeepsNaN(f, Sum(a.hi, b.hi));
    hide IsFormat;
    if !Sum(a.lo, b.lo).NaN? && !Sum(a.hi, b.hi).NaN? {
      WidenedIsNumber(f, Round(f, Sum(a.lo, b.lo)));
      WidenedIsNumber(f, Round(f, Sum(a.hi, b.hi)));
      assert Add(f, a, b).lo == WidenLo(f, Round(f, Result(Addition, a.lo, b.lo)));
      assert Add(f, a, b).hi == WidenHi(f, Round(f, Result(Addition, a.hi, b.hi)));
    }
    if Add(f, a, b).nan {
      var x := if a.nan then NaN else if a.lo.NegInf? && b.hi.PosInf? then a.lo else a.hi;
      var y := if b.nan then NaN else if a.lo.NegInf? && b.hi.PosInf? then b.hi else b.lo;
      assert Contains(a, x) && Contains(b, y) && Result(Addition, x, y).NaN?;
    }
    if SomeInvalid(Addition, a, b) {
      var x, y :| Contains(a, x) && Contains(b, y) && Result(Addition, x, y).NaN?;
      AddIsSound(f, a, b, x, y);
    }
  }

  /** The same of differences. */
  lemma SubIsTight(f: Format, a: Interval, b: Interval)
    requires IsFormat(f) && Ends(a) && Ends(b)
    ensures !Sum(a.lo, Negated(b.hi)).NaN? && !Sum(a.hi, Negated(b.lo)).NaN? ==>
              Reached(f, Subtraction, a, b, Sub(f, a, b))
    ensures Sub(f, a, b).nan <==> SomeInvalid(Subtraction, a, b)
  {
    AddIsTight(f, a, Neg(b));
    NegEnds(b);
    hide IsFormat, Add, Contains, Neg, Sum, Round, WidenLo, WidenHi;
    if !Sum(a.lo, Negated(b.hi)).NaN? && !Sum(a.hi, Negated(b.lo)).NaN? {
      ReachedByDifference(f, a, b, Sub(f, a, b));
    }
    InvalidDifference(a, b);
  }

  lemma InvalidDifference(a: Interval, b: Interval)
    requires Ends(b)
    ensures SomeInvalid(Addition, a, Neg(b)) <==> SomeInvalid(Subtraction, a, b)
  {
    hide Contains, Neg, Sum;
    if SomeInvalid(Addition, a, Neg(b)) {
      var x, y :| Contains(a, x) && Contains(Neg(b), y) && Result(Addition, x, y).NaN?;
      NegatedTwice(b, Negated(y));
      NegatedTwice(b, y);
      assert Contains(b, Negated(y)) && Result(Subtraction, x, Negated(y)).NaN?;
    }
    if SomeInvalid(Subtraction, a, b) {
      var x, y :| Contains(a, x) && Contains(b, y) && Result(Subtraction, x, y).NaN?;
      NegatedTwice(b, y);
      assert Contains(Neg(b), Negated(y)) && Result(Addition, x, Negated(y)).NaN?;
    }
  }

  lemma NegEnds(b: Interval)
    requires Ends(b)
    ensures Ends(Neg(b)) && Neg(b).lo == Negated(b.hi) && Neg(b).hi == Negated(b.lo)
  {
  }

  lemma NegatedTwice(b: Interval, y: Ext)
    requires Ends(b)
    ensures Contains(b, y) <==> Contains(Neg(b), Negated(y))
    ensures Negated(Negated(y)) == y
  {
    NegIsExact(b, y);
  }

  lemma ReachedByDifference(f: Format, a: Interval, b: Interval, i: Interval)
    requires Ends(b) && Reached(f, Addition, a, Neg(b), i)
    ensures Reached(f, Subtraction, a, b, i)
  {
    hide Contains, Neg, Sum, Round, WidenLo, WidenHi;
    var x, y :| Contains(a, x) && Contains(Neg(b), y) && i.lo == WidenLo(f, Round(f, Result(Addition, x, y)));
    var u, v :| Contains(a, u) && Contains(Neg(b), v) && i.hi == WidenHi(f, Round(f, Result(Addition, u, v)));
    NegatedTwice(b, Negated(y));
    NegatedTwice(b, Negated(v));
    NegatedTwice(b, y);
    NegatedTwice(b, v);
    assert Result(Subtraction, x, Negated(y)) == Result(Addition, x, y);
    assert Result(Subtraction, u, Negated(v)) == Result(Addition, u, v);
  }

  /** A product of bounds. */
  lemma CornerOf(a: Interval, b: Interval, i: nat) returns (x: Ext, y: Ext)
    requires i < 4 && Ends(a) && Ends(b)
    ensures Contains(a, x) && Contains(b, y) && Product(x, y) == Corners(a, b)[i]
  {
    x, y := if i < 2 then a.lo else a.hi, if i % 2 == 0 then b.lo else b.hi;
  }

  /** The ends of a hull are two of the values. */
  lemma HullIsReached(f: Format, s: seq<Ext>, nan: bool) returns (i: nat, j: nat)
    requires IsFormat(f) && !AllNaN(s)
    ensures i < |s| && j < |s|
    ensures var h := Hull(f, Rounded(f, s), nan);
            h.lo == WidenLo(f, Round(f, s[i])) && h.hi == WidenHi(f, Round(f, s[j])) && h.nan == nan
  {
    var k :| 0 <= k < |s| && !s[k].NaN?;
    RoundKeepsNaN(f, s[k]);
    hide IsFormat, Clean, Lowest, Highest, WidenLo, WidenHi, Round;
    var results := Rounded(f, s);
    assert !results[k].NaN?;
    var clean := Clean(results);
    assert clean != [];
    LowestIsOne(clean);
    assert Lowest(clean) in results && Highest(clean) in results;
    i :| 0 <= i < |results| && results[i] == Lowest(clean);
    j :| 0 <= j < |results| && results[j] == Highest(clean);
  }

  /** The same of products, unless no product of bounds is valid. */
  lemma MulIsTight(f: Format, a: Interval, b: Interval)
    requires IsFormat(f) && Ends(a) && Ends(b) && !AllNaN(Corners(a, b))
    ensures Reached(f, Multiplication, a, b, Mul(f, a, b))
  {
    hide IsFormat, Corners, Product, Contains, WidenLo, WidenHi, Round, Hull, AllNaN;
    var nan := a.nan || b.nan || MayBeZeroTimesInfinity(a, b) || MayBeZeroTimesInfinity(b, a);
    var i, j := HullIsReached(f, Corners(a, b), nan);
    CornersAreFour(a, b);
    var x, y := CornerOf(a, b, i);
    var u, v := CornerOf(a, b, j);
    EndsAreOrdered(a);
    EndsAreOrdered(b);
    assert Result(Multiplication, x, y) == Corners(a, b)[i] && Result(Multiplication, u, v) == Corners(a, b)[j];
  }

  /** The quotients of the bounds. */
  function Ratios(a: Interval, b: Interval): seq<Ext> {
    [Quotient(a.lo, b.lo), Quotient(a.lo, b.hi), Quotient(a.hi, b.lo), Quotient(a.hi, b.hi)]
  }

  /** The same of quotients by an interval without zero. */
  lemma DivIsTight(f: Format, a: Interval, b: Interval)
    requires IsFormat(f) && Ends(a) && Ends(b) && (Less(ZERO, b.lo) || Less(b.hi, ZERO)) && !AllNaN(Ratios(a, b))
    ensures Reached(f, Division, a, b, Div(f, a, b))
  {
    var nan := DivIsHull(f, a, b);
    hide IsFormat, Ratios, Quotient, Contains, WidenLo, WidenHi, Round, Hull, AllNaN, Div;
    var i, j := HullIsReached(f, Ratios(a, b), nan);
    var x, y := RatioOf(a, b, i);
    var u, v := RatioOf(a, b, j);
    assert Result(Division, x, y) == Ratios(a, b)[i] && Result(Division, u, v) == Ratios(a, b)[j];
  }

  lemma DivIsHull(f: Format, a: Interval, b: Interval) returns (nan: bool)
    requires Ends(a) && Ends(b) && (Less(ZERO, b.lo) || Less(b.hi, ZERO))
    ensures Div(f, a, b) == Hull(f, Rounded(f, Ratios(a, b)), nan) && |Ratios(a, b)| == 4
  {
    EndsAreOrdered(a);
    EndsAreOrdered(b);
    hide Hull, Rounded, Quotient;
    nan := a.nan || b.nan || ((a.lo.NegInf? || a.hi.PosInf?) && (b.lo.NegInf? || b.hi.PosInf?));
  }

  lemma RatioOf(a: Interval, b: Interval, i: nat) returns (x: Ext, y: Ext)
    requires i < 4 && Ends(a) && Ends(b)
    ensures Contains(a, x) && Contains(b, y) && Quotient(x, y) == Ratios(a, b)[i]
  {
    x, y := if i < 2 then a.lo else a.hi, if i % 2 == 0 then b.lo else b.hi;
  }

  lemma CornersAreFour(a: Interval, b: Interval)
    ensures |Corners(a, b)| == 4
  {
  }

  /** The interval by its bounds alone. */
  function Filled(a: Interval): Interval {
    a.(nonzero := false)
  }

  /** A product may be NaN exactly if that of some numbers within the bounds is
      invalid, zero included. */
  lemma MulInvalidExactly(f: Format, a: Interval, b: Interval)
    requires IsFormat(f) && Ends(a) && Ends(b)
    ensures Mul(f, a, b).nan <==> SomeInvalid(Multiplication, Filled(a), Filled(b))
  {
    hide IsFormat, Mul, Product;
    MulMayBeInvalid(f, a, b);
    MulMayBeInvalid(f, Filled(a), Filled(b));
    if Mul(f, a, b).nan {
      InvalidProduct(a, b);
    }
    if SomeInvalid(Multiplication, Filled(a), Filled(b)) {
      var x, y :| Contains(Filled(a), x) && Contains(Filled(b), y) && Result(Multiplication, x, y).NaN?;
      RoundKeepsNaN(f, Product(x, y));
      MulIsSound(f, Filled(a), Filled(b), x, y);
    }
  }

  predicate ProductMayBeInvalid(a: Interval, b: Interval) {
    a.nan || b.nan || MayBeZeroTimesInfinity(a, b) || MayBeZeroTimesInfinity(b, a)
  }

  lemma MulMayBeInvalid(f: Format, a: Interval, b: Interval)
    requires IsFormat(f) && !IsBottom(a) && !IsBottom(b) && !a.lo.NaN? && !a.hi.NaN? && !b.lo.NaN? && !b.hi.NaN?
    ensures Mul(f, a, b).nan <==> ProductMayBeInvalid(a, b)
  {
    var p := Product(a.lo, b.lo);
    assert p.NaN? ==> ProductMayBeInvalid(a, b);
    RoundKeepsNaN(f, p);
    hide IsFormat, Product, Round;
    assert Rounded(f, Corners(a, b))[0] == Round(f, p);
    if !p.NaN? {
      OneIsClean(Rounded(f, Corners(a, b)), 0);
    }
  }

  lemma {:induction false} OneIsClean(s: seq<Ext>, i: nat)
    requires i < |s| && !s[i].NaN?
    ensures Clean(s) != []
  {
    if i < |s| - 1 {
      OneIsClean(s[..|s| - 1], i);
    }
  }

  lemma InvalidProduct(a: Interval, b: Interval)
    requires Ends(a) && Ends(b) && ProductMayBeInvalid(a, b)
    ensures SomeInvalid(Multiplication, Filled(a), Filled(b))
  {
    var x := if a.nan then NaN else if b.nan then a.lo else if MayBeZeroTimesInfinity(a, b) then ZERO
             else if a.lo.NegInf? then a.lo else a.hi;
    var y := if a.nan then b.lo else if b.nan then NaN else if !MayBeZeroTimesInfinity(a, b) then ZERO
             else if b.lo.NegInf? then b.lo else b.hi;
    assert Contains(Filled(a), x) && Contains(Filled(b), y) && Result(Multiplication, x, y).NaN?;
  }

  /** A quotient may be NaN exactly if that of some numbers within the bounds is. */
  lemma DivInvalidExactly(f: Format, a: Interval, b: Interval)
    requires IsFormat(f) && Ends(a) && Ends(b)
    ensures Div(f, a, b).nan <==>
              exists x, y :: Contains(Filled(a), x) && Contains(Filled(b), y) && Divides(f, x, y, NaN)
  {
    hide IsFormat, Div, Product;
    DivMayBeInvalid(f, a, b);
    DivMayBeInvalid(f, Filled(a), Filled(b));
    if Div(f, a, b).nan {
      InvalidQuotient(f, a, b);
    }
    if exists x, y :: Contains(Filled(a), x) && Contains(Filled(b), y) && Divides(f, x, y, NaN) {
      var x, y :| Contains(Filled(a), x) && Contains(Filled(b), y) && Divides(f, x, y, NaN);
      DivIsSound(f, Filled(a), Filled(b), x, y, NaN);
    }
  }

  predicate BothInfinite(a: Interval, b: Interval) {
    (a.lo.NegInf? || a.hi.PosInf?) && (b.lo.NegInf? || b.hi.PosInf?)
  }

  predicate HoldsZero(a: Interval) {
    Leq(a.lo, ZERO) && Leq(ZERO, a.hi)
  }

  predicate QuotientMayBeInvalid(a: Interval, b: Interval) {
    a.nan || b.nan || BothInfinite(a, b) || (HoldsZero(a) && HoldsZero(b))
  }

  lemma DivMayBeInvalid(f: Format, a: Interval, b: Interval)
    requires IsFormat(f) && !IsBottom(a) && !IsBottom(b) && !a.lo.NaN? && !a.hi.NaN? && !b.lo.NaN? && !b.hi.NaN?
    ensures Div(f, a, b).nan <==> QuotientMayBeInvalid(a, b)
  {
    if !HoldsZero(b) {
      var s := [Quotient(a.lo, b.lo), Quotient(a.lo, b.hi), Quotient(a.hi, b.lo), Quotient(a.hi, b.hi)];
      assert s[0].NaN? ==> QuotientMayBeInvalid(a, b);
      RoundKeepsNaN(f, s[0]);
      hide IsFormat, Quotient, Round;
      assert Rounded(f, s)[0] == Round(f, s[0]);
      if !s[0].NaN? {
        OneIsClean(Rounded(f, s), 0);
      }
    }
  }

  lemma InvalidQuotient(f: Format, a: Interval, b: Interval)
    requires IsFormat(f) && Ends(a) && Ends(b) && QuotientMayBeInvalid(a, b)
    ensures exists x, y :: Contains(Filled(a), x) && Contains(Filled(b), y) && Divides(f, x, y, NaN)
  {
    var x := if a.nan then NaN else if b.nan then a.lo else if !BothInfinite(a, b) then ZERO
             else if a.lo.NegInf? then a.lo else a.hi;
    var y := if a.nan then b.lo else if b.nan then NaN else if !BothInfinite(a, b) then ZERO
             else if b.lo.NegInf? then b.lo else b.hi;
    if y != ZERO {
      RoundKeepsNaN(f, Product(x, Inverse(y)));
    }
    hide IsFormat;
    assert Contains(Filled(a), x) && Contains(Filled(b), y) && Divides(f, x, y, NaN);
  }

  /** A side condition holds of an interval exactly if it does of every member. */
  lemma ConditionsAreExact(i: Interval)
    requires !i.lo.NaN? && !i.hi.NaN? && (!IsBottom(i) || i.nan)
    ensures IsFinite(i) <==> forall x | Contains(i, x) :: x.Fin?
    ensures IsNonzero(i) <==> forall x | Contains(i, x) :: !x.NaN? && x != ZERO
    ensures IsPositive(i) <==> forall x | Contains(i, x) :: Less(ZERO, x)
    ensures IsNegative(i) <==> forall x | Contains(i, x) :: Less(x, ZERO)
    ensures IsNonneg(i) <==> forall x | Contains(i, x) :: Leq(ZERO, x)
    ensures IsNonpos(i) <==> forall x | Contains(i, x) :: Leq(x, ZERO)
    ensures IsConstant(i) <==> i.lo.Fin? && forall x | Contains(i, x) :: x == i.lo
  {
    var inside := if i.lo.Fin? then Fin(i.lo.r / 2.0) else Fin(-1.0);
    assert Contains(i, NaN) <==> i.nan;
    assert Contains(i, i.lo) || i.lo == ZERO || IsBottom(i);
    assert Contains(i, i.hi) || i.hi == ZERO || IsBottom(i);
    assert Contains(i, ZERO) || i.nonzero || Less(ZERO, i.lo) || Less(i.hi, ZERO);
    assert Contains(i, inside) || !Less(i.lo, i.hi) || i.hi != ZERO;
  }

  lemma EndsAreOrdered(a: Interval)
    requires Ends(a)
    ensures !IsBottom(a)
  {
  }

  lemma {:induction false} LowestIsOne(s: seq<Ext>)
    requires s != [] && forall i | 0 <= i < |s| :: !s[i].NaN?
    ensures Lowest(s) in s && Highest(s) in s
  {
    var init, last := s[..|s| - 1], s[|s| - 1];
    if init != [] {
      LowestIsOne(init);
    } else {
      assert Leq(last, PosInf) && Leq(NegInf, last);
    }
  }
}
