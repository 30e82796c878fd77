/** Interval arithmetic over extended reals with a monotone rounding: every
    result an operation can have is in the interval computed for it. */
module Intervals {

  // ----- extended reals -----

  datatype Ext = NaN | NegInf | Fin(r: real) | PosInf

  /** The comparison of floats: NaN is not comparable. */
  predicate Leq(a: Ext, b: Ext) {
    && !a.NaN? && !b.NaN?
    && (a.NegInf? || b.PosInf? || (a.Fin? && b.Fin? && a.r <= b.r))
  }

  predicate Less(a: Ext, b: Ext) {
    Leq(a, b) && a != b
  }

  const ZERO := Fin(0.0)
  const ONE := Fin(1.0)

  function Negated(a: Ext): Ext {
    match a case NaN => NaN case NegInf => PosInf case PosInf => NegInf case Fin(r) => Fin(-r)
  }

  function Magnitude(a: Ext): Ext {
    if Less(a, ZERO) then Negated(a) else a
  }

  /** The smaller operand, the other one if either is NaN. */
  function Smaller(a: Ext, b: Ext): Ext {
    if a.NaN? then b else if b.NaN? then a else if Leq(a, b) then a else b
  }

  function Larger(a: Ext, b: Ext): Ext {
    if a.NaN? then b else if b.NaN? then a else if Leq(a, b) then b else a
  }

  function Times(a: real, b: real): real {
    a * b
  }

  /** Exact sums and products; invalid operations give NaN. */
  function Sum(a: Ext, b: Ext): Ext {
    if a.NaN? || b.NaN? || (a.PosInf? && b.NegInf?) || (a.NegInf? && b.PosInf?) then NaN
    else if a.Fin? && b.Fin? then Fin(a.r + b.r)
    else if a.Fin? then b else a
  }

  function Product(a: Ext, b: Ext): Ext {
    if a.NaN? || b.NaN? || (a == ZERO && !b.Fin?) || (!a.Fin? && b == ZERO) then NaN
    else if a.Fin? && b.Fin? then Fin(Times(a.r, b.r))
    else if Less(a, ZERO) == Less(b, ZERO) then PosInf else NegInf
  }

  /** One over a value other than zero. */
  function Inverse(a: Ext): Ext
    requires a != ZERO
  {
    match a case NaN => NaN case NegInf => ZERO case PosInf => ZERO case Fin(r) => Fin(1.0 / r)
  }

  // ----- rounding -----

  /** A floating-point format: its rounding, and the neighbours of a float. */
  datatype Format = Format(round: real -> Ext, down: real -> Ext, up: real -> Ext)

  predicate IsFloat(f: Format, a: Ext) {
    a.Fin? ==> f.round(a.r) == a
  }

  /** A real rounds to a float next to it, and its negation likewise; the
      neighbours of a float are floats on either side of it. */
  predicate RoundsAt(f: Format, a: real) {
    && !f.round(a).NaN? && IsFloat(f, f.round(a)) && f.round(-a) == Negated(f.round(a))
    && (f.round(a).Fin? ==> Leq(f.down(f.round(a).r), Fin(a)) && Leq(Fin(a), f.up(f.round(a).r)))
    && Leq(f.down(a), Fin(a)) && IsFloat(f, f.down(a))
    && Leq(Fin(a), f.up(a)) && IsFloat(f, f.up(a))
  }

  predicate OrderedAt(f: Format, a: real, b: real) {
    a <= b ==> Leq(f.round(a), f.round(b))
  }

  /** Rounding is monotone and symmetric, keeps floats, and takes a real to a
      float next to it. */
  ghost predicate IsFormat(f: Format) {
    && f.round(0.0) == ZERO && f.round(1.0) == ONE
    && (forall a :: RoundsAt(f, a))
    && (forall a, b :: OrderedAt(f, a, b))
  }

  function Round(f: Format, a: Ext): Ext {
    if a.Fin? then f.round(a.r) else a
  }

  function WidenLo(f: Format, a: Ext): Ext {
    if a.Fin? then f.down(a.r) else a
  }

  function WidenHi(f: Format, a: Ext): Ext {
    if a.Fin? then f.up(a.r) else a
  }

  lemma RoundIsMonotone(f: Format, a: Ext, b: Ext)
    requires IsFormat(f) && Leq(a, b)
    ensures Leq(Round(f, a), Round(f, b))
  {
    if a.Fin? && b.Fin? {
      assert OrderedAt(f, a.r, b.r);
    } else if a.Fin? {
      assert RoundsAt(f, a.r);
    } else if b.Fin? {
      assert RoundsAt(f, b.r);
    }
  }

  // ----- intervals -----

  /** Bounds on a value, whether it may be NaN, whether it is known not to be
      zero. */
  datatype Interval = Interval(lo: Ext, hi: Ext, nan: bool, nonzero: bool)

  const TOP := Interval(NegInf, PosInf, true, false)

  /** The value is one the interval describes. */
  predicate Contains(i: Interval, x: Ext) {
    if x.NaN? then i.nan else Leq(i.lo, x) && Leq(x, i.hi) && (i.nonzero ==> x != ZERO)
  }

  predicate IsBottom(i: Interval) {
    Less(i.hi, i.lo)
  }

  function Point(x: Ext): Interval {
    if x.NaN? then Interval(PosInf, NegInf, true, false) else Interval(x, x, false, x != ZERO)
  }

  lemma PointIsExact(x: Ext, y: Ext)
    ensures Contains(Point(x), y) <==> x == y
  {
  }

  predicate IsFinite(i: Interval) {
    !i.nan && i.lo.Fin? && i.hi.Fin?
  }

  predicate IsNonzero(i: Interval) {
    !i.nan && (Less(ZERO, i.lo) || Less(i.hi, ZERO) || i.nonzero)
  }

  predicate IsPositive(i: Interval) {
    !i.nan && (Less(ZERO, i.lo) || (Leq(ZERO, i.lo) && i.nonzero))
  }

  predicate IsNegative(i: Interval) {
    !i.nan && (Less(i.hi, ZERO) || (Leq(i.hi, ZERO) && i.nonzero))
  }

  predicate IsNonneg(i: Interval) {
    !i.nan && Leq(ZERO, i.lo)
  }

  predicate IsNonpos(i: Interval) {
    !i.nan && Leq(i.hi, ZERO)
  }

  predicate IsConstant(i: Interval) {
    !i.nan && i.lo == i.hi && i.lo.Fin?
  }

  /** What a condition reads off an interval is true of every member. */
  lemma ConditionsAreTrue(i: Interval, x: Ext)
    requires Contains(i, x)
    ensures IsFinite(i) ==> x.Fin?
    ensures IsNonzero(i) ==> !x.NaN? && x != ZERO
    ensures IsPositive(i) ==> Less(ZERO, x)
    ensures IsNegative(i) ==> Less(x, ZERO)
    ensures IsNonneg(i) ==> Leq(ZERO, x)
    ensures IsNonpos(i) ==> Leq(x, ZERO)
    ensures IsConstant(i) ==> x == i.lo
  {
  }

  function Meet(a: Interval, b: Interval): Interval {
    var lo, hi := Larger(a.lo, b.lo), Smaller(a.hi, b.hi);
    if Less(hi, lo) then TOP else Interval(lo, hi, a.nan && b.nan, a.nonzero || b.nonzero)
  }

  function Join(a: Interval, b: Interval): Interval {
    Interval(Smaller(a.lo, b.lo), Larger(a.hi, b.hi), a.nan || b.nan, a.nonzero && b.nonzero)
  }

  /** Two facts about one value combine into a fact about it. */
  lemma MeetIsSound(a: Interval, b: Interval, x: Ext)
    requires Contains(a, x) && Contains(b, x)
    ensures Contains(Meet(a, b), x)
  {
  }

  lemma JoinIsSound(a: Interval, b: Interval, x: Ext)
    requires Contains(a, x) || Contains(b, x)
    ensures Contains(Join(a, b), x)
  {
  }

  function Neg(a: Interval): Interval {
    if IsBottom(a) then TOP.(nan := a.nan) else Interval(Negated(a.hi), Negated(a.lo), a.nan, a.nonzero)
  }

  lemma NegIsSound(a: Interval, x: Ext)
    requires Contains(a, x)
    ensures Contains(Neg(a), Negated(x))
  {
  }

  function Abs(a: Interval): Interval {
    if IsBottom(a) then TOP.(nan := a.nan)
    else
      var lo := if Leq(a.lo, ZERO) && Leq(ZERO, a.hi) then ZERO else Smaller(Magnitude(a.lo), Magnitude(a.hi));
      Interval(lo, Larger(Magnitude(a.lo), Magnitude(a.hi)), a.nan, a.nonzero)
  }

  lemma AbsIsSound(a: Interval, x: Ext)
    requires Contains(a, x)
    ensures Contains(Abs(a), Magnitude(x))
  {
  }

  // ----- sums -----

  function Add(f: Format, a: Interval, b: Interval): Interval {
    if IsBottom(a) || IsBottom(b) then TOP
    else
      var nan := a.nan || b.nan || (a.lo.NegInf? && b.hi.PosInf?) || (a.hi.PosInf? && b.lo.NegInf?);
      var lo := WidenLo(f, Round(f, Sum(a.lo, b.lo)));
      var hi := WidenHi(f, Round(f, Sum(a.hi, b.hi)));
      Interval(if lo.NaN? then NegInf else lo, if hi.NaN? then PosInf else hi, nan, false)
  }

  function Sub(f: Format, a: Interval, b: Interval): Interval {
    Add(f, a, Neg(b))
  }

  lemma WidenedBelow(f: Format, lo: Ext, x: Ext)
    requires IsFormat(f) && Leq(lo, x)
    ensures Leq(WidenLo(f, lo), x)
  {
    if lo.Fin? {
      assert RoundsAt(f, lo.r);
    }
  }

  lemma WidenedAbove(f: Format, x: Ext, hi: Ext)
    requires IsFormat(f) && Leq(x, hi)
    ensures Leq(x, WidenHi(f, hi))
  {
    if hi.Fin? {
      assert RoundsAt(f, hi.r);
    }
  }

  /** The rounded sum of any two members is a member, NaN included. */
  lemma AddIsSound(f: Format, a: Interval, b: Interval, x: Ext, y: Ext)
    requires IsFormat(f) && Contains(a, x) && Contains(b, y)
    ensures Contains(Add(f, a, b), Round(f, Sum(x, y)))
  {
    hide IsFormat;
    var s := Sum(x, y);
    if !s.NaN? && !IsBottom(a) && !IsBottom(b) {
      var l, h := Sum(a.lo, b.lo), Sum(a.hi, b.hi);
      RoundIsMonotone(f, s, s);
      if !l.NaN? {
        assert Leq(l, s);
        RoundIsMonotone(f, l, s);
        WidenedBelow(f, Round(f, l), Round(f, s));
      }
      if !h.NaN? {
        assert Leq(s, h);
        RoundIsMonotone(f, s, h);
        WidenedAbove(f, Round(f, s), Round(f, h));
      }
    }
  }

  lemma SubIsSound(f: Format, a: Interval, b: Interval, x: Ext, y: Ext)
    requires IsFormat(f) && Contains(a, x) && Contains(b, y)
    ensures Contains(Sub(f, a, b), Round(f, Sum(x, Negated(y))))
  {
    NegIsSound(b, y);
    AddIsSound(f, a, Neg(b), x, Negated(y));
  }

  // ----- products -----

  /** The products of the bounds, exact. */
  function Corners(a: Interval, b: Interval): seq<Ext> {
    [Product(a.lo, b.lo), Product(a.lo, b.hi), Product(a.hi, b.lo), Product(a.hi, b.hi)]
  }

  predicate Between(lo: Ext, x: Ext, hi: Ext) {
    Leq(lo, x) && Leq(x, hi)
  }

  predicate SomeBelow(s: seq<Ext>, x: Ext) {
    exists i | 0 <= i < |s| :: Leq(s[i], x)
  }

  predicate SomeAbove(s: seq<Ext>, x: Ext) {
    exists i | 0 <= i < |s| :: Leq(x, s[i])
  }

  predicate AllNaN(s: seq<Ext>) {
    forall i | 0 <= i < |s| :: s[i].NaN?
  }

  lemma TimesNonnegative(a: real, b: real, w: real)
    requires a <= b && w >= 0.0
    ensures Times(a, w) <= Times(b, w) && Times(w, a) <= Times(w, b)
  {
  }

  lemma TimesNonpositive(a: real, b: real, w: real)
    requires a <= b && w <= 0.0
    ensures Times(b, w) <= Times(a, w) && Times(w, b) <= Times(w, a)
  {
  }

  lemma TimesPositive(a: real, b: real)
    requires a > 0.0 && b > 0.0
    ensures Times(a, b) > 0.0
  {
  }

  lemma TimesZero(a: real)
    ensures Times(a, 0.0) == 0.0 && Times(0.0, a) == 0.0 && Times(1.0, a) == a && Times(a, 1.0) == a
  {
  }

  lemma TimesNegated(a: real, b: real)
    ensures Times(-a, b) == -Times(a, b) && Times(a, -b) == -Times(a, b) && Times(-a, -b) == Times(a, b)
  {
  }

  /** Moving the second factor the way that lowers the product. */
  lemma EndBelow(a: real, b: Ext, w: real)
    requires (a < 0.0 && Leq(Fin(w), b)) || (a > 0.0 && Leq(b, Fin(w)))
    ensures Leq(Product(Fin(a), b), Fin(Times(a, w)))
  {
    hide Times;
    if b.Fin? {
      if a < 0.0 {
        TimesNonpositive(w, b.r, a);
      } else {
        TimesNonnegative(b.r, w, a);
      }
    }
  }

  lemma BelowByCorner(a: Interval, b: Interval, x: Ext, i: nat)
    requires i < 4 && Leq(Corners(a, b)[i], x)
    ensures SomeBelow(Corners(a, b), x)
  {
  }

  /** From a lower bound of zero: some corner is zero or below, if any is valid. */
  lemma ZeroFirstCorner(a: Interval, b: Interval)
    requires a.lo == ZERO && Leq(ZERO, a.hi) && Less(ZERO, b.hi) && Leq(b.lo, b.hi) && !b.lo.PosInf?
    ensures AllNaN(Corners(a, b)) || SomeBelow(Corners(a, b), ZERO)
  {
    hide Times;
    var c := Corners(a, b);
    if b.hi.Fin? {
      TimesZero(b.hi.r);
      BelowByCorner(a, b, ZERO, 1);
    } else if b.lo.Fin? {
      TimesZero(b.lo.r);
      BelowByCorner(a, b, ZERO, 0);
    } else if b.lo.NegInf? && a.hi != ZERO {
      assert c[2].NegInf?;
      BelowByCorner(a, b, ZERO, 2);
    }
  }

  /** A corner below a finite product, the second factor positive. */
  lemma FiniteLowCorner(a: Interval, b: Interval, v: real, w: real)
    requires Between(a.lo, Fin(v), a.hi) && Between(b.lo, Fin(w), b.hi) && w > 0.0
    ensures AllNaN(Corners(a, b)) || SomeBelow(Corners(a, b), Fin(Times(v, w)))
  {
    hide AllNaN, SomeBelow, Times;
    if a.lo.NegInf? {
      BelowByCorner(a, b, Fin(Times(v, w)), 1);
    } else {
      TimesNonnegative(a.lo.r, v, w);
      if a.lo.r < 0.0 {
        EndBelow(a.lo.r, b.hi, w);
        BelowByCorner(a, b, Fin(Times(v, w)), 1);
      } else if a.lo.r > 0.0 {
        EndBelow(a.lo.r, b.lo, w);
        BelowByCorner(a, b, Fin(Times(v, w)), 0);
      } else {
        ZeroFirstCorner(a, b);
        TimesZero(w);
        StillBelow(Corners(a, b), ZERO, Fin(Times(v, w)));
      }
    }
  }

  lemma StillBelow(s: seq<Ext>, x: Ext, y: Ext)
    requires (AllNaN(s) || SomeBelow(s, x)) && Leq(x, y)
    ensures AllNaN(s) || SomeBelow(s, y)
  {
  }

  lemma NegatedProducts(x: Ext, y: Ext)
    ensures Product(Negated(x), Negated(y)) == Product(x, y)
    ensures Product(Negated(x), y) == Negated(Product(x, y)) == Product(x, Negated(y))
  {
    hide Times;
    if x.Fin? && y.Fin? {
      TimesNegated(x.r, y.r);
    }
  }

  /** The interval reflected at zero. */
  function Mirror(a: Interval): Interval {
    Interval(Negated(a.hi), Negated(a.lo), a.nan, a.nonzero)
  }

  lemma OppositeSigns(x: Ext, y: Ext)
    requires (Leq(ZERO, x) && Leq(y, ZERO)) || (Leq(x, ZERO) && Leq(ZERO, y))
    ensures Product(x, y).NaN? || Leq(Product(x, y), ZERO)
    ensures Product(x, y).NaN? ==> x == ZERO || y == ZERO
  {
    hide Times;
    if x.Fin? && y.Fin? {
      TimesZero(x.r);
      TimesZero(y.r);
      if x.r > 0.0 {
        TimesNonnegative(y.r, 0.0, x.r);
      } else if x.r < 0.0 {
        TimesNonpositive(0.0, y.r, x.r);
      }
    }
  }

  lemma ZeroLowCorner(a: Interval, b: Interval, v: Ext)
    requires v.Fin? && Between(a.lo, v, a.hi) && Between(b.lo, ZERO, b.hi)
    ensures AllNaN(Corners(a, b)) || SomeBelow(Corners(a, b), ZERO)
  {
    var c := Corners(a, b);
    if Leq(ZERO, a.lo) { OppositeSigns(a.lo, b.lo); }
    if Leq(a.lo, ZERO) { OppositeSigns(a.lo, b.hi); }
    if Leq(ZERO, a.hi) { OppositeSigns(a.hi, b.lo); }
    if Leq(a.hi, ZERO) { OppositeSigns(a.hi, b.hi); }
    if !AllNaN(c) {
      assert Leq(c[0], ZERO) || Leq(c[1], ZERO) || Leq(c[2], ZERO) || Leq(c[3], ZERO);
    }
  }

  /** The corners of mirrored intervals are the same, in another order. */
  lemma MirrorCorners(a: Interval, b: Interval, x: Ext)
    requires AllNaN(Corners(Mirror(a), Mirror(b))) || SomeBelow(Corners(Mirror(a), Mirror(b)), x)
    ensures AllNaN(Corners(a, b)) || SomeBelow(Corners(a, b), x)
  {
    hide Product;
    NegatedProducts(a.lo, b.lo);
    NegatedProducts(a.lo, b.hi);
    NegatedProducts(a.hi, b.lo);
    NegatedProducts(a.hi, b.hi);
    var c, d := Corners(a, b), Corners(Mirror(a), Mirror(b));
    assert d == [c[3], c[2], c[1], c[0]];
    if AllNaN(d) {
      assert d[0].NaN? && d[1].NaN? && d[2].NaN? && d[3].NaN?;
    } else {
      var i :| 0 <= i < |d| && Leq(d[i], x);
      assert Leq(c[3 - i], x);
    }
  }

  /** An infinite product that is valid is above every corner, or a corner is
      as low. */
  lemma InfiniteLowCorner(a: Interval, b: Interval, v: Ext, w: Ext)
    requires Between(a.lo, v, a.hi) && Between(b.lo, w, b.hi) && !Product(v, w).NaN? && !(v.Fin? && w.Fin?)
    ensures AllNaN(Corners(a, b)) || SomeBelow(Corners(a, b), Product(v, w))
  {
    var c := Corners(a, b);
    var p := Product(v, w);
    if p.PosInf? {
      if !AllNaN(c) {
        var i :| 0 <= i < |c| && !c[i].NaN?;
        assert Leq(c[i], p);
      }
    } else {
      assert c[1].NegInf? || c[2].NegInf?;
      assert Leq(c[1], p) || Leq(c[2], p);
    }
  }

  /** A product that is valid is above some corner that is. */
  lemma LowCorner(a: Interval, b: Interval, v: Ext, w: Ext)
    requires Between(a.lo, v, a.hi) && Between(b.lo, w, b.hi) && !Product(v, w).NaN?
    ensures AllNaN(Corners(a, b)) || SomeBelow(Corners(a, b), Product(v, w))
  {
    hide Corners, Times;
    if !(v.Fin? && w.Fin?) {
      InfiniteLowCorner(a, b, v, w);
    } else if w.r > 0.0 {
      FiniteLowCorner(a, b, v.r, w.r);
      assert Product(v, w) == Fin(Times(v.r, w.r));
    } else if w.r < 0.0 {
      FiniteLowCorner(Mirror(a), Mirror(b), -v.r, -w.r);
      TimesNegated(v.r, w.r);
      MirrorCorners(a, b, Product(v, w));
    } else {
      TimesZero(v.r);
      ZeroLowCorner(a, b, v);
    }
  }

  lemma NegatedLeq(x: Ext, y: Ext)
    ensures Leq(x, Negated(y)) <==> Leq(y, Negated(x))
  {
  }

  lemma MirrorOneCorners(a: Interval, b: Interval, x: Ext)
    requires AllNaN(Corners(Mirror(a), b)) || SomeBelow(Corners(Mirror(a), b), Negated(x))
    ensures AllNaN(Corners(a, b)) || SomeAbove(Corners(a, b), x)
  {
    hide Product, Leq;
    NegatedProducts(a.lo, b.lo);
    NegatedProducts(a.lo, b.hi);
    NegatedProducts(a.hi, b.lo);
    NegatedProducts(a.hi, b.hi);
    var c, d := Corners(a, b), Corners(Mirror(a), b);
    assert d == [Negated(c[2]), Negated(c[3]), Negated(c[0]), Negated(c[1])];
    if AllNaN(d) {
      assert d[0].NaN? && d[1].NaN? && d[2].NaN? && d[3].NaN?;
    } else {
      var i :| 0 <= i < |d| && Leq(d[i], Negated(x));
      NegatedLeq(d[i], x);
      assert Leq(x, c[if i < 2 then i + 2 else i - 2]);
    }
  }

  /** And below some corner that is. */
  lemma HighCorner(a: Interval, b: Interval, v: Ext, w: Ext)
    requires Between(a.lo, v, a.hi) && Between(b.lo, w, b.hi) && !Product(v, w).NaN?
    ensures AllNaN(Corners(a, b)) || SomeAbove(Corners(a, b), Product(v, w))
  {
    hide Corners, AllNaN, SomeBelow, Product;
    NegatedProducts(v, w);
    LowCorner(Mirror(a), b, Negated(v), w);
    MirrorOneCorners(a, b, Product(v, w));
  }

  /** The values that are not NaN. */
  function Clean(s: seq<Ext>): (t: seq<Ext>)
    ensures forall x :: x in t <==> x in s && !x.NaN?
    ensures t == [] <==> AllNaN(s)
    ensures forall i | 0 <= i < |t| :: !t[i].NaN?
  {
    if s == [] then [] else Clean(s[..|s| - 1]) + if s[|s| - 1].NaN? then [] else [s[|s| - 1]]
  }

  function Lowest(s: seq<Ext>): (x: Ext)
    requires forall i | 0 <= i < |s| :: !s[i].NaN?
    ensures x == PosInf || x in s
    ensures forall i | 0 <= i < |s| :: Leq(x, s[i])
  {
    if s == [] then PosInf else Smaller(Lowest(s[..|s| - 1]), s[|s| - 1])
  }

  function Highest(s: seq<Ext>): (x: Ext)
    requires forall i | 0 <= i < |s| :: !s[i].NaN?
    ensures x == NegInf || x in s
    ensures forall i | 0 <= i < |s| :: Leq(s[i], x)
  {
    if s == [] then NegInf else Larger(Highest(s[..|s| - 1]), s[|s| - 1])
  }

  function Rounded(f: Format, s: seq<Ext>): (t: seq<Ext>)
    ensures |t| == |s| && forall i | 0 <= i < |t| :: t[i] == Round(f, s[i])
  {
    seq(|s|, i requires 0 <= i < |s| => Round(f, s[i]))
  }

  /** The bounds around some float results, widened; nothing if all are NaN. */
  function Hull(f: Format, results: seq<Ext>, nan: bool): Interval {
    var clean := Clean(results);
    if clean == [] then TOP
    else Interval(WidenLo(f, Lowest(clean)), WidenHi(f, Highest(clean)), nan, false)
  }

  predicate MayBeZeroTimesInfinity(a: Interval, b: Interval) {
    Leq(a.lo, ZERO) && Leq(ZERO, a.hi) && (b.lo.NegInf? || b.hi.PosInf?)
  }

  function Mul(f: Format, a: Interval, b: Interval): Interval {
    if IsBottom(a) || IsBottom(b) then TOP
    else Hull(f, Rounded(f, Corners(a, b)),
              a.nan || b.nan || MayBeZeroTimesInfinity(a, b) || MayBeZeroTimesInfinity(b, a))
  }

  /** A bound of an exact value, or an overflow it shares. */
  predicate BoundsBelow(f: Format, lo: Ext, t: Ext) {
    Leq(lo, t) || (lo.PosInf? && Round(f, t).PosInf?)
  }

  predicate BoundsAbove(f: Format, t: Ext, hi: Ext) {
    Leq(t, hi) || (hi.NegInf? && Round(f, t).NegInf?)
  }

  predicate Bounds(f: Format, i: Interval, t: Ext) {
    BoundsBelow(f, i.lo, t) && BoundsAbove(f, t, i.hi)
  }

  /** A float no greater than the rounding of a value, widened, bounds it. */
  lemma WidenedBoundsBelow(f: Format, lo: Ext, t: Ext)
    requires IsFormat(f) && IsFloat(f, lo) && Leq(lo, Round(f, t)) && !t.NaN?
    ensures BoundsBelow(f, WidenLo(f, lo), t)
  {
    if lo.Fin? {
      assert RoundsAt(f, lo.r);
      if t.Fin? && lo.r > t.r {
        assert OrderedAt(f, t.r, lo.r) && RoundsAt(f, t.r);
        assert f.round(t.r) == lo;
      }
    }
  }

  lemma WidenedBoundsAbove(f: Format, t: Ext, hi: Ext)
    requires IsFormat(f) && IsFloat(f, hi) && Leq(Round(f, t), hi) && !t.NaN?
    ensures BoundsAbove(f, t, WidenHi(f, hi))
  {
    if hi.Fin? {
      assert RoundsAt(f, hi.r);
      if t.Fin? && hi.r < t.r {
        assert OrderedAt(f, hi.r, t.r) && RoundsAt(f, t.r);
        assert f.round(t.r) == hi;
      }
    }
  }

  lemma RoundedIsFloat(f: Format, s: seq<Ext>)
    requires IsFormat(f)
    ensures forall x | x in Rounded(f, s) :: IsFloat(f, x)
  {
    forall i | 0 <= i < |s|
      ensures IsFloat(f, Rounded(f, s)[i])
    {
      if s[i].Fin? {
        assert RoundsAt(f, s[i].r);
      }
    }
  }

  lemma LowestIsBelow(s: seq<Ext>, x: Ext)
    requires SomeBelow(s, x)
    ensures Clean(s) != [] && Leq(Lowest(Clean(s)), x)
  {
    hide Lowest, Clean;
    var i :| 0 <= i < |s| && Leq(s[i], x);
    assert s[i] in Clean(s);
    var j :| 0 <= j < |Clean(s)| && Clean(s)[j] == s[i];
  }

  lemma HighestIsAbove(s: seq<Ext>, x: Ext)
    requires SomeAbove(s, x)
    ensures Clean(s) != [] && Leq(x, Highest(Clean(s)))
  {
    hide Highest, Clean;
    var i :| 0 <= i < |s| && Leq(x, s[i]);
    assert s[i] in Clean(s);
    var j :| 0 <= j < |Clean(s)| && Clean(s)[j] == s[i];
  }

  /** The bounds of some floats are floats. */
  lemma EndsAreFloats(f: Format, s: seq<Ext>)
    requires IsFormat(f)
    ensures var clean := Clean(Rounded(f, s)); IsFloat(f, Lowest(clean)) && IsFloat(f, Highest(clean))
  {
    hide IsFormat, Lowest, Highest, Clean, Rounded;
    RoundedIsFloat(f, s);
  }

  /** What rounds to between some of the values, rounded, is in their hull. */
  lemma HullBounds(f: Format, s: seq<Ext>, nan: bool, t: Ext)
    requires IsFormat(f) && !t.NaN?
    requires AllNaN(s) || (SomeBelow(Rounded(f, s), Round(f, t)) && SomeAbove(Rounded(f, s), Round(f, t)))
    ensures Bounds(f, Hull(f, Rounded(f, s), nan), t)
  {
    hide IsFormat, Lowest, Highest, Clean, SomeBelow, SomeAbove, WidenLo, WidenHi;
    var results := Rounded(f, s);
    if AllNaN(s) {
      assert AllNaN(results);
    } else {
      LowestIsBelow(results, Round(f, t));
      HighestIsAbove(results, Round(f, t));
      EndsAreFloats(f, s);
      WidenedBoundsBelow(f, Lowest(Clean(results)), t);
      WidenedBoundsAbove(f, t, Highest(Clean(results)));
    }
  }

  lemma AllSame(s: seq<Ext>, x: Ext)
    requires s != [] && !x.NaN? && forall i | 0 <= i < |s| :: s[i] == x
    ensures Clean(s) != [] && Lowest(Clean(s)) == x && Highest(Clean(s)) == x
  {
    hide Lowest, Highest, Clean;
    var clean := Clean(s);
    assert s[0] in clean;
    assert forall y | y in clean :: y == x;
    assert clean[0] in clean;
    assert Leq(Lowest(clean), clean[0]) && Leq(clean[0], Highest(clean));
    assert Lowest(clean) == PosInf || Lowest(clean) in clean;
    assert Highest(clean) == NegInf || Highest(clean) in clean;
  }

  lemma RoundCorners(f: Format, s: seq<Ext>, t: Ext)
    requires IsFormat(f) && SomeBelow(s, t) && SomeAbove(s, t)
    ensures SomeBelow(Rounded(f, s), Round(f, t)) && SomeAbove(Rounded(f, s), Round(f, t))
  {
    hide IsFormat;
    var i :| 0 <= i < |s| && Leq(s[i], t);
    var j :| 0 <= j < |s| && Leq(t, s[j]);
    RoundIsMonotone(f, s[i], t);
    RoundIsMonotone(f, t, s[j]);
    assert Leq(Rounded(f, s)[i], Round(f, t)) && Leq(Round(f, t), Rounded(f, s)[j]);
  }

  /** Exact bounds hold of the rounding, if they are floats. */
  lemma BoundsRounded(f: Format, i: Interval, t: Ext)
    requires IsFormat(f) && Bounds(f, i, t) && IsFloat(f, i.lo) && IsFloat(f, i.hi)
    ensures Between(i.lo, Round(f, t), i.hi)
  {
    hide IsFormat;
    if Leq(i.lo, t) {
      RoundIsMonotone(f, i.lo, t);
    }
    if Leq(t, i.hi) {
      RoundIsMonotone(f, t, i.hi);
    }
  }

  lemma HullIsFloat(f: Format, s: seq<Ext>, nan: bool)
    requires IsFormat(f)
    ensures var h := Hull(f, Rounded(f, s), nan); IsFloat(f, h.lo) && IsFloat(f, h.hi)
  {
    var clean := Clean(Rounded(f, s));
    if clean != [] {
      var lo, hi := Lowest(clean), Highest(clean);
      assert lo.Fin? ==> RoundsAt(f, lo.r);
      assert hi.Fin? ==> RoundsAt(f, hi.r);
    }
  }

  /** A value rounding as the exact product of values within the bounds does is
      bounded, if the product is valid. */
  lemma MulBounds(f: Format, a: Interval, b: Interval, v: Ext, w: Ext, t: Ext)
    requires IsFormat(f) && Between(a.lo, v, a.hi) && Between(b.lo, w, b.hi)
    requires !Product(v, w).NaN? && !t.NaN? && Round(f, t) == Round(f, Product(v, w))
    ensures Bounds(f, Mul(f, a, b), t)
  {
    hide IsFormat, Product, Corners, AllNaN, SomeBelow, SomeAbove, Hull, Bounds, Round;
    var s := Corners(a, b);
    LowCorner(a, b, v, w);
    HighCorner(a, b, v, w);
    if !AllNaN(s) {
      RoundCorners(f, s, Product(v, w));
    }
    HullBounds(f, s, a.nan || b.nan || MayBeZeroTimesInfinity(a, b) || MayBeZeroTimesInfinity(b, a), t);
  }

  /** The rounded product of any two members is a member, NaN included. */
  lemma MulIsSound(f: Format, a: Interval, b: Interval, x: Ext, y: Ext)
    requires IsFormat(f) && Contains(a, x) && Contains(b, y)
    ensures Contains(Mul(f, a, b), Round(f, Product(x, y)))
  {
    hide IsFormat, Corners, Hull;
    var p := Product(x, y);
    var nan := a.nan || b.nan || MayBeZeroTimesInfinity(a, b) || MayBeZeroTimesInfinity(b, a);
    if p.NaN? {
      assert nan;
      HullKeepsNaN(f, Rounded(f, Corners(a, b)), nan);
    } else {
      MulBounds(f, a, b, x, y, p);
      HullIsFloat(f, Corners(a, b), nan);
      BoundsRounded(f, Mul(f, a, b), p);
      HullKeepsNaN(f, Rounded(f, Corners(a, b)), nan);
    }
  }

  lemma HullKeepsNaN(f: Format, results: seq<Ext>, nan: bool)
    ensures nan ==> Hull(f, results, nan).nan
    ensures !Hull(f, results, nan).nonzero
  {
  }

  // ----- quotients -----

  /** Every value a division can have: over zero, an infinity of either sign. */
  predicate Divides(f: Format, x: Ext, y: Ext, q: Ext) {
    if y == ZERO then
      if x.NaN? || x == ZERO then q.NaN? else q.PosInf? || q.NegInf?
    else q == Round(f, Product(x, Inverse(y)))
  }

  function Quotient(a: Ext, b: Ext): Ext {
    if b == ZERO then NaN else Product(a, Inverse(b))
  }

  function Div(f: Format, a: Interval, b: Interval): Interval {
    if IsBottom(a) || IsBottom(b) then TOP
    else
      var straddles := Leq(b.lo, ZERO) && Leq(ZERO, b.hi);
      var bothInf := (a.lo.NegInf? || a.hi.PosInf?) && (b.lo.NegInf? || b.hi.PosInf?);
      var nan := a.nan || b.nan || bothInf || (straddles && Leq(a.lo, ZERO) && Leq(ZERO, a.hi));
      if straddles then TOP.(nan := nan)
      else
        Hull(f, Rounded(f, [Quotient(a.lo, b.lo), Quotient(a.lo, b.hi), Quotient(a.hi, b.lo), Quotient(a.hi, b.hi)]),
             nan)
  }

  /** The inverses of the members. */
  function Inverses(b: Interval): Interval
    requires b.lo != ZERO && b.hi != ZERO
  {
    Interval(Inverse(b.hi), Inverse(b.lo), b.nan, b.nonzero)
  }

  lemma InverseIsAntitone(x: Ext, y: Ext)
    requires Leq(x, y) && (Less(ZERO, x) || Less(y, ZERO))
    ensures Leq(Inverse(y), Inverse(x))
    ensures Less(ZERO, x) ==> Leq(ZERO, Inverse(y))
    ensures Less(y, ZERO) ==> Leq(Inverse(x), ZERO)
  {
    if x.Fin? {
      InverseSign(x.r);
    }
    if y.Fin? {
      InverseSign(y.r);
    }
    if x.Fin? && y.Fin? {
      RealInverseIsAntitone(x.r, y.r);
    }
  }

  lemma InverseSign(x: real)
    requires x != 0.0
    ensures x > 0.0 <==> 1.0 / x > 0.0
  {
    var u := 1.0 / x;
    assert u * x == 1.0;
    if x > 0.0 && u <= 0.0 {
      TimesNonnegative(u, 0.0, x);
    } else if x < 0.0 && u >= 0.0 {
      TimesNonpositive(0.0, u, x);
    }
  }

  lemma RealInverseIsAntitone(x: real, y: real)
    requires x <= y && (x > 0.0 || y < 0.0)
    ensures 1.0 / y <= 1.0 / x
  {
    var u, v, c := 1.0 / x, 1.0 / y, Times(x, y);
    assert u * x == 1.0 && v * y == 1.0;
    SameSignProduct(x, y);
    assert Times(u, c) == u * (x * y) == (u * x) * y == y;
    assert Times(v, c) == v * (x * y) == (v * y) * x == x;
    CancelPositive(v, u, c);
  }

  lemma CancelPositive(a: real, b: real, c: real)
    requires c > 0.0 && Times(a, c) <= Times(b, c)
    ensures a <= b
  {
  }

  lemma SameSignProduct(x: real, y: real)
    requires (x > 0.0 && y > 0.0) || (x < 0.0 && y < 0.0)
    ensures Times(x, y) > 0.0
  {
    if x > 0.0 {
      TimesPositive(x, y);
    } else {
      TimesPositive(-x, -y);
      TimesNegated(x, y);
    }
  }

  /** Away from zero, dividing is multiplying by the inverse. */
  lemma DivCorners(a: Interval, b: Interval, q: Ext)
    requires b.lo != ZERO && b.hi != ZERO
    ensures var s := [Quotient(a.lo, b.lo), Quotient(a.lo, b.hi), Quotient(a.hi, b.lo), Quotient(a.hi, b.hi)];
            var c := Corners(a, Inverses(b));
            && (AllNaN(c) ==> AllNaN(s)) && (SomeBelow(c, q) ==> SomeBelow(s, q))
            && (SomeAbove(c, q) ==> SomeAbove(s, q))
  {
    hide Product, Inverse, Leq;
    var s := [Quotient(a.lo, b.lo), Quotient(a.lo, b.hi), Quotient(a.hi, b.lo), Quotient(a.hi, b.hi)];
    var c := Corners(a, Inverses(b));
    assert s == [c[1], c[0], c[3], c[2]];
    if AllNaN(c) {
      assert c[0].NaN? && c[1].NaN? && c[2].NaN? && c[3].NaN?;
    }
    if SomeBelow(c, q) {
      var i :| 0 <= i < |c| && Leq(c[i], q);
      assert Leq(s[if i % 2 == 0 then i + 1 else i - 1], q);
    }
    if SomeAbove(c, q) {
      var i :| 0 <= i < |c| && Leq(q, c[i]);
      assert Leq(q, s[if i % 2 == 0 then i + 1 else i - 1]);
    }
  }

  /** The exact quotient of values within the bounds, the divisors all of one
      sign, is bounded if it is valid. */
  lemma DivBounds(f: Format, a: Interval, b: Interval, x: Ext, y: Ext)
    requires IsFormat(f) && Between(a.lo, x, a.hi) && Between(b.lo, y, b.hi) && (Less(ZERO, b.lo) || Less(b.hi, ZERO))
    ensures y != ZERO
    ensures var p, q := Product(x, Inverse(y)), Div(f, a, b);
            !p.NaN? ==> Bounds(f, q, p) && Between(q.lo, Round(f, p), q.hi)
  {
    hide IsFormat, Hull, Product, Corners, Inverse, Quotient, AllNaN, SomeBelow, SomeAbove, Bounds, Round;
    var s := [Quotient(a.lo, b.lo), Quotient(a.lo, b.hi), Quotient(a.hi, b.lo), Quotient(a.hi, b.hi)];
    var p := Product(x, Inverse(y));
    if !p.NaN? {
      InverseIsAntitone(b.lo, y);
      InverseIsAntitone(y, b.hi);
      LowCorner(a, Inverses(b), x, Inverse(y));
      HighCorner(a, Inverses(b), x, Inverse(y));
      DivCorners(a, b, p);
      if !AllNaN(s) {
        RoundCorners(f, s, p);
      }
      var nan := Div(f, a, b).nan;
      var bothInf := (a.lo.NegInf? || a.hi.PosInf?) && (b.lo.NegInf? || b.hi.PosInf?);
      HullBounds(f, s, a.nan || b.nan || bothInf, p);
      HullIsFloat(f, s, a.nan || b.nan || bothInf);
      BoundsRounded(f, Div(f, a, b), p);
    }
  }

  /** A quotient away from zero is invalid only for two infinities. */
  lemma InvalidQuotient(x: Ext, y: Ext)
    requires !x.NaN? && !y.NaN? && y != ZERO
    ensures Product(x, Inverse(y)).NaN? <==> !x.Fin? && !y.Fin?
  {
    if y.Fin? {
      InverseSign(y.r);
    }
  }

  /** The quotient of any two members is a member, NaN included. */
  lemma DivIsSound(f: Format, a: Interval, b: Interval, x: Ext, y: Ext, q: Ext)
    requires IsFormat(f) && Contains(a, x) && Contains(b, y) && Divides(f, x, y, q)
    ensures Contains(Div(f, a, b), q)
  {
    hide IsFormat, Hull, Product, Quotient, Inverse;
    var s := [Quotient(a.lo, b.lo), Quotient(a.lo, b.hi), Quotient(a.hi, b.lo), Quotient(a.hi, b.hi)];
    var bothInf := (a.lo.NegInf? || a.hi.PosInf?) && (b.lo.NegInf? || b.hi.PosInf?);
    HullKeepsNaN(f, Rounded(f, s), a.nan || b.nan || bothInf);
    if x.NaN? || y.NaN? {
      NaNQuotient(f, x, y, q);
    } else if !(Leq(b.lo, ZERO) && Leq(ZERO, b.hi)) {
      InvalidQuotient(x, y);
      DivBounds(f, a, b, x, y);
      RoundKeepsNaN(f, Product(x, Inverse(y)));
    } else if y != ZERO {
      InvalidQuotient(x, y);
      RoundKeepsNaN(f, Product(x, Inverse(y)));
    }
  }

  lemma RoundKeepsNaN(f: Format, x: Ext)
    requires IsFormat(f)
    ensures Round(f, x).NaN? <==> x.NaN?
  {
    assert x.Fin? ==> RoundsAt(f, x.r);
  }

  lemma NaNQuotient(f: Format, x: Ext, y: Ext, q: Ext)
    requires (x.NaN? || y.NaN?) && Divides(f, x, y, q)
    ensures q.NaN?
  {
  }

  // ----- powers -----

  function RealPower(x: real, n: nat): real {
    if n == 0 then 1.0 else Times(RealPower(x, n - 1), x)
  }

  /** The exact power, for an exponent of one or more. */
  function Power(x: Ext, n: nat): Ext {
    match x
    case NaN => NaN
    case PosInf => PosInf
    case NegInf => if n % 2 == 0 then PosInf else NegInf
    case Fin(r) => Fin(RealPower(r, n))
  }

  /** The interval multiplied by itself, `n` factors in all. */
  function Powers(f: Format, base: Interval, n: nat): Interval {
    if n <= 1 then base else Mul(f, Powers(f, base, n - 1), base)
  }

  lemma {:induction false} SmallPowersStaySmall(x: real, n: nat)
    requires -1.0 <= x <= 1.0
    ensures -1.0 <= RealPower(x, n) <= 1.0
  {
    if n > 0 {
      SmallPowersStaySmall(x, n - 1);
      var p := RealPower(x, n - 1);
      SmallTimesSmall(p, x);
      assert RealPower(x, n) == Times(p, x) == p * x;
    }
  }

  lemma SmallTimesSmall(p: real, x: real)
    requires -1.0 <= p <= 1.0 && -1.0 <= x <= 1.0
    ensures -1.0 <= p * x <= 1.0
  {
    if x >= 0.0 {
      TimesFraction(p, x);
    } else {
      TimesFraction(p, -x);
      assert p * (-x) == -(p * x);
    }
  }

  lemma TimesFraction(p: real, x: real)
    requires -1.0 <= p <= 1.0 && 0.0 <= x <= 1.0
    ensures -1.0 <= p * x <= 1.0
  {
    NonnegativeProduct(p + 1.0, x);
    NonnegativeProduct(1.0 - p, x);
    assert (p + 1.0) * x == p * x + x && (1.0 - p) * x == x - p * x;
  }

  lemma NonnegativeProduct(a: real, b: real)
    requires a >= 0.0 && b >= 0.0
    ensures a * b >= 0.0
  {
  }

  lemma SmallPowersRound(f: Format, x: real, n: nat)
    requires IsFormat(f) && -1.0 <= x <= 1.0
    ensures f.round(RealPower(x, n)).Fin?
  {
    SmallPowersStaySmall(x, n);
    var v := RealPower(x, n);
    assert OrderedAt(f, -1.0, v) && OrderedAt(f, v, 1.0) && RoundsAt(f, 1.0);
  }

  /** A power that overflows has a base that only makes it grow. */
  lemma OverflowGrows(f: Format, v: real, x: real, n: nat)
    requires IsFormat(f) && v == RealPower(x, n) && !f.round(v).Fin?
    ensures x > 1.0 || x < -1.0
    ensures f.round(Times(v, x)) == Product(f.round(v), Fin(x))
  {
    hide RealPower;
    if -1.0 <= x <= 1.0 {
      SmallPowersRound(f, x, n);
    } else {
      FartherOverflows(f, v, x);
    }
  }

  lemma FartherOverflows(f: Format, v: real, x: real)
    requires IsFormat(f) && !f.round(v).Fin? && (x > 1.0 || x < -1.0)
    ensures f.round(Times(v, x)) == Product(f.round(v), Fin(x))
  {
    assert RoundsAt(f, v) && RoundsAt(f, v * x);
    assert OrderedAt(f, 0.0, v) && OrderedAt(f, v, 0.0);
    var t := v * x;
    if f.round(v).PosInf? {
      if x > 1.0 {
        TimesNonnegative(1.0, x, v);
        assert OrderedAt(f, v, t);
      } else {
        TimesNonnegative(x, -1.0, v);
        assert -1.0 * v == -v;
        assert OrderedAt(f, t, -v);
      }
    } else {
      if x > 1.0 {
        TimesNonpositive(1.0, x, v);
        assert OrderedAt(f, t, v);
      } else {
        TimesNonpositive(x, -1.0, v);
        assert -1.0 * v == -v;
        assert OrderedAt(f, -v, t);
      }
    }
  }

  lemma PowerStep(x: Ext, n: nat)
    requires n > 0 && !x.NaN?
    ensures !Power(x, n).NaN? && Product(Power(x, n), x) == Power(x, n + 1)
  {
    if x.Fin? {
      var v := RealPower(x.r, n);
      assert RealPower(x.r, n + 1) == Times(v, x.r) == v * x.r;
    }
  }

  /** Repeated multiplication bounds the exact powers of what the base bounds,
      up to overflows shared. */
  lemma {:induction false} PowersBound(f: Format, base: Interval, n: nat, w: Ext)
    requires IsFormat(f) && n > 0 && Between(base.lo, w, base.hi)
    ensures Bounds(f, Powers(f, base, n), Power(w, n))
    decreases n
  {
    hide IsFormat, Mul, Power, Product;
    if n == 1 {
      PowerOne(w);
    } else {
      PowersBound(f, base, n - 1, w);
      PowersBoundNext(f, base, Powers(f, base, n - 1), n - 1, w);
    }
  }

  lemma PowerOne(w: Ext)
    ensures Power(w, 1) == w
  {
    if w.Fin? {
      assert RealPower(w.r, 1) == RealPower(w.r, 0) * w.r == 1.0 * w.r;
    }
  }

  lemma PowersBoundNext(f: Format, base: Interval, acc: Interval, n: nat, w: Ext)
    requires IsFormat(f) && n > 0 && Between(base.lo, w, base.hi) && Bounds(f, acc, Power(w, n))
    ensures Bounds(f, Mul(f, acc, base), Power(w, n + 1))
  {
    hide IsFormat, Hull, Corners, Product, Power, RealPower, MayBeZeroTimesInfinity;
    var v, next := Power(w, n), Power(w, n + 1);
    PowerStep(w, n);
    PowerStep(w, n + 1);
    if Between(acc.lo, v, acc.hi) {
      MulBounds(f, acc, base, v, w, next);
    } else if !IsBottom(acc) && !IsBottom(base) {
      OverflowedPower(f, w, n);
      RoundKeepsNaN(f, v);
      MulBounds(f, acc, base, Round(f, v), w, next);
    }
  }

  /** An overflowed power times the base rounds as its overflow does. */
  lemma OverflowedPower(f: Format, w: Ext, n: nat)
    requires IsFormat(f) && n > 0 && !w.NaN?
    requires Power(w, n).Fin? && !Round(f, Power(w, n)).Fin?
    ensures w.Fin? && w != ZERO
    ensures var p := Product(Round(f, Power(w, n)), w);
            !p.NaN? && !p.Fin? && Round(f, Power(w, n + 1)) == p
  {
    var v := RealPower(w.r, n);
    OverflowGrows(f, v, w.r, n);
    var t := Times(v, w.r);
    assert RealPower(w.r, n + 1) == t;
    assert Power(w, n + 1) == Fin(t) && Round(f, Fin(t)) == f.round(t);
    assert RoundsAt(f, v);
  }

  predicate IsInteger(e: real) {
    e == e.Floor as real
  }

  function PositivePow(f: Format, a: Interval, n: nat): Interval {
    Powers(f, if n % 2 == 0 then Abs(a) else a, n).(nan := a.nan)
  }

  function NegativePow(f: Format, a: Interval, n: nat): Interval {
    var acc := Powers(f, a, n);
    var r := Div(f, Point(ONE), if n % 2 == 0 then Abs(acc) else acc);
    r.(nan := a.nan || r.nan)
  }

  /** Powers by a constant integer near zero are computed; the rest fall back. */
  function PowOf(f: Format, a: Interval, o: Interval): Interval {
    if !IsConstant(o) then TOP
    else
      var e := o.lo.r;
      if e == 0.0 then Point(ONE)
      else if e == 1.0 then a
      else if IsInteger(e) && 0.0 < e <= 64.0 then PositivePow(f, a, e.Floor)
      else if IsInteger(e) && -64.0 <= e < 0.0 then NegativePow(f, a, -e.Floor)
      else if IsNonneg(a) then Interval(ZERO, PosInf, a.nan, false)
      else TOP
  }

  /** `n` factors of the base, multiplied from the left. */
  method Multiplied(f: Format, base: Interval, n: nat) returns (acc: Interval)
    requires n > 0
    ensures acc == Powers(f, base, n)
  {
    hide Mul;
    acc := base;
    for k := 1 to n
      invariant acc == Powers(f, base, k)
    {
      acc := Mul(f, acc, base);
    }
  }

  method Pow(f: Format, a: Interval, o: Interval) returns (r: Interval)
    ensures r == PowOf(f, a, o)
  {
    hide Powers, Div, Abs;
    if !IsConstant(o) {
      return TOP;
    }
    var e := o.lo.r;
    if e == 0.0 {
      return Point(ONE);
    }
    if e == 1.0 {
      return a;
    }
    if IsInteger(e) && -64.0 <= e <= 64.0 {
      var n := e.Floor;
      if e > 0.0 {
        var acc := Multiplied(f, if n % 2 == 0 then Abs(a) else a, n);
        return acc.(nan := a.nan);
      }
      var acc := Multiplied(f, a, -n);
      r := Div(f, Point(ONE), if n % 2 == 0 then Abs(acc) else acc);
      return r.(nan := a.nan || r.nan);
    }
    if IsNonneg(a) {
      return Interval(ZERO, PosInf, a.nan, false);
    }
    r := TOP;
  }

  // ----- what a power can be -----

  /** The rounded power by an integer: one over zero may have either sign if the
      exponent is odd. */
  predicate IntegerPower(f: Format, x: Ext, n: int, p: Ext) {
    if n == 0 then p == ONE
    else if n > 0 then p == Round(f, Power(x, n))
    else if x == ZERO then p.PosInf? || (n % 2 != 0 && p.NegInf?)
    else Power(x, -n) != ZERO && p == Round(f, Inverse(Power(x, -n)))
  }

  /** The results of raising to a power: rounded for integers, the identity for
      one, never negative for a base that is not, unknown otherwise. */
  predicate PowerOf(f: Format, x: Ext, y: Ext, p: Ext) {
    && (y == ZERO ==> p == ONE)
    && (y == ONE ==> p == x)
    && (y.Fin? && y != ONE && IsInteger(y.r) ==> IntegerPower(f, x, y.r.Floor, p))
    && (y.Fin? && !IsInteger(y.r) && x.NaN? ==> p.NaN?)
    && (y.Fin? && !IsInteger(y.r) && Leq(ZERO, x) ==> Leq(ZERO, p))
  }

  predicate Overflowed(a: Interval) {
    (a.lo.PosInf? && a.hi.PosInf?) || (a.lo.NegInf? && a.hi.NegInf?)
  }

  /** The powers that leave the interval computed: a reciprocal whose power
      overflowed though the reciprocal is no more than next to zero, and minus
      infinity, from a negative zero, in the fallback. */
  predicate Escapes(f: Format, a: Interval, o: Interval, x: Ext, p: Ext) {
    && IsConstant(o) && IsInteger(o.lo.r)
    && (|| (-64.0 <= o.lo.r < 0.0 && x.Fin? && Overflowed(Powers(f, a, -o.lo.r.Floor))
            && !Between(f.down(0.0), p, f.up(0.0)))
        || (o.lo.r < -64.0 && IsNonneg(a) && p.NegInf?))
  }

  // ----- signs of powers -----

  lemma {:induction false} PowerOfNegation(x: real, n: nat)
    ensures RealPower(-x, n) == if n % 2 == 0 then RealPower(x, n) else -RealPower(x, n)
  {
    if n > 0 {
      PowerOfNegation(x, n - 1);
      var p := RealPower(x, n - 1);
      assert RealPower(x, n) == Times(p, x) == p * x;
      var q := RealPower(-x, n - 1);
      assert RealPower(-x, n) == Times(q, -x) == q * (-x);
      assert p * (-x) == -(p * x) && (-p) * (-x) == p * x;
    }
  }

  lemma {:induction false} PowerIsPositive(x: real, n: nat)
    requires x > 0.0
    ensures RealPower(x, n) > 0.0
  {
    if n > 0 {
      PowerIsPositive(x, n - 1);
      var p := RealPower(x, n - 1);
      assert RealPower(x, n) == Times(p, x) == p * x;
      TimesPositive(p, x);
    }
  }

  /** Powers of what is not zero are not zero, and even ones are positive. */
  lemma PowerSign(x: Ext, n: nat)
    requires n > 0 && !x.NaN? && x != ZERO
    ensures Power(x, n) != ZERO && !Power(x, n).NaN?
    ensures n % 2 == 0 || Less(ZERO, x) ==> Less(ZERO, Power(x, n))
    ensures n % 2 == 0 ==> Power(Magnitude(x), n) == Power(x, n)
  {
    if x.Fin? {
      if x.r > 0.0 {
        PowerIsPositive(x.r, n);
      } else {
        PowerIsPositive(-x.r, n);
        PowerOfNegation(x.r, n);
      }
    }
  }

  lemma {:induction false} PowerOfZero(n: nat)
    requires n > 0
    ensures Power(ZERO, n) == ZERO
  {
    assert RealPower(0.0, n) == Times(RealPower(0.0, n - 1), 0.0) == 0.0;
  }

  // ----- powers are sound, but for the escapes -----

  lemma AbsBetween(a: Interval, v: Ext)
    requires Between(a.lo, v, a.hi)
    ensures Between(Abs(a).lo, Magnitude(v), Abs(a).hi) && !IsBottom(Abs(a))
  {
    AbsIsSound(a.(nonzero := false), v);
  }

  lemma PowersAreFloats(f: Format, base: Interval, n: nat)
    requires IsFormat(f) && n > 1
    ensures IsFloat(f, Powers(f, base, n).lo) && IsFloat(f, Powers(f, base, n).hi) && !Powers(f, base, n).nonzero
  {
    hide IsFormat, Hull, Corners;
    var acc := Powers(f, base, n - 1);
    var nan := acc.nan || base.nan || MayBeZeroTimesInfinity(acc, base) || MayBeZeroTimesInfinity(base, acc);
    HullIsFloat(f, Corners(acc, base), nan);
    HullKeepsNaN(f, Rounded(f, Corners(acc, base)), nan);
  }

  /** Integer powers from two on are in the interval multiplied out. */
  lemma PositivePowIsSound(f: Format, a: Interval, n: nat, x: Ext)
    requires IsFormat(f) && Contains(a, x) && n > 1
    ensures Contains(PositivePow(f, a, n), Round(f, Power(x, n)))
  {
    hide IsFormat, Powers, Abs, RealPower;
    if !x.NaN? {
      var base := if n % 2 == 0 then Abs(a) else a;
      var w := if n % 2 == 0 then Magnitude(x) else x;
      AbsBetween(a, x);
      PowersBound(f, base, n, w);
      PowersAreFloats(f, base, n);
      BoundsRounded(f, Powers(f, base, n), Power(w, n));
      if x == ZERO {
        assert w == x;
      } else {
        PowerSign(x, n);
      }
      RoundKeepsNaN(f, Power(x, n));
    }
  }

  /** Zero is bounded only by what straddles it. */
  lemma ZeroIsBetween(f: Format, acc: Interval)
    requires IsFormat(f) && Bounds(f, acc, ZERO)
    ensures Between(acc.lo, ZERO, acc.hi)
  {
  }

  /** Over bounds that straddle zero every quotient is possible. */
  lemma DivOfStraddling(f: Format, b: Interval, p: Ext)
    requires Between(b.lo, ZERO, b.hi) || IsBottom(b)
    ensures !p.NaN? ==> Contains(Div(f, Point(ONE), b), p)
  {
  }

  /** Over an infinity there is only zero, widened. */
  lemma DivOfInfinity(f: Format, b: Interval)
    requires IsFormat(f) && Overflowed(b)
    ensures var r := Div(f, Point(ONE), b); r.lo == f.down(0.0) && r.hi == f.up(0.0) && !r.nonzero
  {
    hide Times, Clean, Lowest, Highest, Rounded;
    var s := [Quotient(ONE, b.lo), Quotient(ONE, b.hi), Quotient(ONE, b.lo), Quotient(ONE, b.hi)];
    OneOverInfinity(b.lo);
    OneOverInfinity(b.hi);
    AllSame(Rounded(f, s), ZERO);
  }

  lemma OneOverInfinity(x: Ext)
    requires !x.NaN? && !x.Fin?
    ensures Quotient(ONE, x) == ZERO
  {
    TimesZero(1.0);
  }

  /** One over a value that is not zero, from bounds on the value. */
  lemma Reciprocal(f: Format, b: Interval, v: Ext)
    requires IsFormat(f) && Between(b.lo, v, b.hi) && v != ZERO
    ensures Contains(Div(f, Point(ONE), b), Round(f, Inverse(v)))
  {
    hide IsFormat, Hull;
    var p := Round(f, Inverse(v));
    RoundKeepsNaN(f, Inverse(v));
    if Between(b.lo, ZERO, b.hi) {
      DivOfStraddling(f, b, p);
    } else {
      OneTimes(Inverse(v));
      DivBounds(f, Point(ONE), b, ONE, v);
      var s := [Quotient(ONE, b.lo), Quotient(ONE, b.hi), Quotient(ONE, b.lo), Quotient(ONE, b.hi)];
      HullKeepsNaN(f, Rounded(f, s), b.nan);
    }
  }

  lemma OneTimes(x: Ext)
    ensures Product(ONE, x) == x
  {
    assert x.Fin? ==> 1.0 * x.r == x.r;
  }

  /** The reciprocal of a power is found unless the power overflowed. */
  lemma ReciprocalOfPower(f: Format, acc: Interval, even: bool, v: Ext)
    requires IsFormat(f) && Bounds(f, acc, v) && !v.NaN? && v != ZERO && (even ==> Less(ZERO, v))
    ensures var p := Round(f, Inverse(v));
            Contains(Div(f, Point(ONE), if even then Abs(acc) else acc), p)
            <==> !(v.Fin? && Overflowed(acc) && !Between(f.down(0.0), p, f.up(0.0)))
  {
    hide IsFormat, Div, Inverse;
    var b := if even then Abs(acc) else acc;
    var p := Round(f, Inverse(v));
    InverseIsNumber(v);
    RoundKeepsNaN(f, Inverse(v));
    if Between(acc.lo, v, acc.hi) {
      AbsBetween(acc, v);
      Reciprocal(f, b, v);
    } else if IsBottom(acc) {
      assert even ==> Between(b.lo, ZERO, b.hi);
      DivOfStraddling(f, b, p);
    } else {
      assert Overflowed(acc) && v.Fin?;
      assert Overflowed(b);
      DivOfInfinity(f, b);
    }
  }

  lemma InverseIsNumber(v: Ext)
    requires v != ZERO && !v.NaN?
    ensures !Inverse(v).NaN?
  {
  }

  /** Negative integer powers are in the interval computed, but for escapes. */
  lemma NegativePowIsExact(f: Format, a: Interval, n: nat, x: Ext, p: Ext)
    requires IsFormat(f) && Contains(a, x) && n > 0 && IntegerPower(f, x, -(n as int), p)
    ensures Contains(NegativePow(f, a, n), p)
            <==> !(x.Fin? && Overflowed(Powers(f, a, n)) && !Between(f.down(0.0), p, f.up(0.0)))
  {
    hide IsFormat, Powers, Div, Abs, RealPower;
    var acc := Powers(f, a, n);
    if x.NaN? {
      assert p.NaN?;
    } else {
      PowersBound(f, a, n, x);
      if x == ZERO {
        PowerOfZero(n);
        ZeroIsBetween(f, acc);
        AbsBetween(acc, ZERO);
        DivOfStraddling(f, if n % 2 == 0 then Abs(acc) else acc, p);
      } else {
        PowerSign(x, n);
        ReciprocalOfPower(f, acc, n % 2 == 0, Power(x, n));
        InverseIsNumber(Power(x, n));
        RoundKeepsNaN(f, Inverse(Power(x, n)));
      }
    }
  }

  lemma IntegerPowerOfNonnegative(f: Format, x: Ext, n: int, p: Ext)
    requires IsFormat(f) && Leq(ZERO, x) && n != 0 && IntegerPower(f, x, n, p)
    ensures Leq(ZERO, p) <==> !p.NegInf?
    ensures p.NegInf? ==> n < 0
  {
    hide RealPower, Inverse;
    var m := if n > 0 then n else -n;
    if x == ZERO {
      PowerOfZero(m);
      RoundIsMonotone(f, ZERO, ZERO);
    } else {
      PowerSign(x, m);
      if n > 0 {
        RoundIsMonotone(f, ZERO, Power(x, m));
      } else {
        InverseIsAntitone(Power(x, m), Power(x, m));
        RoundIsMonotone(f, ZERO, Inverse(Power(x, m)));
      }
    }
  }

  /** A power of a member is in the interval exactly when it does not escape. */
  lemma PowIsExact(f: Format, a: Interval, o: Interval, x: Ext, y: Ext, p: Ext)
    requires IsFormat(f) && Contains(a, x) && Contains(o, y) && PowerOf(f, x, y, p)
    ensures Contains(PowOf(f, a, o), p) <==> !Escapes(f, a, o, x, p)
  {
    hide IsFormat, Powers, PositivePow, NegativePow, IntegerPower;
    if IsConstant(o) {
      var e := o.lo.r;
      assert y == Fin(e);
      if e == 0.0 || e == 1.0 {
      } else if IsInteger(e) && 0.0 < e <= 64.0 {
        PositiveIsPower(f, x, e.Floor, p);
        PositivePowIsSound(f, a, e.Floor, x);
      } else if IsInteger(e) && -64.0 <= e < 0.0 {
        NegativePowIsExact(f, a, -e.Floor, x, p);
      } else if IsNonneg(a) && !x.NaN? {
        if IsInteger(e) {
          IntegerPowerOfNonnegative(f, x, e.Floor, p);
        }
      }
    }
  }

  lemma PositiveIsPower(f: Format, x: Ext, n: int, p: Ext)
    requires n > 0 && IntegerPower(f, x, n, p)
    ensures p == Round(f, Power(x, n))
  {
  }

  // ----- the operands whose powers are sound -----

  predicate HoldsPow(f: Format, a: Interval, o: Interval, x: Ext, y: Ext, p: Ext) {
    Contains(a, x) && Contains(o, y) && PowerOf(f, x, y, p) ==> Contains(PowOf(f, a, o), p)
  }

  /** The bound nearest zero, of an interval to one side of it. */
  function Nearest(a: Interval): Ext {
    if Less(ZERO, a.lo) then a.lo else a.hi
  }

  /** A negative power near zero: the powers of the bounds do not overflow, or
      the largest reciprocal there is, of the finite bound nearest zero, is next
      to zero. */
  predicate ReciprocalIsSafe(f: Format, a: Interval, n: nat) {
    var m := Nearest(a);
    Overflowed(Powers(f, a, n)) && m.Fin? && Contains(a, m) && Power(m, n) != ZERO
    ==> Between(f.down(0.0), Round(f, Inverse(Power(m, n))), f.up(0.0))
  }

  /** The operands whose every power is in the interval computed: all but a
      constant negative integer below which a bound overflows, and a constant
      odd one past the last computed for a base that may be zero. */
  predicate PowIsSafe(f: Format, a: Interval, o: Interval) {
    IsConstant(o) && IsInteger(o.lo.r)
    ==> && (-64.0 <= o.lo.r < 0.0 ==> ReciprocalIsSafe(f, a, -o.lo.r.Floor))
        && (o.lo.r < -64.0 && o.lo.r.Floor % 2 != 0 ==> !(IsNonneg(a) && Contains(a, ZERO)))
  }

  lemma {:induction false} PowerGrows(x: real, y: real, n: nat)
    requires 0.0 < x <= y
    ensures 0.0 < RealPower(x, n) <= RealPower(y, n)
  {
    if n > 0 {
      PowerGrows(x, y, n - 1);
      var p, q := RealPower(x, n - 1), RealPower(y, n - 1);
      assert RealPower(x, n) == Times(p, x) && RealPower(y, n) == Times(q, y);
      TimesPositive(p, x);
      TimesNonnegative(p, q, x);
      TimesNonnegative(x, y, q);
    }
  }

  /** Farther from zero on one side, powers are farther from it. */
  lemma PowerOrder(x: Ext, y: Ext, n: nat)
    requires n > 0 && x.Fin? && y.Fin? && ((Less(ZERO, x) && Leq(x, y)) || (Less(x, ZERO) && Leq(y, x)))
    ensures Less(ZERO, x) || n % 2 == 0 ==> Less(ZERO, Power(x, n)) && Leq(Power(x, n), Power(y, n))
    ensures Less(x, ZERO) && n % 2 != 0 ==> Less(Power(x, n), ZERO) && Leq(Power(y, n), Power(x, n))
  {
    if x.r > 0.0 {
      PowerGrows(x.r, y.r, n);
    } else {
      PowerGrows(-x.r, -y.r, n);
      PowerOfNegation(-x.r, n);
      PowerOfNegation(-y.r, n);
      assert -(-x.r) == x.r && -(-y.r) == y.r;
    }
  }

  /** Reciprocals farther out lie between zero and those nearer. */
  lemma ReciprocalOrder(f: Format, v: Ext, w: Ext)
    requires IsFormat(f) && ((Less(ZERO, v) && Leq(v, w)) || (Less(v, ZERO) && Leq(w, v)))
    requires Between(f.down(0.0), Round(f, Inverse(v)), f.up(0.0))
    ensures Between(f.down(0.0), Round(f, Inverse(w)), f.up(0.0))
  {
    hide IsFormat, Inverse;
    NextToZero(f);
    if Less(ZERO, v) {
      InverseIsAntitone(v, w);
      RoundIsMonotone(f, ZERO, Inverse(w));
      RoundIsMonotone(f, Inverse(w), Inverse(v));
    } else {
      InverseIsAntitone(w, v);
      RoundIsMonotone(f, Inverse(w), ZERO);
      RoundIsMonotone(f, Inverse(v), Inverse(w));
    }
  }

  lemma NextToZero(f: Format)
    requires IsFormat(f)
    ensures Between(f.down(0.0), ZERO, f.up(0.0)) && Round(f, ZERO) == ZERO
  {
    assert RoundsAt(f, 0.0);
  }

  /** Bounds whose powers overflow keep zero out. */
  lemma OverflowedKeepsZeroOut(f: Format, a: Interval, n: nat)
    requires IsFormat(f) && n > 0 && Overflowed(Powers(f, a, n))
    ensures !Between(a.lo, ZERO, a.hi)
  {
    hide IsFormat, Powers, RealPower;
    if Between(a.lo, ZERO, a.hi) {
      PowersBound(f, a, n, ZERO);
      PowerOfZero(n);
      ZeroIsBetween(f, Powers(f, a, n));
    }
  }

  lemma NearestIsNearest(a: Interval, x: Ext)
    requires Contains(a, x) && x.Fin? && !Between(a.lo, ZERO, a.hi)
    ensures var m := Nearest(a);
            m.Fin? && Contains(a, m) && ((Less(ZERO, m) && Leq(m, x)) || (Less(m, ZERO) && Leq(x, m)))
  {
  }

  /** Where the nearest reciprocal is next to zero, all of them are. */
  lemma ReciprocalsAreSafe(f: Format, a: Interval, n: nat, x: Ext)
    requires IsFormat(f) && n > 0 && ReciprocalIsSafe(f, a, n) && Overflowed(Powers(f, a, n))
    requires Contains(a, x) && x.Fin?
    ensures x != ZERO && Power(x, n) != ZERO && Between(f.down(0.0), Round(f, Inverse(Power(x, n))), f.up(0.0))
  {
    hide IsFormat, Powers, Power, Inverse, Overflowed;
    OverflowedKeepsZeroOut(f, a, n);
    NearestIsNearest(a, x);
    var m := Nearest(a);
    PowerSign(m, n);
    PowerSign(x, n);
    PowerOrder(m, x, n);
    ReciprocalOrder(f, Power(m, n), Power(x, n));
  }

  lemma NegativeZeroOnly(f: Format, x: Ext, n: int)
    requires IsFormat(f) && Leq(ZERO, x) && n < 0 && IntegerPower(f, x, n, NegInf)
    ensures x == ZERO && n % 2 != 0
  {
    hide IsFormat, RealPower, Inverse;
    if x != ZERO {
      PowerSign(x, -n);
      InverseIsAntitone(Power(x, -n), Power(x, -n));
      NextToZero(f);
      RoundIsMonotone(f, ZERO, Inverse(Power(x, -n)));
    }
  }

  /** No power of safe operands escapes. */
  lemma SafePowersHold(f: Format, a: Interval, o: Interval, x: Ext, y: Ext, p: Ext)
    requires IsFormat(f) && PowIsSafe(f, a, o) && Contains(a, x) && Contains(o, y) && PowerOf(f, x, y, p)
    ensures Contains(PowOf(f, a, o), p)
  {
    hide IsFormat, PowOf, Powers, Power, Overflowed, ReciprocalIsSafe, Inverse;
    PowIsExact(f, a, o, x, y, p);
    if Escapes(f, a, o, x, p) {
      var e := o.lo.r;
      if -64.0 <= e < 0.0 {
        ReciprocalsAreSafe(f, a, -e.Floor, x);
      } else {
        NegativeZeroOnly(f, x, e.Floor);
      }
    }
  }

  /** Operands that are not safe have a power that escapes. */
  lemma UnsafePowersEscape(f: Format, a: Interval, o: Interval) returns (x: Ext, y: Ext, p: Ext)
    requires IsFormat(f) && !PowIsSafe(f, a, o)
    ensures !HoldsPow(f, a, o, x, y, p)
  {
    hide IsFormat, PowOf, Powers, Power, Overflowed, Inverse;
    var e := o.lo.r;
    y := o.lo;
    if -64.0 <= e < 0.0 {
      var n := -e.Floor;
      x := Nearest(a);
      p := Round(f, Inverse(Power(x, n)));
      OverflowedKeepsZeroOut(f, a, n);
    } else {
      x, p := ZERO, NegInf;
    }
    PowIsExact(f, a, o, x, y, p);
  }

  /** Every power of members is in the interval computed if and only if the
      operands are safe. */
  lemma PowIsSoundExactly(f: Format, a: Interval, o: Interval)
    requires IsFormat(f)
    ensures (forall x, y, p :: HoldsPow(f, a, o, x, y, p)) <==> PowIsSafe(f, a, o)
  {
    hide IsFormat, PowOf, PowIsSafe, PowerOf;
    if PowIsSafe(f, a, o) {
      forall x, y, p
        ensures HoldsPow(f, a, o, x, y, p)
      {
        if Contains(a, x) && Contains(o, y) && PowerOf(f, x, y, p) {
          SafePowersHold(f, a, o, x, y, p);
        }
      }
    } else {
      var x, y, p := UnsafePowersEscape(f, a, o);
    }
  }

  // ----- escapes -----

  lemma PowerTwo(x: real)
    ensures Power(Fin(x), 2) == Fin(Times(x, x))
  {
    PowerOne(Fin(x));
    assert RealPower(x, 2) == Times(RealPower(x, 1), x);
  }

  lemma SquareOverflows(f: Format, x: real)
    requires f.round(Times(x, x)).PosInf?
    ensures Overflowed(Powers(f, Point(Fin(x)), 2))
  {
    hide Times;
    var a := Point(Fin(x));
    assert Powers(f, a, 1) == a;
    var c := Corners(a, a);
    var s := Fin(Times(x, x));
    assert c == [s, s, s, s];
    AllSame(Rounded(f, c), PosInf);
  }

  /** In every format, a float whose square overflows while one over the square
      is more than next to zero is missed by the power -2 of its own point. With
      doubles it is 2^512: its square is past the largest double, and 2^-1024 is
      far above the least. */
  lemma SquareEscapes(f: Format, x: real)
    requires IsFormat(f) && x != 0.0 && Times(x, x) != 0.0
    requires f.round(Times(x, x)).PosInf? && Less(f.up(0.0), f.round(1.0 / Times(x, x)))
    ensures PowerOf(f, Fin(x), Fin(-2.0), f.round(1.0 / Times(x, x)))
    ensures !Contains(PowOf(f, Point(Fin(x)), Point(Fin(-2.0))), f.round(1.0 / Times(x, x)))
  {
    hide IsFormat, PowOf, Powers, Times, RealPower;
    var p := f.round(1.0 / Times(x, x));
    PowerTwo(x);
    SquareOverflows(f, x);
    PowIsExact(f, Point(Fin(x)), Point(Fin(-2.0)), Fin(x), Fin(-2.0), p);
  }

  /** Sixteenths up to three, rounding toward zero. */
  function Sixteenths(n: int): Ext {
    if n > 48 then PosInf else if n < -48 then NegInf else Fin(n as real / 16.0)
  }

  function Truncated(a: real): Ext {
    if a >= 0.0 then Sixteenths((a * 16.0).Floor) else Negated(Sixteenths((-a * 16.0).Floor))
  }

  function Under(a: real): Ext {
    var n := (a * 16.0).Floor - 1;
    Sixteenths(if n > 48 then 48 else n)
  }

  function Over(a: real): Ext {
    var n := (a * 16.0).Floor + 1;
    Sixteenths(if n < -48 then -48 else n)
  }

  const GRID := Format(Truncated, Under, Over)

  lemma SixteenthsAreFloats(n: int)
    ensures IsFloat(GRID, Sixteenths(n))
  {
    if -48 <= n <= 48 {
      var a := n as real / 16.0;
      assert a * 16.0 == n as real && -a * 16.0 == (-n) as real;
    }
  }

  lemma GridRounds(a: real)
    ensures RoundsAt(GRID, a)
  {
    var n := (a * 16.0).Floor;
    SixteenthsAreFloats(n);
    SixteenthsAreFloats((-a * 16.0).Floor);
    SixteenthsAreFloats(-(-a * 16.0).Floor);
    SixteenthsAreFloats(if n - 1 > 48 then 48 else n - 1);
    SixteenthsAreFloats(if n + 1 < -48 then -48 else n + 1);
    GridNeighbours(a);
  }

  lemma GridNeighbours(a: real)
    ensures Leq(Under(a), Fin(a)) && Leq(Fin(a), Over(a)) && Truncated(-a) == Negated(Truncated(a))
    ensures Truncated(a).Fin? ==> Leq(Under(Truncated(a).r), Fin(a)) && Leq(Fin(a), Over(Truncated(a).r))
  {
    if Truncated(a).Fin? {
      var t := Truncated(a).r;
      var k := if a >= 0.0 then (a * 16.0).Floor else -(-a * 16.0).Floor;
      assert t * 16.0 == k as real;
    }
  }

  lemma GridOrders(a: real, b: real)
    ensures OrderedAt(GRID, a, b)
  {
    if 0.0 <= a <= b {
      assert (a * 16.0).Floor <= (b * 16.0).Floor;
    } else if a <= b < 0.0 {
      assert (-b * 16.0).Floor <= (-a * 16.0).Floor;
    } else if a < 0.0 <= b {
      assert (-a * 16.0).Floor >= 0 && (b * 16.0).Floor >= 0;
    }
  }

  lemma GridIsFormat()
    ensures IsFormat(GRID)
  {
    forall a
      ensures RoundsAt(GRID, a)
    {
      GridRounds(a);
    }
    forall a, b
      ensures OrderedAt(GRID, a, b)
    {
      GridOrders(a, b);
    }
  }

  /** Two squared is out of range there, and a quarter more than next to zero. */
  lemma ReciprocalEscapes()
    ensures IsFormat(GRID)
    ensures PowerOf(GRID, Fin(2.0), Fin(-2.0), Fin(0.25))
    ensures !Contains(PowOf(GRID, Point(Fin(2.0)), Point(Fin(-2.0))), Fin(0.25))
  {
    hide PowOf, PowerOf, IsFormat;
    GridIsFormat();
    assert Times(2.0, 2.0) == 4.0 && Truncated(4.0) == PosInf && Truncated(0.25) == Fin(0.25);
    assert Over(0.0) == Fin(1.0 / 16.0);
    SquareEscapes(GRID, 2.0);
  }

  /** A negative zero to a large odd negative power is minus infinity, which the
      fallback for bases not below zero leaves out, in any format. */
  lemma NegativeZeroEscapes(f: Format)
    requires IsFormat(f)
    ensures PowerOf(f, ZERO, Fin(-65.0), NegInf)
    ensures !Contains(PowOf(f, Point(ZERO), Point(Fin(-65.0))), NegInf)
  {
    hide IsFormat, NegativePow, PositivePow;
  }

  // ----- minimum and maximum -----

  function Min(a: Interval, b: Interval): Interval {
    Interval(Smaller(a.lo, b.lo), Smaller(a.hi, b.hi), a.nan && b.nan, a.nonzero && b.nonzero)
  }

  function Max(a: Interval, b: Interval): Interval {
    Interval(Larger(a.lo, b.lo), Larger(a.hi, b.hi), a.nan && b.nan, a.nonzero && b.nonzero)
  }

  predicate HoldsMin(a: Interval, b: Interval, x: Ext, y: Ext) {
    Contains(a, x) && Contains(b, y) ==> Contains(Min(a, b), Smaller(x, y))
  }

  predicate HoldsMax(a: Interval, b: Interval, x: Ext, y: Ext) {
    Contains(a, x) && Contains(b, y) ==> Contains(Max(a, b), Larger(x, y))
  }

  /** Some number is a member. */
  predicate HasNumber(i: Interval) {
    Leq(i.lo, i.hi) && !(i.nonzero && i.lo == ZERO == i.hi)
  }

  /** Where an operand may be NaN the other one comes through whole, so it must
      have no number past the bound of the first. */
  predicate MinIsSafe(a: Interval, b: Interval) {
    && (a.nan && HasNumber(b) ==> !Less(a.hi, b.hi))
    && (b.nan && HasNumber(a) ==> !Less(b.hi, a.hi))
  }

  predicate MaxIsSafe(a: Interval, b: Interval) {
    && (a.nan && HasNumber(b) ==> !Less(b.lo, a.lo))
    && (b.nan && HasNumber(a) ==> !Less(a.lo, b.lo))
  }

  /** A member past a bound below the upper end. */
  lemma MemberAbove(i: Interval, bound: Ext) returns (x: Ext)
    requires HasNumber(i) && Less(bound, i.hi)
    ensures Contains(i, x) && Less(bound, x)
  {
    x := i.hi;
    if i.nonzero && x == ZERO {
      var least := Larger(i.lo, bound);
      x := Fin(if least.Fin? then least.r / 2.0 else -1.0);
    }
  }

  lemma MemberBelow(i: Interval, bound: Ext) returns (x: Ext)
    requires HasNumber(i) && Less(i.lo, bound)
    ensures Contains(i, x) && Less(x, bound)
  {
    x := i.lo;
    if i.nonzero && x == ZERO {
      var most := Smaller(i.hi, bound);
      x := Fin(if most.Fin? then most.r / 2.0 else 1.0);
    }
  }

  lemma MinIsSound(a: Interval, b: Interval, x: Ext, y: Ext)
    requires MinIsSafe(a, b) && Contains(a, x) && Contains(b, y)
    ensures Contains(Min(a, b), Smaller(x, y))
  {
  }

  lemma MaxIsSound(a: Interval, b: Interval, x: Ext, y: Ext)
    requires MaxIsSafe(a, b) && Contains(a, x) && Contains(b, y)
    ensures Contains(Max(a, b), Larger(x, y))
  {
  }

  /** The minimum of any two members is a member if and only if the operands are
      safe, whatever the intervals. */
  lemma MinIsSoundExactly(a: Interval, b: Interval)
    ensures (forall x, y :: HoldsMin(a, b, x, y)) <==> MinIsSafe(a, b)
  {
    if MinIsSafe(a, b) {
      forall x, y
        ensures HoldsMin(a, b, x, y)
      {
        if Contains(a, x) && Contains(b, y) {
          MinIsSound(a, b, x, y);
        }
      }
    } else if a.nan && HasNumber(b) && Less(a.hi, b.hi) {
      var y := MemberAbove(b, a.hi);
      assert !HoldsMin(a, b, NaN, y);
    } else {
      var x := MemberAbove(a, b.hi);
      assert !HoldsMin(a, b, x, NaN);
    }
  }

  lemma MaxIsSoundExactly(a: Interval, b: Interval)
    ensures (forall x, y :: HoldsMax(a, b, x, y)) <==> MaxIsSafe(a, b)
  {
    if MaxIsSafe(a, b) {
      forall x, y
        ensures HoldsMax(a, b, x, y)
      {
        if Contains(a, x) && Contains(b, y) {
          MaxIsSound(a, b, x, y);
        }
      }
    } else if a.nan && HasNumber(b) && Less(b.lo, a.lo) {
      var y := MemberBelow(b, a.lo);
      assert !HoldsMax(a, b, NaN, y);
    } else {
      var x := MemberBelow(a, b.lo);
      assert !HoldsMax(a, b, x, NaN);
    }
  }

  /** The plainest failure: a NaN literal beside any other literal. */
  lemma NaNLiteralEscapes(y: Ext)
    requires !y.NaN?
    ensures Contains(Point(NaN), NaN) && Contains(Point(y), y) && Smaller(NaN, y) == y == Larger(NaN, y)
    ensures Contains(Min(Point(NaN), Point(y)), y) <==> y.NegInf?
    ensures Contains(Max(Point(NaN), Point(y)), y) <==> y.PosInf?
  {
  }
}
