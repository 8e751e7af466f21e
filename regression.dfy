/**
  Ordinary least squares through the touch points, as `scipy.stats.linregress`
  computes it: slope = Σ(x−x̄)(y−ȳ) / Σ(x−x̄)², intercept = ȳ − slope·x̄, where
  x is a touch's index and y its high. The x's are strictly increasing, so
  the spread Σ(x−x̄)² is positive and the division is defined.
 */
module Regression {
  import opened Series
  import opened Stats

  datatype Line = Line(slope: real, intercept: real)

  /** The value of a line at position x. */
  function At(l: Line, x: real): real
  {
    l.slope * x + l.intercept
  }

  function X(p: Touch): real
  {
    p.index as real
  }

  predicate Ascending(t: seq<Touch>)
  {
    forall j, k :: 0 <= j < k < |t| ==> t[j].index < t[k].index
  }

  function Xs(t: seq<Touch>): seq<real>
  {
    seq(|t|, i requires 0 <= i < |t| => X(t[i]))
  }

  function Ys(t: seq<Touch>): seq<real>
  {
    seq(|t|, i requires 0 <= i < |t| => t[i].high)
  }

  /** The offset of v from a centre m. */
  function Dev(v: real, m: real): real
  {
    v - m
  }

  /** The terms of Σ (x − mx)². */
  function SqDevs(t: seq<Touch>, mx: real): seq<real>
  {
    seq(|t|, i requires 0 <= i < |t| => Sq(Dev(X(t[i]), mx)))
  }

  /** The terms of Σ (x − mx)(y − my). */
  function CrossDevs(t: seq<Touch>, mx: real, my: real): seq<real>
  {
    seq(|t|, i requires 0 <= i < |t| => Dev(X(t[i]), mx) * Dev(t[i].high, my))
  }

  /** How far a point lies above the line y = a·x + b. */
  function Residual(p: Touch, a: real, b: real): real
  {
    p.high - (a * X(p) + b)
  }

  function Residuals(t: seq<Touch>, a: real, b: real): seq<real>
  {
    seq(|t|, i requires 0 <= i < |t| => Residual(t[i], a, b))
  }

  /** The residuals weighted by the offset of x from m. */
  function Moments(t: seq<Touch>, m: real, a: real, b: real): seq<real>
  {
    seq(|t|, i requires 0 <= i < |t| => Dev(X(t[i]), m) * Residual(t[i], a, b))
  }

  function SquaredErrors(t: seq<Touch>, a: real, b: real): seq<real>
  {
    seq(|t|, i requires 0 <= i < |t| => Residual(t[i], a, b) * Residual(t[i], a, b))
  }

  /** The squared error of the line y = a·x + b over the touches. */
  function SquaredError(t: seq<Touch>, a: real, b: real): real
  {
    Sum(SquaredErrors(t, a, b))
  }

  /** `linregress(x, y)`: the slope and intercept of the least-squares line. */
  function Fit(t: seq<Touch>): Line
    requires |t| >= 2 && Ascending(t)
  {
    var n := |t| as real;
    var mx := Sum(Xs(t)) / n;
    var my := Sum(Ys(t)) / n;
    SpreadPositive(t, mx);
    LineFromMoments(mx, my, Sum(CrossDevs(t, mx, my)), Sum(SqDevs(t, mx)))
  }

  /** The least-squares line from the means and the centred sums: slope = cross / spread, through (mx, my). */
  function LineFromMoments(mx: real, my: real, cross: real, spread: real): Line
    requires spread > 0.0
  {
    var slope := cross / spread;
    Line(slope, my - slope * mx)
  }

  /** Two distinct x's cannot both equal m, so the spread about m is positive. */
  lemma SpreadPositive(t: seq<Touch>, m: real)
    requires |t| >= 2 && Ascending(t)
    ensures Sum(SqDevs(t, m)) > 0.0
  {
    SqDevsNonNegative(t, m);
    var k := if X(t[0]) != m then 0 else 1;
    assert t[0].index < t[1].index;
    SqDevPositive(t, m, k);
    SumPositive(SqDevs(t, m), k);
  }

  lemma SqDevPositive(t: seq<Touch>, m: real, k: nat)
    requires k < |t| && X(t[k]) != m
    ensures SqDevs(t, m)[k] > 0.0
  {
    Square(Dev(X(t[k]), m));
  }

  lemma SqDevsNonNegative(t: seq<Touch>, m: real)
    ensures forall i :: 0 <= i < |t| ==> SqDevs(t, m)[i] >= 0.0
  {
    forall i | 0 <= i < |t|
      ensures SqDevs(t, m)[i] >= 0.0
    {
      Square(Dev(X(t[i]), m));
    }
  }

  function Sq(x: real): real
  {
    x * x
  }

  /** A square is never negative, and positive for a nonzero number. */
  lemma Square(x: real)
    ensures Sq(x) >= 0.0
    ensures x != 0.0 ==> Sq(x) > 0.0
  {
    calc {
      Sq(x);
      x * x;
    >=
      0.0;
    }
    if x != 0.0 {
      calc {
        Sq(x);
        x * x;
      >
        0.0;
      }
    }
  }

  /** Σ r = Σ y − a·Σ x − n·b. */
  lemma ResidualSum(t: seq<Touch>, a: real, b: real)
    ensures Sum(Residuals(t, a, b)) == Sum(Ys(t)) - a * Sum(Xs(t)) - (|t| as real) * b
  {
    SumLineOffsets(Residuals(t, a, b), Ys(t), Xs(t), a, b);
  }

  /** For a line through (mx, my): Σ (x − mx)·r = Σ (x − mx)(y − my) − a·Σ (x − mx)². */
  lemma CentredMoment(t: seq<Touch>, mx: real, my: real, a: real, b: real)
    requires b == my - a * mx
    ensures Sum(Moments(t, mx, a, b)) == Sum(CrossDevs(t, mx, my)) - a * Sum(SqDevs(t, mx))
  {
    var w, u, v := Moments(t, mx, a, b), CrossDevs(t, mx, my), SqDevs(t, mx);
    CentredMomentTerms(t, mx, my, a, b);
    assert forall i :: 0 <= i < |w| ==> w[i] == u[i] - a * v[i];
    SumScaledDifference(w, u, v, a);
  }

  lemma CentredMomentTerms(t: seq<Touch>, mx: real, my: real, a: real, b: real)
    requires b == my - a * mx
    ensures forall i :: 0 <= i < |t| ==> Moments(t, mx, a, b)[i] == CrossDevs(t, mx, my)[i] - a * SqDevs(t, mx)[i]
  {
    forall i | 0 <= i < |t|
      ensures Moments(t, mx, a, b)[i] == CrossDevs(t, mx, my)[i] - a * SqDevs(t, mx)[i]
    {
      CentredMomentTerm(t, mx, my, a, b, i);
    }
  }

  lemma CentredMomentTerm(t: seq<Touch>, mx: real, my: real, a: real, b: real, i: nat)
    requires b == my - a * mx && i < |t|
    ensures Moments(t, mx, a, b)[i] == CrossDevs(t, mx, my)[i] - a * SqDevs(t, mx)[i]
  {
    var x, y := X(t[i]), t[i].high;
    CentredResidual(x, y, mx, my, a, b);
    CentredTerm(Dev(x, mx), Dev(y, my), Residual(t[i], a, b), a);
  }

  lemma CentredResidual(x: real, y: real, mx: real, my: real, a: real, b: real)
    requires b == my - a * mx
    ensures y - (a * x + b) == Dev(y, my) - a * Dev(x, mx)
  {
  }

  lemma CentredTerm(dx: real, dy: real, r: real, a: real)
    requires r == dy - a * dx
    ensures dx * r == dx * dy - a * Sq(dx)
  {
  }

  /** Moving the weighting point from m to 0 adds m·Σ r. */
  lemma MomentShift(t: seq<Touch>, m: real, a: real, b: real)
    ensures Sum(Moments(t, 0.0, a, b)) == Sum(Moments(t, m, a, b)) + m * Sum(Residuals(t, a, b))
  {
    MomentShiftTerms(t, m, a, b);
    SumAffine(Moments(t, 0.0, a, b), Moments(t, m, a, b), Residuals(t, a, b), m, 0.0);
  }

  lemma MomentShiftTerms(t: seq<Touch>, m: real, a: real, b: real)
    ensures forall i :: 0 <= i < |t| ==>
      Moments(t, 0.0, a, b)[i] == Moments(t, m, a, b)[i] + m * Residuals(t, a, b)[i] + 0.0
  {
    forall i | 0 <= i < |t|
      ensures Moments(t, 0.0, a, b)[i] == Moments(t, m, a, b)[i] + m * Residuals(t, a, b)[i] + 0.0
    {
      ShiftTerm(Dev(X(t[i]), 0.0), Dev(X(t[i]), m), Residual(t[i], a, b), m);
    }
  }

  lemma ShiftTerm(d0: real, dm: real, r: real, m: real)
    requires d0 == dm + m
    ensures d0 * r == dm * r + m * r + 0.0
  {
  }

  /** The line `LineFromMoments` builds passes through (mx, my) and its slope times the spread is the cross sum. */
  lemma MomentLine(mx: real, my: real, cross: real, spread: real)
    requires spread > 0.0
    ensures LineFromMoments(mx, my, cross, spread).intercept == my - LineFromMoments(mx, my, cross, spread).slope * mx
    ensures LineFromMoments(mx, my, cross, spread).slope * spread == cross
  {
  }

  /**
    The fitted line satisfies the normal equations of least squares: its
    residuals sum to zero and are uncorrelated with x (Σ r = 0, Σ x·r = 0).
   */
  lemma FitNormalEquations(t: seq<Touch>)
    requires |t| >= 2 && Ascending(t)
    ensures Sum(Residuals(t, Fit(t).slope, Fit(t).intercept)) == 0.0
    ensures Sum(Moments(t, 0.0, Fit(t).slope, Fit(t).intercept)) == 0.0
  {
    var n := |t| as real;
    var mx, my := Sum(Xs(t)) / n, Sum(Ys(t)) / n;
    var a, b := Fit(t).slope, Fit(t).intercept;
    SpreadPositive(t, mx);
    MomentLine(mx, my, Sum(CrossDevs(t, mx, my)), Sum(SqDevs(t, mx)));
    ResidualSum(t, a, b);
    ThroughMeans(n, Sum(Ys(t)), Sum(Xs(t)), a, b);
    CentredMoment(t, mx, my, a, b);
    MomentShift(t, mx, a, b);
    ZeroProduct(mx, Sum(Residuals(t, a, b)));
  }

  /** A line through the means (x̄ = sx/n, ȳ = sy/n) has residuals summing to zero. */
  lemma ThroughMeans(n: real, sy: real, sx: real, a: real, b: real)
    requires n > 0.0 && b == sy / n - a * (sx / n)
    ensures sy - a * sx - n * b == 0.0
  {
    assert n * (sy / n) == sy;
    assert n * (a * (sx / n)) == a * sx;
  }

  lemma ZeroProduct(x: real, y: real)
    requires y == 0.0
    ensures x * y == 0.0
  {
  }

  /** The weight of Σ x·r (or Σ r) in the squared error of a line whose slope (or intercept) moves from `from` to `to`. */
  function Shift(to: real, from: real): real
  {
    -2.0 * (to - from)
  }

  /** The fitted line has the least squared error of all lines through the touches. */
  lemma FitIsLeastSquares(t: seq<Touch>, a': real, b': real)
    requires |t| >= 2 && Ascending(t)
    ensures SquaredError(t, Fit(t).slope, Fit(t).intercept) <= SquaredError(t, a', b')
  {
    var a, b := Fit(t).slope, Fit(t).intercept;
    FitNormalEquations(t);
    ErrorExpansion(t, a, b, a', b');
    ZeroProduct(Shift(a', a), Sum(Moments(t, 0.0, a, b)));
    ZeroProduct(Shift(b', b), Sum(Residuals(t, a, b)));
  }

  /** Moving from (a, b) to (a', b') changes the squared error by at least Shift(a', a)·Σ x·r + Shift(b', b)·Σ r. */
  lemma ErrorExpansion(t: seq<Touch>, a: real, b: real, a': real, b': real)
    ensures Sum(SquaredErrors(t, a', b')) >= Sum(SquaredErrors(t, a, b)) + Shift(a', a) * Sum(Moments(t, 0.0, a, b))
                                               + Shift(b', b) * Sum(Residuals(t, a, b))
  {
    ExpansionTerms(t, a, b, a', b');
    SumDominates(SquaredErrors(t, a', b'), SquaredErrors(t, a, b), Moments(t, 0.0, a, b), Residuals(t, a, b),
                 Shift(a', a), Shift(b', b));
  }

  lemma ExpansionTerms(t: seq<Touch>, a: real, b: real, a': real, b': real)
    ensures forall i :: 0 <= i < |t| ==>
      SquaredErrors(t, a', b')[i] >= SquaredErrors(t, a, b)[i] + Shift(a', a) * Moments(t, 0.0, a, b)[i]
                                     + Shift(b', b) * Residuals(t, a, b)[i]
  {
    forall i | 0 <= i < |t|
      ensures SquaredErrors(t, a', b')[i] >= SquaredErrors(t, a, b)[i] + Shift(a', a) * Moments(t, 0.0, a, b)[i]
                                             + Shift(b', b) * Residuals(t, a, b)[i]
    {
      ExpansionAt(t, a, b, a', b', i);
    }
  }

  lemma ExpansionAt(t: seq<Touch>, a: real, b: real, a': real, b': real, i: nat)
    requires i < |t|
    ensures SquaredErrors(t, a', b')[i] >= SquaredErrors(t, a, b)[i] + Shift(a', a) * Moments(t, 0.0, a, b)[i]
                                           + Shift(b', b) * Residuals(t, a, b)[i]
  {
    var x, h := X(t[i]), t[i].high;
    assert SquaredErrors(t, a', b')[i] == (h - (a' * x + b')) * (h - (a' * x + b'));
    assert SquaredErrors(t, a, b)[i] == (h - (a * x + b)) * (h - (a * x + b));
    assert Moments(t, 0.0, a, b)[i] == Dev(x, 0.0) * (h - (a * x + b));
    assert Residuals(t, a, b)[i] == h - (a * x + b);
    ExpansionTerm(h, x, a, b, a', b', Shift(a', a), Shift(b', b));
  }

  /** (h − (a'x + b'))² ≥ (h − (ax + b))² + p·x·r + q·r for r = h − (ax + b), p = −2(a' − a), q = −2(b' − b). */
  lemma ExpansionTerm(h: real, x: real, a: real, b: real, a': real, b': real, p: real, q: real)
    requires p == -2.0 * (a' - a) && q == -2.0 * (b' - b)
    ensures (h - (a' * x + b')) * (h - (a' * x + b'))
         >= (h - (a * x + b)) * (h - (a * x + b)) + p * (Dev(x, 0.0) * (h - (a * x + b))) + q * (h - (a * x + b))
  {
    var r := h - (a * x + b);
    var da, db := a' - a, b' - b;
    var d := da * x + db;
    assert h - (a' * x + b') == r - d;
    assert (r - d) * (r - d) == r * r - 2.0 * (d * r) + d * d;
    assert -2.0 * (d * r) == p * (x * r) + q * r;
    Square(d);
  }

  /** Touches that already lie on a line are fitted by exactly that line. */
  lemma FitExactOnLine(t: seq<Touch>, c: real, d: real)
    requires |t| >= 2 && Ascending(t)
    requires forall k :: 0 <= k < |t| ==> t[k].high == c * X(t[k]) + d
    ensures Fit(t) == Line(c, d)
  {
    var n := |t| as real;
    var mx, my := Sum(Xs(t)) / n, Sum(Ys(t)) / n;
    LineThroughMeans(t, c, d, mx, my);
    CrossOnLine(t, c, d, mx, my);
    SpreadPositive(t, mx);
    SlopeAndIntercept(mx, my, Sum(CrossDevs(t, mx, my)), Sum(SqDevs(t, mx)), c, d);
  }

  lemma SlopeAndIntercept(mx: real, my: real, cross: real, spread: real, c: real, d: real)
    requires spread > 0.0 && cross - c * spread == 0.0 && d == my - c * mx
    ensures LineFromMoments(mx, my, cross, spread) == Line(c, d)
  {
    DivideOut(cross, spread, c);
  }

  /** A line all touches lie on passes through their means: Σ y = c·Σ x + n·d. */
  lemma LineThroughMeans(t: seq<Touch>, c: real, d: real, mx: real, my: real)
    requires |t| >= 2 && mx == Sum(Xs(t)) / (|t| as real) && my == Sum(Ys(t)) / (|t| as real)
    requires forall k :: 0 <= k < |t| ==> t[k].high == c * X(t[k]) + d
    ensures d == my - c * mx
  {
    ResidualsOnLine(t, c, d);
    SumZero(Residuals(t, c, d));
    ResidualSum(t, c, d);
    MeanOnLine(|t| as real, Sum(Ys(t)), Sum(Xs(t)), c, d);
  }

  /** Every centred moment about that line is zero, so Σ (x − mx)(y − my) = c·Σ (x − mx)². */
  lemma CrossOnLine(t: seq<Touch>, c: real, d: real, mx: real, my: real)
    requires d == my - c * mx
    requires forall k :: 0 <= k < |t| ==> t[k].high == c * X(t[k]) + d
    ensures Sum(CrossDevs(t, mx, my)) - c * Sum(SqDevs(t, mx)) == 0.0
  {
    MomentsOnLine(t, c, d, mx);
    SumZero(Moments(t, mx, c, d));
    CentredMoment(t, mx, my, c, d);
  }

  lemma ResidualsOnLine(t: seq<Touch>, c: real, d: real)
    requires forall k :: 0 <= k < |t| ==> t[k].high == c * X(t[k]) + d
    ensures forall i :: 0 <= i < |t| ==> Residuals(t, c, d)[i] == 0.0
  {
  }

  lemma MomentsOnLine(t: seq<Touch>, c: real, d: real, m: real)
    requires forall k :: 0 <= k < |t| ==> t[k].high == c * X(t[k]) + d
    ensures forall i :: 0 <= i < |t| ==> Moments(t, m, c, d)[i] == 0.0
  {
    forall i | 0 <= i < |t|
      ensures Moments(t, m, c, d)[i] == 0.0
    {
      assert Residual(t[i], c, d) == 0.0;
      ZeroProduct(Dev(X(t[i]), m), Residual(t[i], c, d));
    }
  }

  lemma MeanOnLine(n: real, sy: real, sx: real, c: real, d: real)
    requires n > 0.0 && sy - c * sx - n * d == 0.0
    ensures d == sy / n - c * (sx / n)
  {
    assert sy / n == (c * sx + n * d) / n;
  }

  lemma DivideOut(p: real, q: real, c: real)
    requires q > 0.0 && p - c * q == 0.0
    ensures p / q == c
  {
  }
}
