/** What the least-squares fits promise (src/utils/regression.ts and its tests). */
module RegressionProperties {
  import opened Wrappers
  import opened Numbers
  import opened Types
  import opened Transforms
  import opened Regression

  // ---------------------------------------------------------------- sentinels

  /** The degenerate cases of the linear fit and the count it reports. */
  lemma {:induction false} LinearSentinels(points: seq<Point>, throughZero: bool)
    ensures var f := LinearFit(points, throughZero);
      |points| == 0 ==> f.a.NaN? && f.b.NaN? && f.r2.NaN? && f.n == 0
    ensures var f := LinearFit(points, throughZero);
      |points| > 0 ==> f.n == |points| && f.model == Linear && f.c == None && !f.r2.NaN?
    ensures var f := LinearFit(points, throughZero);
      |points| > 0 && throughZero ==> f.b == Fin(0.0)
    ensures var f := LinearFit(points, throughZero);
      |points| > 0 && throughZero && LinSums(points).sxx == 0.0 ==> f.a.NaN? && f.r2 == Fin(0.0)
    ensures var f, s := LinearFit(points, throughZero), LinSums(points);
      |points| > 0 && !throughZero && Denominator(|points|, s) == 0.0 ==>
      f.a.NaN? && f.b.NaN? && f.r2 == Fin(0.0)
  {
  }

  // ---------------------------------------------------------------- sums of squares

  lemma {:induction false} SSTotNonNegative(ps: seq<Point>, yBar: real)
    ensures SSTot(ps, yBar) >= 0.0
    decreases |ps|
  {
    if |ps| > 0 {
      SSTotNonNegative(ps[..|ps| - 1], yBar);
      SqNonNegative(ps[|ps| - 1].y - yBar);
    }
  }

  lemma {:induction false} SSResLinearNonNegative(ps: seq<Point>, a: real, b: real)
    ensures SSResLinear(ps, a, b) >= 0.0
    decreases |ps|
  {
    if |ps| > 0 {
      SSResLinearNonNegative(ps[..|ps| - 1], a, b);
      SqNonNegative(ps[|ps| - 1].y - LineAt(a, b, ps[|ps| - 1].x));
    }
  }

  /** Whenever the linear fit reports a finite R², it is at most 1. */
  lemma {:induction false} LinearRSquaredAtMostOne(points: seq<Point>, throughZero: bool)
    ensures var f := LinearFit(points, throughZero); f.r2.Fin? ==> f.r2.r <= 1.0
  {
    var f := LinearFit(points, throughZero);
    if |points| > 0 && f.a.Fin? {
      var yBar := Mean(LinSums(points).sy, |points|);
      SSTotNonNegative(points, yBar);
      SSResLinearNonNegative(points, f.a.r, f.b.r);
      RSquaredAtMostOne(SSTot(points, yBar), SSResLinear(points, f.a.r, f.b.r));
    }
  }

  // ---------------------------------------------------------------- spread of the x values

  /** Sum of squared deviations of the x values from `m`. */
  function SqDevX(ps: seq<Point>, m: real): real
    decreases |ps|
  {
    if |ps| == 0 then 0.0 else SqDevX(ps[..|ps| - 1], m) + Sq(ps[|ps| - 1].x - m)
  }

  /** The same spread written with the running sums: `sumXX - 2 m sumX + n m^2`. */
  function Spread(sxx: real, sx: real, n: nat, m: real): real {
    sxx - 2.0 * m * sx + n as real * m * m
  }

  lemma {:induction false} SqDevXExpand(ps: seq<Point>, m: real)
    ensures SqDevX(ps, m) == Spread(LinSums(ps).sxx, LinSums(ps).sx, |ps|, m)
    decreases |ps|
  {
    if |ps| > 0 {
      SqDevXExpand(ps[..|ps| - 1], m);
      SqDevXExpandStep(ps, m);
    } else {
      SpreadOfNothing(m);
    }
  }

  lemma {:induction false} SqDevXExpandStep(ps: seq<Point>, m: real)
    requires |ps| > 0
    requires var ps' := ps[..|ps| - 1];
      SqDevX(ps', m) == Spread(LinSums(ps').sxx, LinSums(ps').sx, |ps'|, m)
    ensures SqDevX(ps, m) == Spread(LinSums(ps).sxx, LinSums(ps).sx, |ps|, m)
  {
    var ps' := ps[..|ps| - 1];
    SumsOfLast(ps, m);
    SpreadStep(SqDevX(ps, m), SqDevX(ps', m), LinSums(ps).sxx, LinSums(ps).sx, |ps|,
      LinSums(ps').sxx, LinSums(ps').sx, |ps'|, ps[|ps| - 1].x, m);
  }

  /** How the sums and the spread grow by the last point. */
  lemma {:induction false} SumsOfLast(ps: seq<Point>, m: real)
    requires |ps| > 0
    ensures var ps', x := ps[..|ps| - 1], ps[|ps| - 1].x;
      && LinSums(ps).sxx == LinSums(ps').sxx + x * x
      && LinSums(ps).sx == LinSums(ps').sx + x
      && SqDevX(ps, m) == SqDevX(ps', m) + Sq(x - m)
      && |ps| == |ps'| + 1
  {
    assert LinSums(ps) == AddPoint(LinSums(ps[..|ps| - 1]), ps[|ps| - 1]);
    assert SqDevX(ps, m) == SqDevX(ps[..|ps| - 1], m) + Sq(ps[|ps| - 1].x - m);
  }

  lemma {:induction false} SqDevXNonNegative(ps: seq<Point>, m: real)
    ensures SqDevX(ps, m) >= 0.0
    decreases |ps|
  {
    if |ps| > 0 {
      SqDevXNonNegative(ps[..|ps| - 1], m);
      SqNonNegative(ps[|ps| - 1].x - m);
    }
  }

  /** The spread is positive as soon as one x differs from `m`. */
  lemma {:induction false} SqDevXPositive(ps: seq<Point>, m: real, k: nat)
    requires k < |ps| && ps[k].x != m
    ensures SqDevX(ps, m) > 0.0
    decreases |ps|
  {
    var ps' := ps[..|ps| - 1];
    if k == |ps| - 1 {
      SqDevXNonNegative(ps', m);
      SqPositive(ps[k].x - m);
    } else {
      SqDevXPositive(ps', m, k);
      SqNonNegative(ps[|ps| - 1].x - m);
    }
  }

  /** All x equal to `v`: no spread about `v`, and `sumX = n v`. */
  lemma {:induction false} ConstantX(ps: seq<Point>, v: real)
    requires forall i :: 0 <= i < |ps| ==> ps[i].x == v
    ensures SqDevX(ps, v) == 0.0
    ensures LinSums(ps).sx == |ps| as real * v
    decreases |ps|
  {
    if |ps| > 0 {
      var ps' := ps[..|ps| - 1];
      ConstantX(ps', v);
      SumsOfLast(ps, v);
      CountTimesStep(LinSums(ps).sx, LinSums(ps').sx, |ps| as real, |ps'| as real, v);
    }
  }

  /** `n * sumXX - sumX^2` is `n` times the spread about the mean `m`. */
  lemma {:induction false} DenominatorIsSpread(ps: seq<Point>, m: real, n: nat, s: LinearSums, d: real)
    requires n == |ps| && s == LinSums(ps) && d == SqDevX(ps, m) && n as real * m == s.sx
    ensures Denominator(n, s) == n as real * d
  {
    SqDevXExpand(ps, m);
    DenominatorOfSpread(n, s, m, d);
  }

  /** With two distinct x values, `sumXX` is positive: some x is not zero. */
  lemma {:induction false} DistinctXGiveOriginSpread(points: seq<Point>, i: nat, j: nat)
    requires i < |points| && j < |points| && points[i].x != points[j].x
    ensures LinSums(points).sxx > 0.0
  {
    var k := if points[i].x != 0.0 then i else j;
    SqDevXPositive(points, 0.0, k);
    SqDevXExpand(points, 0.0);
    SpreadAboutZero(LinSums(points).sxx, LinSums(points).sx, |points|);
  }

  /** With two distinct x values the denominator of the least-squares slope is positive. */
  lemma {:induction false} DistinctXGiveDenominator(points: seq<Point>, i: nat, j: nat)
    requires i < |points| && j < |points| && points[i].x != points[j].x
    ensures Denominator(|points|, LinSums(points)) > 0.0
  {
    var m := PositiveSpread(points, i, j);
    PositiveDenominator(|points|, LinSums(points), m, Spread(LinSums(points).sxx, LinSums(points).sx, |points|, m));
  }

  /** About the mean of the x values, distinct x values give a positive spread. */
  lemma {:induction false} PositiveSpread(points: seq<Point>, i: nat, j: nat) returns (m: real)
    requires i < |points| && j < |points| && points[i].x != points[j].x
    ensures var s := LinSums(points); |points| as real * m == s.sx && Spread(s.sxx, s.sx, |points|, m) > 0.0
  {
    m := Mean(LinSums(points).sx, |points|);
    MeanTimesCount(LinSums(points).sx, |points|);
    SpreadAt(points, m, if points[i].x != m then i else j);
  }

  lemma {:induction false} SpreadAt(points: seq<Point>, m: real, k: nat)
    requires k < |points| && points[k].x != m
    ensures Spread(LinSums(points).sxx, LinSums(points).sx, |points|, m) > 0.0
  {
    SqDevXPositive(points, m, k);
    SqDevXExpand(points, m);
  }

  /** Two x values differ exactly when the x column has variance. */
  lemma {:induction false} VarianceWitness(points: seq<Point>) returns (i: nat, j: nat)
    requires HasVariance(Xs(points))
    ensures i < |points| && j < |points| && points[i].x != points[j].x
  {
    var xs := Xs(points);
    i, j :| 0 <= i < |xs| && 0 <= j < |xs| && xs[i] != xs[j];
  }

  /**
   * With variance in X the fit is never degenerate: both variants of the
   * linear fit return finite coefficients, so the variance gate of
   * `recomputeRegression` rules out the sentinel paths.
   */
  lemma {:induction false} VarianceGivesFiniteLinearFit(points: seq<Point>, throughZero: bool)
    requires HasVariance(Xs(points))
    ensures var f := LinearFit(points, throughZero); f.a.Fin? && f.b.Fin? && f.r2.Fin? && f.n == |points|
  {
    var i, j := VarianceWitness(points);
    if throughZero {
      DistinctXGiveOriginSpread(points, i, j);
    } else {
      DistinctXGiveDenominator(points, i, j);
    }
  }

  /** Points that all share one x value: the intercept fit is degenerate (test "no variance in X"). */
  lemma {:induction false} ConstantXIsDegenerate(points: seq<Point>)
    requires |points| > 0 && forall i :: 0 <= i < |points| ==> points[i].x == points[0].x
    ensures var f := LinearFit(points, false); f.a.NaN? && f.b.NaN? && f.r2 == Fin(0.0)
  {
    var n, s := |points|, LinSums(points);
    var v := points[0].x;
    ConstantX(points, v);
    DenominatorIsSpread(points, v, n, s, SqDevX(points, v));
    ProductWithZero(n as real, SqDevX(points, v));
  }

  // ---------------------------------------------------------------- exact lines

  /** `alpha * h + beta * l`: a sum over points on the line `alpha x + beta`, from two lower sums. */
  function Projected(alpha: real, beta: real, l: real, h: real): real { alpha * h + beta * l }

  predicate OnLine(ps: seq<Point>, alpha: real, beta: real) {
    forall i :: 0 <= i < |ps| ==> ps[i].y == LineAt(alpha, beta, ps[i].x)
  }

  /** The sums of points on the line `alpha x + beta`, and their zero residual. */
  lemma {:induction false} LineSums(ps: seq<Point>, alpha: real, beta: real)
    requires OnLine(ps, alpha, beta)
    ensures LinSums(ps).sy == Projected(alpha, beta, |ps| as real, LinSums(ps).sx)
    ensures LinSums(ps).sxy == Projected(alpha, beta, LinSums(ps).sx, LinSums(ps).sxx)
    ensures SSResLinear(ps, alpha, beta) == 0.0
  {
    LineSumY(ps, alpha, beta);
    LineSumXY(ps, alpha, beta);
    LineResidualZero(ps, alpha, beta);
  }

  lemma {:induction false} LineSumY(ps: seq<Point>, alpha: real, beta: real)
    requires OnLine(ps, alpha, beta)
    ensures LinSums(ps).sy == Projected(alpha, beta, |ps| as real, LinSums(ps).sx)
    decreases |ps|
  {
    if |ps| > 0 {
      OnLinePrefix(ps, alpha, beta);
      LineSumY(ps[..|ps| - 1], alpha, beta);
      LineSumsStepY(ps, alpha, beta);
    } else {
      ProjectedOfNothing(alpha, beta);
    }
  }

  lemma {:induction false} LineSumXY(ps: seq<Point>, alpha: real, beta: real)
    requires OnLine(ps, alpha, beta)
    ensures LinSums(ps).sxy == Projected(alpha, beta, LinSums(ps).sx, LinSums(ps).sxx)
    decreases |ps|
  {
    if |ps| > 0 {
      OnLinePrefix(ps, alpha, beta);
      LineSumXY(ps[..|ps| - 1], alpha, beta);
      LineSumsStepXY(ps, alpha, beta);
    } else {
      ProjectedOfNothing(alpha, beta);
    }
  }

  lemma {:induction false} LineResidualZero(ps: seq<Point>, alpha: real, beta: real)
    requires OnLine(ps, alpha, beta)
    ensures SSResLinear(ps, alpha, beta) == 0.0
    decreases |ps|
  {
    if |ps| > 0 {
      OnLinePrefix(ps, alpha, beta);
      LineResidualZero(ps[..|ps| - 1], alpha, beta);
      LineSumsStepRes(ps, alpha, beta);
    }
  }

  lemma {:induction false} OnLinePrefix(ps: seq<Point>, alpha: real, beta: real)
    requires |ps| > 0 && OnLine(ps, alpha, beta)
    ensures OnLine(ps[..|ps| - 1], alpha, beta)
    ensures ps[|ps| - 1].y == LineAt(alpha, beta, ps[|ps| - 1].x)
  {
  }

  lemma {:induction false} LineSumsStepY(ps: seq<Point>, alpha: real, beta: real)
    requires |ps| > 0 && ps[|ps| - 1].y == LineAt(alpha, beta, ps[|ps| - 1].x)
    requires var ps' := ps[..|ps| - 1]; LinSums(ps').sy == Projected(alpha, beta, |ps'| as real, LinSums(ps').sx)
    ensures LinSums(ps).sy == Projected(alpha, beta, |ps| as real, LinSums(ps).sx)
  {
    var ps', p := ps[..|ps| - 1], ps[|ps| - 1];
    YSumsOfLast(ps);
    LineStepY(LinSums(ps).sx, LinSums(ps).sy, |ps| as real, LinSums(ps').sx, LinSums(ps').sy, |ps'| as real,
      p.x, p.y, alpha, beta);
  }

  lemma {:induction false} LineSumsStepXY(ps: seq<Point>, alpha: real, beta: real)
    requires |ps| > 0 && ps[|ps| - 1].y == LineAt(alpha, beta, ps[|ps| - 1].x)
    requires var ps' := ps[..|ps| - 1]; LinSums(ps').sxy == Projected(alpha, beta, LinSums(ps').sx, LinSums(ps').sxx)
    ensures LinSums(ps).sxy == Projected(alpha, beta, LinSums(ps).sx, LinSums(ps).sxx)
  {
    var ps', p := ps[..|ps| - 1], ps[|ps| - 1];
    XYSumsOfLast(ps);
    LineStepXY(LinSums(ps).sx, LinSums(ps).sxy, LinSums(ps).sxx, LinSums(ps').sx, LinSums(ps').sxy, LinSums(ps').sxx,
      p.x, p.y, alpha, beta);
  }

  lemma {:induction false} LineSumsStepRes(ps: seq<Point>, alpha: real, beta: real)
    requires |ps| > 0 && ps[|ps| - 1].y == LineAt(alpha, beta, ps[|ps| - 1].x)
    requires SSResLinear(ps[..|ps| - 1], alpha, beta) == 0.0
    ensures SSResLinear(ps, alpha, beta) == 0.0
  {
    var p := ps[|ps| - 1];
    ResidualOfLast(ps, alpha, beta);
    assert p.y - LineAt(alpha, beta, p.x) == 0.0;
  }

  lemma {:induction false} YSumsOfLast(ps: seq<Point>)
    requires |ps| > 0
    ensures var ps', p := ps[..|ps| - 1], ps[|ps| - 1];
      && LinSums(ps).sx == LinSums(ps').sx + p.x
      && LinSums(ps).sy == LinSums(ps').sy + p.y
      && |ps| as real == |ps'| as real + 1.0
  {
    assert LinSums(ps) == AddPoint(LinSums(ps[..|ps| - 1]), ps[|ps| - 1]);
  }

  lemma {:induction false} XYSumsOfLast(ps: seq<Point>)
    requires |ps| > 0
    ensures var ps', p := ps[..|ps| - 1], ps[|ps| - 1];
      && LinSums(ps).sx == LinSums(ps').sx + p.x
      && LinSums(ps).sxy == LinSums(ps').sxy + p.x * p.y
      && LinSums(ps).sxx == LinSums(ps').sxx + p.x * p.x
  {
    assert LinSums(ps) == AddPoint(LinSums(ps[..|ps| - 1]), ps[|ps| - 1]);
  }

  lemma {:induction false} ResidualOfLast(ps: seq<Point>, alpha: real, beta: real)
    requires |ps| > 0
    ensures var p := ps[|ps| - 1];
      SSResLinear(ps, alpha, beta) == SSResLinear(ps[..|ps| - 1], alpha, beta) + Sq(p.y - LineAt(alpha, beta, p.x))
  {
  }

  /**
   * Exactly collinear points with X variance are fitted exactly, with R² = 1
   * (test "fits a perfect line").
   */
  lemma {:induction false} CollinearFitIsExact(points: seq<Point>, alpha: real, beta: real)
    requires OnLine(points, alpha, beta) && HasVariance(Xs(points))
    ensures LinearFit(points, false) == Fit(Linear, Fin(alpha), Fin(beta), None, Fin(1.0), |points|)
  {
    var i, j := VarianceWitness(points);
    DistinctXGiveDenominator(points, i, j);
    LineSums(points, alpha, beta);
    SlopeRecovered(|points|, LinSums(points), alpha, beta);
    var yBar := Mean(LinSums(points).sy, |points|);
    SSTotNonNegative(points, yBar);
    RSquaredAtMostOne(SSTot(points, yBar), 0.0);
  }

  /** Points on a line through the origin: the through-origin fit recovers its slope. */
  lemma {:induction false} ThroughOriginOnLine(points: seq<Point>, alpha: real)
    requires OnLine(points, alpha, 0.0) && exists k :: 0 <= k < |points| && points[k].x != 0.0
    ensures LinearFit(points, true) == Fit(Linear, Fin(alpha), Fin(0.0), None, Fin(1.0), |points|)
  {
    var k :| 0 <= k < |points| && points[k].x != 0.0;
    var s := LinSums(points);
    SqDevXPositive(points, 0.0, k);
    SqDevXExpand(points, 0.0);
    SpreadAboutZero(s.sxx, s.sx, |points|);
    LineSums(points, alpha, 0.0);
    OriginSlopeRecovered(s, alpha);
    var yBar := Mean(s.sy, |points|);
    SSTotNonNegative(points, yBar);
    RSquaredAtMostOne(SSTot(points, yBar), 0.0);
  }

  /** Test "through origin changes slope": (1,1), (2,2), (3,3) give a = 1, b = 0. */
  lemma {:induction false} ThroughOriginExample()
    ensures var f := LinearFit([Point(1.0, 1.0), Point(2.0, 2.0), Point(3.0, 3.0)], true);
      f.a == Fin(1.0) && f.b == Fin(0.0)
  {
    var ps := [Point(1.0, 1.0), Point(2.0, 2.0), Point(3.0, 3.0)];
    assert ps[0].x != 0.0;
    ThroughOriginOnLine(ps, 1.0);
  }

  /** X = [1, 2, 3, 4], Y = [2, 4, 6, 8]: a = 2, b = 0, R² = 1, n = 4. */
  lemma {:induction false} DoublingExample()
    ensures LinearFit([Point(1.0, 2.0), Point(2.0, 4.0), Point(3.0, 6.0), Point(4.0, 8.0)], false)
      == Fit(Linear, Fin(2.0), Fin(0.0), None, Fin(1.0), 4)
  {
    var ps := [Point(1.0, 2.0), Point(2.0, 4.0), Point(3.0, 6.0), Point(4.0, 8.0)];
    assert Xs(ps)[0] != Xs(ps)[1];
    CollinearFitIsExact(ps, 2.0, 0.0);
  }

  /** Test "fits a perfect line": (42,1), (56,2), (70,3), (84,4) give n = 4 and R² = 1. */
  lemma {:induction false} PerfectLineExample()
    ensures var f := LinearFit([Point(42.0, 1.0), Point(56.0, 2.0), Point(70.0, 3.0), Point(84.0, 4.0)], false);
      f.n == 4 && f.r2 == Fin(1.0)
  {
    var ps := [Point(42.0, 1.0), Point(56.0, 2.0), Point(70.0, 3.0), Point(84.0, 4.0)];
    assert Xs(ps)[0] != Xs(ps)[1];
    CollinearFitIsExact(ps, 1.0 / 14.0, -2.0);
  }

  // ---------------------------------------------------------------- normal equations and R² in [0, 1]

  /** `Σ (y - (a x + b))`, the plain sum of the residuals. */
  function ResidualSum(ps: seq<Point>, a: real, b: real): real
    decreases |ps|
  {
    if |ps| == 0 then 0.0
    else ResidualSum(ps[..|ps| - 1], a, b) + (ps[|ps| - 1].y - LineAt(a, b, ps[|ps| - 1].x))
  }

  /** `Σ x (y - (a x + b))`, the residuals weighted by x. */
  function ResidualMoment(ps: seq<Point>, a: real, b: real): real
    decreases |ps|
  {
    if |ps| == 0 then 0.0
    else
      ResidualMoment(ps[..|ps| - 1], a, b) + Moment(ps[|ps| - 1], a, b)
  }

  /** One point's residual weighted by its x. */
  function Moment(p: Point, a: real, b: real): real { p.x * (p.y - LineAt(a, b, p.x)) }

  /** `Σ (a x + b - m)²`, the spread of the fitted values about `m`. */
  function SSReg(ps: seq<Point>, a: real, b: real, m: real): real
    decreases |ps|
  {
    if |ps| == 0 then 0.0
    else SSReg(ps[..|ps| - 1], a, b, m) + Sq(LineAt(a, b, ps[|ps| - 1].x) - m)
  }

  lemma {:induction false} SSRegNonNegative(ps: seq<Point>, a: real, b: real, m: real)
    ensures SSReg(ps, a, b, m) >= 0.0
    decreases |ps|
  {
    if |ps| > 0 {
      SSRegNonNegative(ps[..|ps| - 1], a, b, m);
      SqNonNegative(LineAt(a, b, ps[|ps| - 1].x) - m);
    }
  }

  /** The residual sum written with the running sums: `sumY - a sumX - n b`. */
  function ResidualSumForm(sy: real, sx: real, n: nat, a: real, b: real): real {
    sy - a * sx - n as real * b
  }

  /** The weighted residual sum written with the running sums: `sumXY - a sumXX - b sumX`. */
  function ResidualMomentForm(sxy: real, sxx: real, sx: real, a: real, b: real): real {
    sxy - a * sxx - b * sx
  }

  /** The total sum of squares split into residual, fitted and cross parts. */
  function SplitForm(r: real, g: real, q: real, l: real, a: real, b: real, m: real): real {
    r + g + 2.0 * a * q + 2.0 * (b - m) * l
  }

  lemma {:induction false} ResidualSumExpand(ps: seq<Point>, a: real, b: real)
    ensures ResidualSum(ps, a, b) == ResidualSumForm(LinSums(ps).sy, LinSums(ps).sx, |ps|, a, b)
    decreases |ps|
  {
    if |ps| > 0 {
      ResidualSumExpand(ps[..|ps| - 1], a, b);
      ResidualSumExpandStep(ps, a, b);
    }
  }

  lemma {:induction false} ResidualSumExpandStep(ps: seq<Point>, a: real, b: real)
    requires |ps| > 0
    requires var ps' := ps[..|ps| - 1];
      ResidualSum(ps', a, b) == ResidualSumForm(LinSums(ps').sy, LinSums(ps').sx, |ps'|, a, b)
    ensures ResidualSum(ps, a, b) == ResidualSumForm(LinSums(ps).sy, LinSums(ps).sx, |ps|, a, b)
  {
    var ps', p := ps[..|ps| - 1], ps[|ps| - 1];
    YSumsOfLast(ps);
    ResidualSumStep(ResidualSum(ps, a, b), ResidualSum(ps', a, b), LinSums(ps).sy, LinSums(ps).sx, |ps|,
      LinSums(ps').sy, LinSums(ps').sx, |ps'|, p.x, p.y, a, b);
  }

  lemma {:induction false} MomentOfLast(ps: seq<Point>, a: real, b: real)
    requires |ps| > 0
    ensures ResidualMoment(ps, a, b) == ResidualMoment(ps[..|ps| - 1], a, b) + Moment(ps[|ps| - 1], a, b)
    ensures LinSums(ps) == AddPoint(LinSums(ps[..|ps| - 1]), ps[|ps| - 1])
  {
  }

  lemma {:induction false} ResidualMomentExpand(ps: seq<Point>, a: real, b: real)
    ensures ResidualMoment(ps, a, b) == ResidualMomentForm(LinSums(ps).sxy, LinSums(ps).sxx, LinSums(ps).sx, a, b)
    decreases |ps|
  {
    if |ps| > 0 {
      ResidualMomentExpand(ps[..|ps| - 1], a, b);
      ResidualMomentExpandStep(ps, a, b);
    }
  }

  lemma {:induction false} ResidualMomentExpandStep(ps: seq<Point>, a: real, b: real)
    requires |ps| > 0
    requires var ps' := ps[..|ps| - 1];
      ResidualMoment(ps', a, b) == ResidualMomentForm(LinSums(ps').sxy, LinSums(ps').sxx, LinSums(ps').sx, a, b)
    ensures ResidualMoment(ps, a, b) == ResidualMomentForm(LinSums(ps).sxy, LinSums(ps).sxx, LinSums(ps).sx, a, b)
  {
    var ps', p := ps[..|ps| - 1], ps[|ps| - 1];
    MomentOfLast(ps, a, b);
    ResidualMomentStep(ResidualMoment(ps, a, b), ResidualMoment(ps', a, b), LinSums(ps), LinSums(ps'), p, a, b);
  }

  /**
   * Point by point `(y - m)² = (y - ŷ)² + (ŷ - m)² + 2 (y - ŷ)(ŷ - m)`, summed:
   * the cross term is `2 a Σ x (y - ŷ) + 2 (b - m) Σ (y - ŷ)`.
   */
  lemma {:induction false} SquaresSplit(ps: seq<Point>, a: real, b: real, m: real)
    ensures SSTot(ps, m) == SplitForm(SSResLinear(ps, a, b), SSReg(ps, a, b, m),
      ResidualMoment(ps, a, b), ResidualSum(ps, a, b), a, b, m)
    decreases |ps|
  {
    if |ps| > 0 {
      SquaresSplit(ps[..|ps| - 1], a, b, m);
      SquaresSplitStep(ps, a, b, m);
    }
  }

  lemma {:induction false} SquaresSplitStep(ps: seq<Point>, a: real, b: real, m: real)
    requires |ps| > 0
    requires var ps' := ps[..|ps| - 1];
      SSTot(ps', m) == SplitForm(SSResLinear(ps', a, b), SSReg(ps', a, b, m),
        ResidualMoment(ps', a, b), ResidualSum(ps', a, b), a, b, m)
    ensures SSTot(ps, m) == SplitForm(SSResLinear(ps, a, b), SSReg(ps, a, b, m),
      ResidualMoment(ps, a, b), ResidualSum(ps, a, b), a, b, m)
  {
    var ps', p := ps[..|ps| - 1], ps[|ps| - 1];
    SplitOfLast(ps, a, b, m);
    SplitStep(SSTot(ps, m), SSTot(ps', m), SSResLinear(ps, a, b), SSResLinear(ps', a, b),
      SSReg(ps, a, b, m), SSReg(ps', a, b, m), ResidualMoment(ps, a, b), ResidualMoment(ps', a, b),
      ResidualSum(ps, a, b), ResidualSum(ps', a, b), p, a, b, m);
  }

  lemma {:induction false} SplitOfLast(ps: seq<Point>, a: real, b: real, m: real)
    requires |ps| > 0
    ensures var ps', p := ps[..|ps| - 1], ps[|ps| - 1];
      && SSTot(ps, m) == SSTot(ps', m) + Sq(p.y - m)
      && SSResLinear(ps, a, b) == SSResLinear(ps', a, b) + Sq(p.y - LineAt(a, b, p.x))
      && SSReg(ps, a, b, m) == SSReg(ps', a, b, m) + Sq(LineAt(a, b, p.x) - m)
      && ResidualMoment(ps, a, b) == ResidualMoment(ps', a, b) + Moment(p, a, b)
      && ResidualSum(ps, a, b) == ResidualSum(ps', a, b) + (p.y - LineAt(a, b, p.x))
  {
  }

  /**
   * The least-squares line with an intercept solves the two normal equations:
   * its residuals add up to zero, and so do the residuals weighted by x.
   */
  lemma {:induction false} LinearNormalEquations(points: seq<Point>)
    requires |points| > 0 && Denominator(|points|, LinSums(points)) != 0.0
    ensures var f := LinearFit(points, false);
      && f.a.Fin? && f.b.Fin?
      && ResidualSum(points, f.a.r, f.b.r) == 0.0
      && ResidualMoment(points, f.a.r, f.b.r) == 0.0
  {
    var n, s := |points|, LinSums(points);
    var a := OlsSlope(n, s);
    var b := OlsIntercept(n, s, a);
    assert LinearFit(points, false) == LinearWith(points, a, b);
    ResidualSumExpand(points, a, b);
    ResidualMomentExpand(points, a, b);
    OlsSolvesNormal(n, s, a, b, ResidualSum(points, a, b), ResidualMoment(points, a, b));
  }

  /** The closed-form slope and intercept make both closed-form residual sums zero. */
  lemma {:induction false} OlsSolvesNormal(n: nat, s: LinearSums, a: real, b: real, l: real, q: real)
    requires n > 0 && Denominator(n, s) != 0.0 && a == OlsSlope(n, s) && b == OlsIntercept(n, s, a)
    requires l == ResidualSumForm(s.sy, s.sx, n, a, b) && q == ResidualMomentForm(s.sxy, s.sxx, s.sx, a, b)
    ensures l == 0.0 && q == 0.0
  {
    var d := Denominator(n, s);
    QuotientTimes(n as real * s.sxy - s.sx * s.sy, d);
    QuotientTimes(s.sy - a * s.sx, n as real);
    NormalAlgebra(n as real, s.sx, s.sy, s.sxy, s.sxx, a, b, d, l, q);
  }

  /**
   * For the fit with an intercept the total sum of squares splits into the
   * residual sum of squares and the spread of the fitted values about ȳ.
   */
  lemma {:induction false} LinearSquaresSplit(points: seq<Point>)
    requires |points| > 0 && Denominator(|points|, LinSums(points)) != 0.0
    ensures var f, yBar := LinearFit(points, false), Mean(LinSums(points).sy, |points|);
      && f.a.Fin? && f.b.Fin?
      && SSTot(points, yBar) == SSResLinear(points, f.a.r, f.b.r) + SSReg(points, f.a.r, f.b.r, yBar)
  {
    var f, yBar := LinearFit(points, false), Mean(LinSums(points).sy, |points|);
    LinearNormalEquations(points);
    var a, b := f.a.r, f.b.r;
    SquaresSplit(points, a, b, yBar);
    CrossTermsVanish(SSTot(points, yBar), SSResLinear(points, a, b), SSReg(points, a, b, yBar),
      ResidualMoment(points, a, b), ResidualSum(points, a, b), a, b, yBar);
  }

  /**
   * The linear fit with an intercept reports an R² in [0, 1] whenever it has
   * points at all: the degenerate case reports 0, and otherwise the residual
   * sum of squares is at most the total one.
   */
  lemma {:induction false} LinearRSquaredInUnit(points: seq<Point>)
    ensures var f := LinearFit(points, false);
      |points| > 0 ==> f.r2.Fin? && 0.0 <= f.r2.r <= 1.0
  {
    if |points| > 0 && Denominator(|points|, LinSums(points)) != 0.0 {
      var f, yBar := LinearFit(points, false), Mean(LinSums(points).sy, |points|);
      LinearSquaresSplit(points);
      var a, b := f.a.r, f.b.r;
      assert f == LinearWith(points, a, b);
      SSResLinearNonNegative(points, a, b);
      SSRegNonNegative(points, a, b, yBar);
      RSquaredInUnit(SSTot(points, yBar), SSResLinear(points, a, b));
    }
  }

  /**
   * The bound needs the intercept: through the origin, (1, 10) and (2, 11)
   * give the slope 6.4 and an R² of -31.4.
   */
  lemma {:induction false} ThroughOriginNegativeRSquared()
    ensures LinearFit([Point(1.0, 10.0), Point(2.0, 11.0)], true).r2 == Fin(-31.4)
  {
    var ps := [Point(1.0, 10.0), Point(2.0, 11.0)];
    assert LinSums(ps) == LinearSums(3.0, 21.0, 32.0, 5.0, 221.0);
    assert OriginSlope(LinSums(ps)) == 6.4;
    assert SSTot(ps, 10.5) == 0.5;
    assert SSResLinear(ps, 6.4, 0.0) == 16.2;
  }

  // ---------------------------------------------------------------- algebra on reals

  lemma {:induction false} SqPositive(e: real)
    requires e != 0.0
    ensures Sq(e) > 0.0
  {
    calc {
      Sq(e);
    ==
      e * e;
    >
      0.0;
    }
  }

  lemma {:induction false} ProductPositive(a: real, b: real)
    requires a > 0.0 && b > 0.0
    ensures a * b > 0.0
  {
  }

  lemma {:induction false} ProductWithZero(a: real, b: real)
    requires b == 0.0
    ensures a * b == 0.0
  {
  }

  lemma {:induction false} SpreadOfNothing(m: real)
    ensures Spread(0.0, 0.0, 0, m) == 0.0
  {
  }

  lemma {:induction false} SpreadAboutZero(sxx: real, sx: real, n: nat)
    ensures Spread(sxx, sx, n, 0.0) == sxx
  {
  }

  lemma {:induction false} SpreadStep(d: real, d': real, sxx: real, sx: real, n: nat, sxx': real, sx': real, n': nat, x: real, m: real)
    requires d == d' + Sq(x - m) && d' == Spread(sxx', sx', n', m)
    requires sxx == sxx' + x * x && sx == sx' + x && n == n' + 1
    ensures d == Spread(sxx, sx, n, m)
  {
  }

  lemma {:induction false} CountTimesStep(sx: real, sx': real, n: real, n': real, v: real)
    requires sx' == n' * v && sx == sx' + v && n == n' + 1.0
    ensures sx == n * v
  {
  }

  lemma {:induction false} MeanOfConstant(sx: real, k: nat, v: real)
    requires k > 0 && sx == k as real * v
    ensures Mean(sx, k) == v
  {
  }

  lemma {:induction false} MeanTimesCount(total: real, k: nat)
    requires k > 0
    ensures k as real * Mean(total, k) == total
  {
  }

  lemma {:induction false} SpreadAboutMean(n: nat, sxx: real, sx: real, m: real, d: real)
    requires n as real * m == sx && d == Spread(sxx, sx, n, m)
    ensures n as real * d == n as real * sxx - sx * sx
  {
    var k := n as real;
    assert k * (sxx - 2.0 * m * sx + k * m * m) == k * sxx - 2.0 * (k * m) * sx + (k * m) * (k * m);
  }

  lemma {:induction false} DenominatorOfSpread(n: nat, s: LinearSums, m: real, d: real)
    requires n as real * m == s.sx && d == Spread(s.sxx, s.sx, n, m)
    ensures Denominator(n, s) == n as real * d
  {
    SpreadAboutMean(n, s.sxx, s.sx, m, d);
  }

  lemma {:induction false} PositiveDenominator(n: nat, s: LinearSums, m: real, d: real)
    requires n as real * m == s.sx && d == Spread(s.sxx, s.sx, n, m) && d > 0.0 && n > 0
    ensures Denominator(n, s) > 0.0
  {
    DenominatorOfSpread(n, s, m, d);
    ProductPositive(n as real, d);
  }

  lemma {:induction false} ProjectedOfNothing(alpha: real, beta: real)
    ensures Projected(alpha, beta, 0.0, 0.0) == 0.0
  {
  }

  lemma {:induction false} LineStepY(sx: real, sy: real, n: real, sx': real, sy': real, n': real,
                  x: real, y: real, alpha: real, beta: real)
    requires sy' == Projected(alpha, beta, n', sx') && y == LineAt(alpha, beta, x)
    requires sx == sx' + x && sy == sy' + y && n == n' + 1.0
    ensures sy == Projected(alpha, beta, n, sx)
  {
  }

  lemma {:induction false} LineStepXY(sx: real, sxy: real, sxx: real, sx': real, sxy': real, sxx': real,
                   x: real, y: real, alpha: real, beta: real)
    requires sxy' == Projected(alpha, beta, sx', sxx') && y == LineAt(alpha, beta, x)
    requires sx == sx' + x && sxy == sxy' + x * y && sxx == sxx' + x * x
    ensures sxy == Projected(alpha, beta, sx, sxx)
  {
    assert x * y == alpha * (x * x) + beta * x;
  }

  /** The normal equations of a line solve back to its slope and intercept. */
  lemma {:induction false} SlopeRecovered(n: nat, s: LinearSums, alpha: real, beta: real)
    requires n > 0 && Denominator(n, s) != 0.0
    requires s.sy == Projected(alpha, beta, n as real, s.sx) && s.sxy == Projected(alpha, beta, s.sx, s.sxx)
    ensures OlsSlope(n, s) == alpha && OlsIntercept(n, s, alpha) == beta
  {
    SlopeAlgebra(n as real, s.sx, s.sy, s.sxy, s.sxx, Denominator(n, s), alpha, beta);
  }

  lemma {:induction false} SlopeAlgebra(k: real, sx: real, sy: real, sxy: real, sxx: real, den: real, a: real, b: real)
    requires k > 0.0 && den == k * sxx - sx * sx && den != 0.0
    requires sy == a * sx + b * k && sxy == a * sxx + b * sx
    ensures (k * sxy - sx * sy) / den == a && (sy - a * sx) / k == b
  {
    assert k * sxy - sx * sy == a * den by {
      assert k * sxy == a * (k * sxx) + b * (k * sx);
      assert sx * sy == a * (sx * sx) + b * (k * sx);
    }
    assert sy - a * sx == b * k;
  }


  lemma {:induction false} OriginSlopeRecovered(s: LinearSums, alpha: real)
    requires s.sxx != 0.0 && s.sxy == Projected(alpha, 0.0, s.sx, s.sxx)
    ensures OriginSlope(s) == alpha
  {
  }

  lemma {:induction false} QuotientTimes(p: real, d: real)
    requires d != 0.0
    ensures (p / d) * d == p
  {
  }

  lemma {:induction false} ResidualSumStep(l: real, l': real, sy: real, sx: real, n: nat,
                                           sy': real, sx': real, n': nat, x: real, y: real, a: real, b: real)
    requires l == l' + (y - LineAt(a, b, x)) && l' == ResidualSumForm(sy', sx', n', a, b)
    requires sy == sy' + y && sx == sx' + x && n == n' + 1
    ensures l == ResidualSumForm(sy, sx, n, a, b)
  {
  }

  lemma {:induction false} ResidualMomentStep(q: real, q': real, s: LinearSums, s': LinearSums, p: Point, a: real, b: real)
    requires q == q' + Moment(p, a, b) && q' == ResidualMomentForm(s'.sxy, s'.sxx, s'.sx, a, b)
    requires s == AddPoint(s', p)
    ensures q == ResidualMomentForm(s.sxy, s.sxx, s.sx, a, b)
  {
  }

  lemma {:induction false} PointSplit(x: real, y: real, a: real, b: real, m: real)
    ensures Sq(y - m) == Sq(y - LineAt(a, b, x)) + Sq(LineAt(a, b, x) - m)
      + 2.0 * a * (x * (y - LineAt(a, b, x))) + 2.0 * (b - m) * (y - LineAt(a, b, x))
  {
  }

  lemma {:induction false} SplitStep(t: real, t': real, r: real, r': real, g: real, g': real,
                                     q: real, q': real, l: real, l': real, p: Point, a: real, b: real, m: real)
    requires t == t' + Sq(p.y - m) && r == r' + Sq(p.y - LineAt(a, b, p.x)) && g == g' + Sq(LineAt(a, b, p.x) - m)
    requires q == q' + Moment(p, a, b) && l == l' + (p.y - LineAt(a, b, p.x))
    requires t' == SplitForm(r', g', q', l', a, b, m)
    ensures t == SplitForm(r, g, q, l, a, b, m)
  {
    PointSplit(p.x, p.y, a, b, m);
  }

  /** The normal equations from the closed forms of the slope and the intercept. */
  lemma {:induction false} NormalAlgebra(n: real, sx: real, sy: real, sxy: real, sxx: real,
                                         a: real, b: real, d: real, l: real, q: real)
    requires n > 0.0 && d == n * sxx - sx * sx && a * d == n * sxy - sx * sy && b * n == sy - a * sx
    requires l == sy - a * sx - n * b && q == sxy - a * sxx - b * sx
    ensures l == 0.0 && q == 0.0
  {
    assert n * q == (n * sxy - sx * sy) - a * d by {
      assert n * q == n * sxy - a * (n * sxx) - (b * n) * sx;
    }
  }

  lemma {:induction false} CrossTermsVanish(t: real, r: real, g: real, q: real, l: real, a: real, b: real, m: real)
    requires t == SplitForm(r, g, q, l, a, b, m) && q == 0.0 && l == 0.0
    ensures t == r + g
  {
  }

  lemma {:induction false} RSquaredInUnit(ssTot: real, ssRes: real)
    requires 0.0 <= ssRes <= ssTot
    ensures 0.0 <= RSquared(ssTot, ssRes) <= 1.0
  {
    if ssTot > 0.0 {
      assert ssRes / ssTot <= 1.0 by {
        assert ssRes / ssTot * ssTot == ssRes;
      }
      assert ssRes / ssTot >= 0.0;
    }
  }
}
