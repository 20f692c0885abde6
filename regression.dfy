/** Least-squares fits (src/utils/regression.ts). */
module Regression {
  import opened Wrappers
  import opened Numbers
  import opened Types
  import opened Transforms

  // ---------------------------------------------------------------- sums over the points

  datatype LinearSums = LinearSums(sx: real, sy: real, sxy: real, sxx: real, syy: real)

  /** The five accumulators of the first loop of `computeLinearRegression`. */
  function LinSums(ps: seq<Point>): LinearSums
    decreases |ps|
  {
    if |ps| == 0 then LinearSums(0.0, 0.0, 0.0, 0.0, 0.0)
    else
      AddPoint(LinSums(ps[..|ps| - 1]), ps[|ps| - 1])
  }

  function AddPoint(s: LinearSums, p: Point): LinearSums {
    LinearSums(s.sx + p.x, s.sy + p.y, s.sxy + p.x * p.y, s.sxx + p.x * p.x, s.syy + p.y * p.y)
  }

  function Sq(e: real): real { e * e }

  lemma {:induction false} SqNonNegative(e: real)
    ensures Sq(e) >= 0.0
  {
  }

  /** The fitted line `a x + b` at `x`. */
  function LineAt(a: real, b: real, x: real): real { a * x + b }

  /** Total sum of squares about `yBar`. */
  function SSTot(ps: seq<Point>, yBar: real): real
    decreases |ps|
  {
    if |ps| == 0 then 0.0
    else SSTot(ps[..|ps| - 1], yBar) + Sq(ps[|ps| - 1].y - yBar)
  }

  /** Residual sum of squares of the line `a x + b`. */
  function SSResLinear(ps: seq<Point>, a: real, b: real): real
    decreases |ps|
  {
    if |ps| == 0 then 0.0
    else
      SSResLinear(ps[..|ps| - 1], a, b) + Sq(ps[|ps| - 1].y - LineAt(a, b, ps[|ps| - 1].x))
  }

  /** The coefficient of determination, with the two zero-`ssTot` cases. */
  function RSquared(ssTot: real, ssRes: real): real {
    if ssTot == 0.0 then (if ssRes == 0.0 then 1.0 else 0.0) else 1.0 - ssRes / ssTot
  }

  lemma {:induction false} RSquaredAtMostOne(ssTot: real, ssRes: real)
    requires ssTot >= 0.0 && ssRes >= 0.0
    ensures RSquared(ssTot, ssRes) <= 1.0
    ensures ssRes == 0.0 ==> RSquared(ssTot, ssRes) == 1.0
  {
    if ssTot > 0.0 {
      assert ssRes / ssTot >= 0.0;
    }
  }

  lemma {:induction false} LinSumsStep(ps: seq<Point>, i: nat)
    requires i < |ps|
    ensures LinSums(ps[..i + 1]) == AddPoint(LinSums(ps[..i]), ps[i])
  {
    assert ps[..i + 1][..i] == ps[..i];
  }

  lemma {:induction false} LinearResidualStep(ps: seq<Point>, i: nat, yBar: real, a: real, b: real)
    requires i < |ps|
    ensures SSTot(ps[..i + 1], yBar) == SSTot(ps[..i], yBar) + Sq(ps[i].y - yBar)
    ensures SSResLinear(ps[..i + 1], a, b) == SSResLinear(ps[..i], a, b) + Sq(ps[i].y - LineAt(a, b, ps[i].x))
  {
    assert ps[..i + 1][..i] == ps[..i];
  }

  // ---------------------------------------------------------------- linear model

  /** `n * sumXX - sumX * sumX`, zero exactly when every x is the same. */
  function Denominator(n: nat, s: LinearSums): real { n as real * s.sxx - s.sx * s.sx }

  /** The least-squares slope. */
  function OlsSlope(n: nat, s: LinearSums): real
    requires Denominator(n, s) != 0.0
  {
    (n as real * s.sxy - s.sx * s.sy) / Denominator(n, s)
  }

  /** The slope of the line through the origin, `sumXY / sumXX`. */
  function OriginSlope(s: LinearSums): real
    requires s.sxx != 0.0
  {
    s.sxy / s.sxx
  }

  /** The average of `n` values adding up to `total`. */
  function Mean(total: real, n: nat): real
    requires n > 0
  {
    total / n as real
  }

  /** The least-squares intercept for slope `a`. */
  function OlsIntercept(n: nat, s: LinearSums, a: real): real
    requires n > 0
  {
    (s.sy - a * s.sx) / n as real
  }

  lemma {:induction false} OlsUnfold(n: nat, sx: real, sy: real, sxy: real, sxx: real, syy: real, a: real)
    requires n > 0 && n as real * sxx - sx * sx != 0.0
    ensures var s := LinearSums(sx, sy, sxy, sxx, syy);
      && Denominator(n, s) == n as real * sxx - sx * sx
      && OlsSlope(n, s) == (n as real * sxy - sx * sy) / (n as real * sxx - sx * sx)
      && OlsIntercept(n, s, a) == (sy - a * sx) / n as real
  {
  }

  /** The result promised by `computeLinearRegression`. */
  function LinearFit(points: seq<Point>, throughZero: bool): (r: Fit)
    ensures r.model == Linear && r.c == None && r.n == |points|
    ensures r.r2.NaN? <==> |points| == 0
    ensures r.a.Fin? <==> (|points| > 0 &&
      (if throughZero then LinSums(points).sxx != 0.0 else Denominator(|points|, LinSums(points)) != 0.0))
    ensures r.a.Fin? ==> r.b.Fin? && r.r2.Fin?
    ensures throughZero && |points| > 0 ==> r.b == Fin(0.0)
  {
    var n := |points|;
    if n == 0 then Fit(Linear, NaN, NaN, None, NaN, 0)
    else
      var s := LinSums(points);
      if throughZero then
        if s.sxx == 0.0 then Fit(Linear, NaN, Fin(0.0), None, Fin(0.0), n)
        else LinearWith(points, OriginSlope(s), 0.0)
      else
        if Denominator(n, s) == 0.0 then Fit(Linear, NaN, NaN, None, Fin(0.0), n)
        else
          var a := OlsSlope(n, s);
          LinearWith(points, a, OlsIntercept(n, s, a))
  }

  /** The fit of the line `a x + b` with its R². */
  function LinearWith(points: seq<Point>, a: real, b: real): Fit
    requires |points| > 0
  {
    var yBar := Mean(LinSums(points).sy, |points|);
    Fit(Linear, Fin(a), Fin(b), None, Fin(RSquared(SSTot(points, yBar), SSResLinear(points, a, b))), |points|)
  }

  method ComputeLinearRegression(points: seq<Point>, throughZero: bool) returns (res: Fit)
    ensures res == LinearFit(points, throughZero)
  {
    var n := |points|;
    if n == 0 {
      return Fit(Linear, NaN, NaN, None, NaN, 0);
    }
    var sumX, sumY, sumXY, sumXX, sumYY := AccumulateLinear(points);
    var a: real;
    var b: real;
    if throughZero {
      if sumXX == 0.0 {
        return Fit(Linear, NaN, Fin(0.0), None, Fin(0.0), n);
      }
      a := sumXY / sumXX;
      b := 0.0;
    } else {
      var denom := n as real * sumXX - sumX * sumX;
      if denom == 0.0 {
        return Fit(Linear, NaN, NaN, None, Fin(0.0), n);
      }
      a := (n as real * sumXY - sumX * sumY) / denom;
      b := (sumY - a * sumX) / n as real;
      OlsUnfold(n, sumX, sumY, sumXY, sumXX, sumYY, a);
    }
    assert LinearFit(points, throughZero) == LinearWith(points, a, b);
    var yBar := Mean(sumY, n);
    var ssTot, ssRes := LinearResiduals(points, yBar, a, b);
    var r2: real;
    if ssTot == 0.0 {
      r2 := if ssRes == 0.0 then 1.0 else 0.0;
    } else {
      r2 := 1.0 - ssRes / ssTot;
    }
    assert r2 == RSquared(ssTot, ssRes);
    res := Fit(Linear, Fin(a), Fin(b), None, Fin(r2), n);
  }

  /** The first loop of `computeLinearRegression`: the five running sums. */
  method AccumulateLinear(points: seq<Point>) returns (sumX: real, sumY: real, sumXY: real, sumXX: real, sumYY: real)
    ensures LinSums(points) == LinearSums(sumX, sumY, sumXY, sumXX, sumYY)
  {
    sumX, sumY, sumXY, sumXX, sumYY := 0.0, 0.0, 0.0, 0.0, 0.0;
    for i := 0 to |points|
      invariant LinSums(points[..i]) == LinearSums(sumX, sumY, sumXY, sumXX, sumYY)
    {
      var x, y := points[i].x, points[i].y;
      LinSumsStep(points, i);
      sumX := sumX + x;
      sumY := sumY + y;
      sumXY := sumXY + x * y;
      sumXX := sumXX + x * x;
      sumYY := sumYY + y * y;
    }
    assert points[..|points|] == points;
  }

  /** The second loop of `computeLinearRegression`: total and residual sums of squares. */
  method LinearResiduals(points: seq<Point>, yBar: real, a: real, b: real) returns (ssTot: real, ssRes: real)
    ensures ssTot == SSTot(points, yBar) && ssRes == SSResLinear(points, a, b)
  {
    ssTot, ssRes := 0.0, 0.0;
    for i := 0 to |points|
      invariant ssTot == SSTot(points[..i], yBar)
      invariant ssRes == SSResLinear(points[..i], a, b)
    {
      var x, y := points[i].x, points[i].y;
      var yHat := LineAt(a, b, x);
      LinearResidualStep(points, i, yBar, a, b);
      ssTot := ssTot + Sq(y - yBar);
      ssRes := ssRes + Sq(y - yHat);
    }
    assert points[..|points|] == points;
  }

  /** `computeRegression`: the linear fit under its older name. */
  method ComputeRegression(points: seq<Point>, throughZero: bool) returns (res: Fit)
    ensures res == LinearFit(points, throughZero)
  {
    res := ComputeLinearRegression(points, throughZero);
  }
}
