/** `computeQuadraticRegression` (src/utils/regression.ts): least squares for `y = a x^2 + b x + c`. */
module QuadraticRegression {
  import opened Wrappers
  import opened Numbers
  import opened Types
  import opened Regression
  import opened Elimination
  import Solver

  // ---------------------------------------------------------------- sums over the points

  /** The seven accumulators of the first loop. */
  datatype QuadSums = QuadSums(sx: real, sx2: real, sx3: real, sx4: real, sy: real, sxy: real, sx2y: real)

  function QSums(ps: seq<Point>): QuadSums
    decreases |ps|
  {
    if |ps| == 0 then QuadSums(0.0, 0.0, 0.0, 0.0, 0.0, 0.0, 0.0)
    else
      var p := ps[|ps| - 1];
      AddQuad(QSums(ps[..|ps| - 1]), p.x, p.y, Sq(p.x))
  }

  /** One turn of the first loop, for the point `(x, y)` with `x2 = x * x`. */
  function AddQuad(s: QuadSums, x: real, y: real, x2: real): QuadSums {
    QuadSums(s.sx + x, s.sx2 + x2, s.sx3 + x2 * x, s.sx4 + x2 * x2, s.sy + y, s.sxy + x * y, s.sx2y + x2 * y)
  }

  lemma {:induction false} QSumsStep(ps: seq<Point>, i: nat, x: real, y: real, x2: real)
    requires i < |ps| && x == ps[i].x && y == ps[i].y && x2 == x * x
    ensures QSums(ps[..i + 1]) == AddQuad(QSums(ps[..i]), x, y, x2)
  {
    assert ps[..i + 1][..i] == ps[..i];
    assert x2 == Sq(x);
  }

  lemma {:induction false} AddQuadFields(s: QuadSums, x: real, y: real, x2: real)
    ensures AddQuad(s, x, y, x2)
      == QuadSums(s.sx + x, s.sx2 + x2, s.sx3 + x2 * x, s.sx4 + x2 * x2, s.sy + y, s.sxy + x * y, s.sx2y + x2 * y)
  {
  }

  /** The normal equations `A [a, b, c] = B` built from the sums. */
  function NormalMatrix(s: QuadSums, n: nat): (m: seq<seq<real>>)
    ensures Valid(Sys(m, NormalRhs(s)))
  {
    [[s.sx4, s.sx3, s.sx2], [s.sx3, s.sx2, s.sx], [s.sx2, s.sx, n as real]]
  }

  function NormalRhs(s: QuadSums): seq<real> {
    [s.sx2y, s.sxy, s.sy]
  }

  /** The fitted parabola at `x`, evaluated as the source writes it. */
  function QuadAt(a: real, b: real, c: real, x: real): real { a * x * x + b * x + c }

  /** Residual sum of squares of the parabola. */
  function SSResQuad(ps: seq<Point>, a: real, b: real, c: real): real
    decreases |ps|
  {
    if |ps| == 0 then 0.0
    else SSResQuad(ps[..|ps| - 1], a, b, c) + Sq(ps[|ps| - 1].y - QuadAt(a, b, c, ps[|ps| - 1].x))
  }

  lemma {:induction false} QuadResidualStep(ps: seq<Point>, i: nat, yBar: real, a: real, b: real, c: real)
    requires i < |ps|
    ensures SSTot(ps[..i + 1], yBar) == SSTot(ps[..i], yBar) + Sq(ps[i].y - yBar)
    ensures SSResQuad(ps[..i + 1], a, b, c) == SSResQuad(ps[..i], a, b, c) + Sq(ps[i].y - QuadAt(a, b, c, ps[i].x))
  {
    assert ps[..i + 1][..i] == ps[..i];
  }

  // ---------------------------------------------------------------- the fit

  /** The result promised by `computeQuadraticRegression`. */
  function QuadraticFit(points: seq<Point>): (r: Fit)
    ensures r.model == Quadratic && r.c.Some? && r.n == |points|
    ensures r.r2.NaN? <==> |points| == 0
    ensures r.a.Fin? <==> |points| > 0 && Solve3Ref(NormalMatrix(QSums(points), |points|), NormalRhs(QSums(points))).Some?
    ensures r.a.Fin? ==> r.b.Fin? && r.c.value.Fin? && r.r2.Fin?
  {
    var n := |points|;
    if n == 0 then Fit(Quadratic, NaN, NaN, Some(NaN), NaN, 0)
    else
      var s := QSums(points);
      match Solve3Ref(NormalMatrix(s, n), NormalRhs(s))
      case None => Fit(Quadratic, NaN, NaN, Some(NaN), Fin(0.0), n)
      case Some(sol) => QuadraticWith(points, sol[0], sol[1], sol[2])
  }

  /** The fit of the parabola `a x^2 + b x + c` with its R². */
  function QuadraticWith(points: seq<Point>, a: real, b: real, c: real): Fit
    requires |points| > 0
  {
    var yBar := Mean(QSums(points).sy, |points|);
    Fit(Quadratic, Fin(a), Fin(b), Some(Fin(c)),
      Fin(RSquared(SSTot(points, yBar), SSResQuad(points, a, b, c))), |points|)
  }

  method ComputeQuadraticRegression(points: seq<Point>) returns (res: Fit)
    ensures res == QuadraticFit(points)
  {
    var n := |points|;
    if n == 0 {
      return Fit(Quadratic, NaN, NaN, Some(NaN), NaN, 0);
    }
    var sx, sx2, sx3, sx4, sy, sxy, sx2y := AccumulateQuadratic(points);
    var A := [[sx4, sx3, sx2], [sx3, sx2, sx], [sx2, sx, n as real]];
    var B := [sx2y, sxy, sy];
    ghost var s := QSums(points);
    assert A == NormalMatrix(s, n) && B == NormalRhs(s);
    var sol := Solver.Solve3(A, B);
    if sol.None? {
      return Fit(Quadratic, NaN, NaN, Some(NaN), Fin(0.0), n);
    }
    var a, b, c := sol.value[0], sol.value[1], sol.value[2];
    var yBar := Mean(sy, n);
    var ssTot, ssRes := QuadraticResiduals(points, yBar, a, b, c);
    var r2 := if ssTot == 0.0 then (if ssRes == 0.0 then 1.0 else 0.0) else 1.0 - ssRes / ssTot;
    assert r2 == RSquared(ssTot, ssRes);
    res := Fit(Quadratic, Fin(a), Fin(b), Some(Fin(c)), Fin(r2), n);
  }

  /** The first loop: the seven running sums. */
  method AccumulateQuadratic(points: seq<Point>)
    returns (sx: real, sx2: real, sx3: real, sx4: real, sy: real, sxy: real, sx2y: real)
    ensures QSums(points) == QuadSums(sx, sx2, sx3, sx4, sy, sxy, sx2y)
  {
    sx, sx2, sx3, sx4, sy, sxy, sx2y := 0.0, 0.0, 0.0, 0.0, 0.0, 0.0, 0.0;
    ghost var acc := QuadSums(0.0, 0.0, 0.0, 0.0, 0.0, 0.0, 0.0);
    for i := 0 to |points|
      invariant QSums(points[..i]) == acc
      invariant acc == QuadSums(sx, sx2, sx3, sx4, sy, sxy, sx2y)
    {
      var x, y := points[i].x, points[i].y;
      var x2 := x * x;
      QSumsStep(points, i, x, y, x2);
      AddQuadFields(acc, x, y, x2);
      acc := AddQuad(acc, x, y, x2);
      sx := sx + x;
      sx2 := sx2 + x2;
      sx3 := sx3 + x2 * x;
      sx4 := sx4 + x2 * x2;
      sy := sy + y;
      sxy := sxy + x * y;
      sx2y := sx2y + x2 * y;
    }
    assert points[..|points|] == points;
  }

  /** The R² loop: total and residual sums of squares. */
  method QuadraticResiduals(points: seq<Point>, yBar: real, a: real, b: real, c: real) returns (ssTot: real, ssRes: real)
    ensures ssTot == SSTot(points, yBar) && ssRes == SSResQuad(points, a, b, c)
  {
    ssTot, ssRes := 0.0, 0.0;
    for i := 0 to |points|
      invariant ssTot == SSTot(points[..i], yBar)
      invariant ssRes == SSResQuad(points[..i], a, b, c)
    {
      var x, y := points[i].x, points[i].y;
      var yHat := a * x * x + b * x + c;
      QuadResidualStep(points, i, yBar, a, b, c);
      ssTot := ssTot + Sq(y - yBar);
      ssRes := ssRes + Sq(y - yHat);
    }
    assert points[..|points|] == points;
  }
}
