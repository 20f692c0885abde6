/** What `computeQuadraticRegression` promises: its sentinels, R² in [0, 1], the normal equations, exact parabolas. */
module QuadraticProperties {
  import opened Wrappers
  import opened Numbers
  import opened Types
  import opened Regression
  import opened RegressionProperties
  import opened Elimination
  import opened EliminationProperties
  import opened QuadraticRegression

  /** The coefficients the normal equations give, when `solve3` finds them. */
  function Coefficients(points: seq<Point>): Option<seq<real>>
    requires |points| > 0
  {
    var s := QSums(points);
    Solve3Ref(NormalMatrix(s, |points|), NormalRhs(s))
  }

  /**
   * No points give `NaN` everywhere with `n = 0`; a singular system gives
   * `NaN` coefficients with `r2 = 0`; `n` is always the number of points.
   */
  lemma {:induction false} QuadraticSentinels(points: seq<Point>)
    ensures var f := QuadraticFit(points);
      f.n == |points| && f.model == Quadratic && f.c.Some?
    ensures var f := QuadraticFit(points);
      |points| == 0 ==> f.a.NaN? && f.b.NaN? && f.c == Some(NaN) && f.r2.NaN?
    ensures var f := QuadraticFit(points);
      |points| > 0 && Coefficients(points).None? ==>
      f.a.NaN? && f.b.NaN? && f.c == Some(NaN) && f.r2 == Fin(0.0)
    ensures var f := QuadraticFit(points);
      |points| > 0 && Coefficients(points).Some? ==>
      f.a.Fin? && f.b.Fin? && f.c.value.Fin? && f.r2.Fin?
  {
  }

  lemma {:induction false} SSResQuadNonNegative(ps: seq<Point>, a: real, b: real, c: real)
    ensures SSResQuad(ps, a, b, c) >= 0.0
    decreases |ps|
  {
    if |ps| > 0 {
      SSResQuadNonNegative(ps[..|ps| - 1], a, b, c);
      SqNonNegative(ps[|ps| - 1].y - QuadAt(a, b, c, ps[|ps| - 1].x));
    }
  }

  /** With at least one point the quadratic R² is a finite number at most 1. */
  lemma {:induction false} QuadraticRSquaredAtMostOne(points: seq<Point>)
    requires |points| > 0
    ensures var f := QuadraticFit(points); f.r2.Fin? && f.r2.r <= 1.0
  {
    var sol := Coefficients(points);
    if sol.Some? {
      var a, b, c := sol.value[0], sol.value[1], sol.value[2];
      var yBar := Mean(QSums(points).sy, |points|);
      SSTotNonNegative(points, yBar);
      SSResQuadNonNegative(points, a, b, c);
      RSquaredAtMostOne(SSTot(points, yBar), SSResQuad(points, a, b, c));
    }
  }

  /** The returned coefficients solve the normal equations exactly. */
  lemma {:induction false} QuadraticSolvesNormalEquations(points: seq<Point>)
    requires |points| > 0 && Coefficients(points).Some?
    ensures var f, s, sol := QuadraticFit(points), QSums(points), Coefficients(points).value;
      && f.a == Fin(sol[0]) && f.b == Fin(sol[1]) && f.c == Some(Fin(sol[2]))
      && Solves(Sys(NormalMatrix(s, |points|), NormalRhs(s)), sol)
  {
    var s := QSums(points);
    Solve3Solves(NormalMatrix(s, |points|), NormalRhs(s));
  }

  // ---------------------------------------------------------------- residual moments and R² in [0, 1]

  /** `Σ e`, `Σ x e` and `Σ x² e` for the residuals `e = y - (a x² + b x + c)`. */
  datatype Moments = Moments(m0: real, m1: real, m2: real)

  /** One point's residual under the parabola. */
  function QResidual(p: Point, a: real, b: real, c: real): real { p.y - QuadAt(a, b, c, p.x) }

  /** The residual weighted by x. */
  function XResidual(p: Point, a: real, b: real, c: real): real { p.x * QResidual(p, a, b, c) }

  /** The residual weighted by x². */
  function X2Residual(p: Point, a: real, b: real, c: real): real { Sq(p.x) * QResidual(p, a, b, c) }

  function ResidualMoments(ps: seq<Point>, a: real, b: real, c: real): Moments
    decreases |ps|
  {
    if |ps| == 0 then Moments(0.0, 0.0, 0.0)
    else
      var rest, p := ResidualMoments(ps[..|ps| - 1], a, b, c), ps[|ps| - 1];
      Moments(rest.m0 + QResidual(p, a, b, c), rest.m1 + XResidual(p, a, b, c), rest.m2 + X2Residual(p, a, b, c))
  }

  /** The three moments written with the power sums: each is a right-hand side minus a row of `A [a, b, c]`. */
  function MomentsForm(s: QuadSums, n: nat, a: real, b: real, c: real): Moments {
    Moments(s.sy - Comb(a, b, c, s.sx2, s.sx, n as real),
            s.sxy - Comb(a, b, c, s.sx3, s.sx2, s.sx),
            s.sx2y - Comb(a, b, c, s.sx4, s.sx3, s.sx2))
  }

  /** `Σ (a x² + b x + c - m)²`, the spread of the fitted values about `m`. */
  function SSRegQuad(ps: seq<Point>, a: real, b: real, c: real, m: real): real
    decreases |ps|
  {
    if |ps| == 0 then 0.0
    else SSRegQuad(ps[..|ps| - 1], a, b, c, m) + Sq(QuadAt(a, b, c, ps[|ps| - 1].x) - m)
  }

  lemma {:induction false} SSRegQuadNonNegative(ps: seq<Point>, a: real, b: real, c: real, m: real)
    ensures SSRegQuad(ps, a, b, c, m) >= 0.0
    decreases |ps|
  {
    if |ps| > 0 {
      SSRegQuadNonNegative(ps[..|ps| - 1], a, b, c, m);
      SqNonNegative(QuadAt(a, b, c, ps[|ps| - 1].x) - m);
    }
  }

  /** The residual moments are the closed forms in the power sums, for any parabola. */
  lemma {:induction false} MomentsExpand(ps: seq<Point>, a: real, b: real, c: real)
    ensures ResidualMoments(ps, a, b, c) == MomentsForm(QSums(ps), |ps|, a, b, c)
  {
    SumExpand(ps, a, b, c);
    XMomentExpand(ps, a, b, c);
    X2MomentExpand(ps, a, b, c);
  }

  lemma {:induction false} X2MomentExpand(ps: seq<Point>, a: real, b: real, c: real)
    ensures ResidualMoments(ps, a, b, c).m2 == MomentsForm(QSums(ps), |ps|, a, b, c).m2
    decreases |ps|
  {
    if |ps| == 0 {
      CombOfNothing(a, b, c);
    } else {
      X2MomentExpand(ps[..|ps| - 1], a, b, c);
      X2MomentStep(ps, a, b, c);
    }
  }

  lemma {:induction false} X2MomentStep(ps: seq<Point>, a: real, b: real, c: real)
    requires |ps| > 0
    requires var ps' := ps[..|ps| - 1];
      ResidualMoments(ps', a, b, c).m2 == MomentsForm(QSums(ps'), |ps'|, a, b, c).m2
    ensures ResidualMoments(ps, a, b, c).m2 == MomentsForm(QSums(ps), |ps|, a, b, c).m2
  {
    var ps' := ps[..|ps| - 1];
    MomentsOfLast(ps, a, b, c);
    X2MomentStepPoint(ResidualMoments(ps, a, b, c).m2, ResidualMoments(ps', a, b, c).m2, QSums(ps), QSums(ps'), |ps'|, |ps|, ps[|ps| - 1], a, b, c);
  }

  lemma {:induction false} X2MomentStepPoint(q: real, q': real, s: QuadSums, s': QuadSums, n': nat, n: nat, p: Point, a: real, b: real, c: real)
    requires q' == MomentsForm(s', n', a, b, c).m2 && n == n' + 1
    requires q == q' + X2Residual(p, a, b, c) && s == AddQuad(s', p.x, p.y, Sq(p.x))
    ensures q == MomentsForm(s, n, a, b, c).m2
  {
    AddQuadFields(s', p.x, p.y, Sq(p.x));
    PointMoments(p, a, b, c);
    MomentGrows(q, q', X2Residual(p, a, b, c), s.sx2y, s'.sx2y, Sq(p.x) * p.y,
      s.sx4, s.sx3, s.sx2, s'.sx4, s'.sx3, s'.sx2, Sq(p.x) * Sq(p.x), Sq(p.x) * p.x, Sq(p.x), a, b, c);
  }

  lemma {:induction false} XMomentExpand(ps: seq<Point>, a: real, b: real, c: real)
    ensures ResidualMoments(ps, a, b, c).m1 == MomentsForm(QSums(ps), |ps|, a, b, c).m1
    decreases |ps|
  {
    if |ps| == 0 {
      CombOfNothing(a, b, c);
    } else {
      XMomentExpand(ps[..|ps| - 1], a, b, c);
      XMomentStep(ps, a, b, c);
    }
  }

  lemma {:induction false} XMomentStep(ps: seq<Point>, a: real, b: real, c: real)
    requires |ps| > 0
    requires var ps' := ps[..|ps| - 1];
      ResidualMoments(ps', a, b, c).m1 == MomentsForm(QSums(ps'), |ps'|, a, b, c).m1
    ensures ResidualMoments(ps, a, b, c).m1 == MomentsForm(QSums(ps), |ps|, a, b, c).m1
  {
    var ps' := ps[..|ps| - 1];
    MomentsOfLast(ps, a, b, c);
    XMomentStepPoint(ResidualMoments(ps, a, b, c).m1, ResidualMoments(ps', a, b, c).m1, QSums(ps), QSums(ps'), |ps'|, |ps|, ps[|ps| - 1], a, b, c);
  }

  lemma {:induction false} XMomentStepPoint(q: real, q': real, s: QuadSums, s': QuadSums, n': nat, n: nat, p: Point, a: real, b: real, c: real)
    requires q' == MomentsForm(s', n', a, b, c).m1 && n == n' + 1
    requires q == q' + XResidual(p, a, b, c) && s == AddQuad(s', p.x, p.y, Sq(p.x))
    ensures q == MomentsForm(s, n, a, b, c).m1
  {
    AddQuadFields(s', p.x, p.y, Sq(p.x));
    PointMoments(p, a, b, c);
    MomentGrows(q, q', XResidual(p, a, b, c), s.sxy, s'.sxy, p.x * p.y,
      s.sx3, s.sx2, s.sx, s'.sx3, s'.sx2, s'.sx, Sq(p.x) * p.x, Sq(p.x), p.x, a, b, c);
  }

  lemma {:induction false} SumExpand(ps: seq<Point>, a: real, b: real, c: real)
    ensures ResidualMoments(ps, a, b, c).m0 == MomentsForm(QSums(ps), |ps|, a, b, c).m0
    decreases |ps|
  {
    if |ps| == 0 {
      CombOfNothing(a, b, c);
    } else {
      SumExpand(ps[..|ps| - 1], a, b, c);
      SumStep(ps, a, b, c);
    }
  }

  lemma {:induction false} SumStep(ps: seq<Point>, a: real, b: real, c: real)
    requires |ps| > 0
    requires var ps' := ps[..|ps| - 1];
      ResidualMoments(ps', a, b, c).m0 == MomentsForm(QSums(ps'), |ps'|, a, b, c).m0
    ensures ResidualMoments(ps, a, b, c).m0 == MomentsForm(QSums(ps), |ps|, a, b, c).m0
  {
    var ps' := ps[..|ps| - 1];
    MomentsOfLast(ps, a, b, c);
    SumStepPoint(ResidualMoments(ps, a, b, c).m0, ResidualMoments(ps', a, b, c).m0, QSums(ps), QSums(ps'), |ps'|, |ps|, ps[|ps| - 1], a, b, c);
  }

  lemma {:induction false} SumStepPoint(q: real, q': real, s: QuadSums, s': QuadSums, n': nat, n: nat, p: Point, a: real, b: real, c: real)
    requires q' == MomentsForm(s', n', a, b, c).m0 && n == n' + 1
    requires q == q' + QResidual(p, a, b, c) && s == AddQuad(s', p.x, p.y, Sq(p.x))
    ensures q == MomentsForm(s, n, a, b, c).m0
  {
    CountStep(n, n');
    AddQuadFields(s', p.x, p.y, Sq(p.x));
    PointMoments(p, a, b, c);
    MomentGrows(q, q', QResidual(p, a, b, c), s.sy, s'.sy, p.y,
      s.sx2, s.sx, n as real, s'.sx2, s'.sx, n' as real, Sq(p.x), p.x, 1.0, a, b, c);
  }

  lemma {:induction false} MomentsOfLast(ps: seq<Point>, a: real, b: real, c: real)
    requires |ps| > 0
    ensures var ps', p := ps[..|ps| - 1], ps[|ps| - 1];
      var k' := ResidualMoments(ps', a, b, c);
      && ResidualMoments(ps, a, b, c) == Moments(k'.m0 + QResidual(p, a, b, c), k'.m1 + XResidual(p, a, b, c), k'.m2 + X2Residual(p, a, b, c))
      && QSums(ps) == AddQuad(QSums(ps'), p.x, p.y, Sq(p.x))
  {
  }

  /**
   * A moment `v - Comb(a, b, c, t)` grows by the point's `dv - Comb(a, b, c, dt)`
   * when its right-hand side `v` grows by `dv` and its row `t` by `dt`.
   */
  lemma {:induction false} MomentGrows(q: real, q': real, e: real, v: real, v': real, dv: real,
                                       t0: real, t1: real, t2: real, t0': real, t1': real, t2': real,
                                       d0: real, d1: real, d2: real, a: real, b: real, c: real)
    requires q' == v' - Comb(a, b, c, t0', t1', t2') && q == q' + e && e == dv - Comb(a, b, c, d0, d1, d2)
    requires v == v' + dv && t0 == t0' + d0 && t1 == t1' + d1 && t2 == t2' + d2
    ensures q == v - Comb(a, b, c, t0, t1, t2)
  {
    CombAdd(a, b, c, t0', t1', t2', d0, d1, d2);
  }

  /** What one point contributes to each of the three moments. */
  lemma {:induction false} PointMoments(p: Point, a: real, b: real, c: real)
    ensures QResidual(p, a, b, c) == p.y - Comb(a, b, c, Sq(p.x), p.x, 1.0)
    ensures XResidual(p, a, b, c) == p.x * p.y - Comb(a, b, c, Sq(p.x) * p.x, Sq(p.x), p.x)
    ensures X2Residual(p, a, b, c) == Sq(p.x) * p.y - Comb(a, b, c, Sq(p.x) * Sq(p.x), Sq(p.x) * p.x, Sq(p.x))
  {
    var x, y, x2, e := p.x, p.y, Sq(p.x), QResidual(p, a, b, c);
    assert e == y - (a * x2 + b * x + c);
    assert x * e == x * y - (a * (x2 * x) + b * x2 + c * x);
    assert x2 * e == x2 * y - (a * (x2 * x2) + b * (x2 * x) + c * x2);
  }

  /**
   * The coefficients `solve3` returns make all three residual moments zero:
   * the residuals sum to zero, and so do they weighted by x and by x².
   */
  lemma {:induction false} QuadraticNormalEquations(points: seq<Point>)
    requires |points| > 0 && Coefficients(points).Some?
    ensures var f := QuadraticFit(points);
      && f.a.Fin? && f.b.Fin? && f.c.value.Fin?
      && ResidualMoments(points, f.a.r, f.b.r, f.c.value.r) == Moments(0.0, 0.0, 0.0)
  {
    var s, n, sol := QSums(points), |points|, Coefficients(points).value;
    QuadraticSolvesNormalEquations(points);
    var a, b, c := sol[0], sol[1], sol[2];
    MomentsExpand(points, a, b, c);
    var sys := Sys(NormalMatrix(s, n), NormalRhs(s));
    RowSolved(sys, 0, sol, s.sx2y);
    RowSolved(sys, 1, sol, s.sxy);
    RowSolved(sys, 2, sol, s.sy);
  }

  /** Equation `i` of a solved system, as a `Comb` of the solution. */
  lemma {:induction false} RowSolved(sys: Sys, i: nat, x: seq<real>, v: real)
    requires Valid(sys) && i < 3 && Solves(sys, x) && v == sys.v[i]
    ensures Comb(x[0], x[1], x[2], sys.m[i][0], sys.m[i][1], sys.m[i][2]) == v
  {
    assert Lhs(sys, i, x) == v;
    Dot3(sys.m[i], x);
    CombCommutes(x[0], x[1], x[2], sys.m[i][0], sys.m[i][1], sys.m[i][2]);
  }

  /** The total sum of squares split into residual, fitted and the three cross parts. */
  function QSplitForm(r: real, g: real, k: Moments, a: real, b: real, c: real, m: real): real {
    r + g + 2.0 * a * k.m2 + 2.0 * b * k.m1 + 2.0 * (c - m) * k.m0
  }

  /**
   * Point by point `(y - m)² = e² + (ŷ - m)² + 2 e (ŷ - m)` with `ŷ - m = a x² + b x + (c - m)`, summed.
   */
  lemma {:induction false} QuadSquaresSplit(ps: seq<Point>, a: real, b: real, c: real, m: real)
    ensures SSTot(ps, m) == QSplitForm(SSResQuad(ps, a, b, c), SSRegQuad(ps, a, b, c, m),
      ResidualMoments(ps, a, b, c), a, b, c, m)
    decreases |ps|
  {
    if |ps| > 0 {
      var ps' := ps[..|ps| - 1];
      QuadSquaresSplit(ps', a, b, c, m);
      QSplitOfLast(ps, a, b, c, m);
      QSplitStep(SSTot(ps, m), SSTot(ps', m), SSResQuad(ps, a, b, c), SSResQuad(ps', a, b, c),
        SSRegQuad(ps, a, b, c, m), SSRegQuad(ps', a, b, c, m), ResidualMoments(ps, a, b, c), ResidualMoments(ps', a, b, c),
        ps[|ps| - 1], a, b, c, m);
    }
  }

  lemma {:induction false} QSplitOfLast(ps: seq<Point>, a: real, b: real, c: real, m: real)
    requires |ps| > 0
    ensures var ps', p := ps[..|ps| - 1], ps[|ps| - 1];
      var q, k' := QuadAt(a, b, c, p.x), ResidualMoments(ps', a, b, c);
      && SSTot(ps, m) == SSTot(ps', m) + Sq(p.y - m)
      && SSResQuad(ps, a, b, c) == SSResQuad(ps', a, b, c) + Sq(p.y - q)
      && SSRegQuad(ps, a, b, c, m) == SSRegQuad(ps', a, b, c, m) + Sq(q - m)
      && ResidualMoments(ps, a, b, c) == Moments(k'.m0 + QResidual(p, a, b, c), k'.m1 + XResidual(p, a, b, c), k'.m2 + X2Residual(p, a, b, c))
  {
  }

  lemma {:induction false} QSplitStep(t: real, t': real, r: real, r': real, g: real, g': real, k: Moments, k': Moments,
                                      p: Point, a: real, b: real, c: real, m: real)
    requires var q := QuadAt(a, b, c, p.x);
      && t == t' + Sq(p.y - m) && r == r' + Sq(p.y - q) && g == g' + Sq(q - m)
      && k == Moments(k'.m0 + QResidual(p, a, b, c), k'.m1 + XResidual(p, a, b, c), k'.m2 + X2Residual(p, a, b, c))
    requires t' == QSplitForm(r', g', k', a, b, c, m)
    ensures t == QSplitForm(r, g, k, a, b, c, m)
  {
    QuadPointSplit(p.y, QuadAt(a, b, c, p.x), QResidual(p, a, b, c), p.x, Sq(p.x), a, b, c, m);
  }

  lemma {:induction false} QuadPointSplit(y: real, q: real, e: real, x: real, x2: real, a: real, b: real, c: real, m: real)
    requires q == QuadAt(a, b, c, x) && e == y - q && x2 == Sq(x)
    ensures Sq(y - m) == Sq(e) + Sq(q - m) + 2.0 * a * (x2 * e) + 2.0 * b * (x * e) + 2.0 * (c - m) * e
  {
    assert q - m == a * x2 + b * x + (c - m);
    assert Sq(y - m) == Sq(e) + Sq(q - m) + 2.0 * e * (q - m);
  }

  /**
   * For the solved parabola the total sum of squares is the residual sum of
   * squares plus the spread of the fitted values about ȳ.
   */
  lemma {:induction false} QuadraticSquaresSplit(points: seq<Point>)
    requires |points| > 0 && Coefficients(points).Some?
    ensures var f, yBar := QuadraticFit(points), Mean(QSums(points).sy, |points|);
      && f.a.Fin? && f.b.Fin? && f.c.value.Fin?
      && SSTot(points, yBar) == SSResQuad(points, f.a.r, f.b.r, f.c.value.r) + SSRegQuad(points, f.a.r, f.b.r, f.c.value.r, yBar)
  {
    var f, yBar := QuadraticFit(points), Mean(QSums(points).sy, |points|);
    QuadraticNormalEquations(points);
    var a, b, c := f.a.r, f.b.r, f.c.value.r;
    QuadSquaresSplit(points, a, b, c, yBar);
  }

  /**
   * The quadratic fit reports an R² in [0, 1] whenever it has points at all:
   * a singular system reports 0, and otherwise the residual sum of squares is
   * at most the total one, because the parabola has a constant term.
   */
  lemma {:induction false} QuadraticRSquaredInUnit(points: seq<Point>)
    ensures var f := QuadraticFit(points);
      |points| > 0 ==> f.r2.Fin? && 0.0 <= f.r2.r <= 1.0
  {
    if |points| > 0 && Coefficients(points).Some? {
      var f, yBar := QuadraticFit(points), Mean(QSums(points).sy, |points|);
      QuadraticSquaresSplit(points);
      var a, b, c := f.a.r, f.b.r, f.c.value.r;
      assert f == QuadraticWith(points, a, b, c);
      SSResQuadNonNegative(points, a, b, c);
      SSRegQuadNonNegative(points, a, b, c, yBar);
      RSquaredInUnit(SSTot(points, yBar), SSResQuad(points, a, b, c));
    }
  }

  // ---------------------------------------------------------------- exact parabolas

  predicate OnParabola(ps: seq<Point>, alpha: real, beta: real, gamma: real) {
    forall i :: 0 <= i < |ps| ==> ps[i].y == QuadAt(alpha, beta, gamma, ps[i].x)
  }

  /** `alpha p + beta q + gamma r`. */
  function Comb(alpha: real, beta: real, gamma: real, p: real, q: real, r: real): real {
    alpha * p + beta * q + gamma * r
  }

  /** All three normal equations are met by the parabola the points lie on. */
  predicate NormalSumsMet(s: QuadSums, n: nat, alpha: real, beta: real, gamma: real) {
    && s.sx2y == Comb(alpha, beta, gamma, s.sx4, s.sx3, s.sx2)
    && s.sxy == Comb(alpha, beta, gamma, s.sx3, s.sx2, s.sx)
    && s.sy == Comb(alpha, beta, gamma, s.sx2, s.sx, n as real)
  }

  lemma {:induction false} ParabolaSums(ps: seq<Point>, alpha: real, beta: real, gamma: real)
    requires OnParabola(ps, alpha, beta, gamma)
    ensures NormalSumsMet(QSums(ps), |ps|, alpha, beta, gamma)
    ensures SSResQuad(ps, alpha, beta, gamma) == 0.0
    decreases |ps|
  {
    if |ps| == 0 {
      CombOfNothing(alpha, beta, gamma);
    } else {
      var ps', p := ps[..|ps| - 1], ps[|ps| - 1];
      assert OnParabola(ps', alpha, beta, gamma) by {
        assert forall i :: 0 <= i < |ps'| ==> ps'[i] == ps[i];
      }
      ParabolaSums(ps', alpha, beta, gamma);
      var s', x2 := QSums(ps'), Sq(p.x);
      assert QSums(ps) == AddQuad(s', p.x, p.y, x2);
      AddQuadFields(s', p.x, p.y, x2);
      ParabolaPoint(p.x, p.y, x2, alpha, beta, gamma);
      CountStep(|ps|, |ps'|);
      NormalSumsStep(s', |ps'|, |ps|, p.x, p.y, x2, alpha, beta, gamma);
      assert SSResQuad(ps, alpha, beta, gamma) == SSResQuad(ps', alpha, beta, gamma) + Sq(p.y - QuadAt(alpha, beta, gamma, p.x));
    }
  }

  lemma {:induction false} CountStep(n: nat, n': nat)
    requires n == n' + 1
    ensures n as real == n' as real + 1.0
  {
  }

  /** The sums grow by one point on the parabola and stay on it. */
  lemma {:induction false} NormalSumsStep(s: QuadSums, n': nat, n: nat, x: real, y: real, x2: real,
                                          alpha: real, beta: real, gamma: real)
    requires NormalSumsMet(s, n', alpha, beta, gamma) && n as real == n' as real + 1.0
    requires x2 * y == Comb(alpha, beta, gamma, x2 * x2, x2 * x, x2)
    requires x * y == Comb(alpha, beta, gamma, x2 * x, x2, x)
    requires y == Comb(alpha, beta, gamma, x2, x, 1.0)
    ensures NormalSumsMet(AddQuad(s, x, y, x2), n, alpha, beta, gamma)
  {
    AddQuadFields(s, x, y, x2);
    CombAdd(alpha, beta, gamma, s.sx4, s.sx3, s.sx2, x2 * x2, x2 * x, x2);
    CombAdd(alpha, beta, gamma, s.sx3, s.sx2, s.sx, x2 * x, x2, x);
    CombAdd(alpha, beta, gamma, s.sx2, s.sx, n' as real, x2, x, 1.0);
  }

  /** What one point on the parabola adds to each side of the three equations. */
  lemma {:induction false} ParabolaPoint(x: real, y: real, x2: real, alpha: real, beta: real, gamma: real)
    requires y == QuadAt(alpha, beta, gamma, x) && x2 == Sq(x)
    ensures x2 * y == Comb(alpha, beta, gamma, x2 * x2, x2 * x, x2)
    ensures x * y == Comb(alpha, beta, gamma, x2 * x, x2, x)
    ensures y == Comb(alpha, beta, gamma, x2, x, 1.0)
    ensures Sq(y - QuadAt(alpha, beta, gamma, x)) == 0.0
  {
    assert y == alpha * x2 + beta * x + gamma;
    assert x2 * y == alpha * (x2 * x2) + beta * (x2 * x) + gamma * x2;
    assert x * y == alpha * (x2 * x) + beta * x2 + gamma * x;
  }

  lemma {:induction false} CombAdd(alpha: real, beta: real, gamma: real, p: real, q: real, r: real, p': real, q': real, r': real)
    ensures Comb(alpha, beta, gamma, p, q, r) + Comb(alpha, beta, gamma, p', q', r')
      == Comb(alpha, beta, gamma, p + p', q + q', r + r')
  {
  }

  lemma {:induction false} CombOfNothing(alpha: real, beta: real, gamma: real)
    ensures Comb(alpha, beta, gamma, 0.0, 0.0, 0.0) == 0.0
  {
  }

  /** The parabola solves the normal equations of points that lie on it. */
  lemma {:induction false} ParabolaSolvesNormal(s: QuadSums, n: nat, alpha: real, beta: real, gamma: real)
    requires NormalSumsMet(s, n, alpha, beta, gamma)
    ensures Solves(Sys(NormalMatrix(s, n), NormalRhs(s)), [alpha, beta, gamma])
  {
    var sys := Sys(NormalMatrix(s, n), NormalRhs(s));
    var x := [alpha, beta, gamma];
    forall i | 0 <= i < 3
      ensures Lhs(sys, i, x) == sys.v[i]
    {
      var row := sys.m[i];
      Dot3(row, x);
      CombCommutes(alpha, beta, gamma, row[0], row[1], row[2]);
    }
  }

  lemma {:induction false} CombCommutes(alpha: real, beta: real, gamma: real, p: real, q: real, r: real)
    ensures p * alpha + q * beta + r * gamma == Comb(alpha, beta, gamma, p, q, r)
  {
  }

  /**
   * Points on a parabola are fitted by exactly that parabola, with R² = 1,
   * whenever `solve3` finds a solution.
   */
  lemma {:induction false} ParabolaFitIsExact(points: seq<Point>, alpha: real, beta: real, gamma: real)
    requires |points| > 0 && OnParabola(points, alpha, beta, gamma) && Coefficients(points).Some?
    ensures QuadraticFit(points) == Fit(Quadratic, Fin(alpha), Fin(beta), Some(Fin(gamma)), Fin(1.0), |points|)
  {
    var s := QSums(points);
    ParabolaSums(points, alpha, beta, gamma);
    ParabolaSolvesNormal(s, |points|, alpha, beta, gamma);
    Solve3Unique(NormalMatrix(s, |points|), NormalRhs(s), [alpha, beta, gamma]);
    var yBar := Mean(s.sy, |points|);
    SSTotNonNegative(points, yBar);
    RSquaredAtMostOne(SSTot(points, yBar), SSResQuad(points, alpha, beta, gamma));
  }
}
