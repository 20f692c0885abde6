/**
 * What `fitNicely` (src/state/store.ts) computes: the candidate X and Y
 * values (the displayed points, the ends of the fitted curve over the
 * padded X range and its vertex, the prediction point) and the padded
 * domains over them. The store's method builds the same lists by pushes.
 */
module Fitting {
  import opened Wrappers
  import opened Numbers
  import opened Types
  import opened Transforms
  import opened Regression
  import opened QuadraticRegression
  import opened Prediction

  /** The curve gate: regression on, a result, and finite `a` and `b`. */
  predicate CurveShown(reg: RegressionSpec) {
    reg.enabled && reg.result.Some? && reg.result.value.a.Fin? && reg.result.value.b.Fin?
  }

  /** The quadratic branch is taken for the quadratic model with a finite `c`; otherwise the line is evaluated. */
  predicate ParabolaShown(fit: Fit) { fit.model == Quadratic && CoefC(fit).Fin? }

  /** The fitted curve at `x` as `fitNicely` evaluates it. */
  function CurveAt(fit: Fit, x: real): real
    requires fit.a.Fin? && fit.b.Fin?
  {
    if ParabolaShown(fit) then QuadAt(fit.a.r, fit.b.r, CoefC(fit).r, x) else LineAt(fit.a.r, fit.b.r, x)
  }

  /** `-b / (2 * a)` */
  function Vertex(a: real, b: real): real
    requires a != 0.0
  {
    -b / (2.0 * a)
  }

  /** The vertex is pushed only for a parabola with `a !== 0` whose vertex lies strictly inside `d`. */
  predicate VertexShown(fit: Fit, d: Interval)
    requires fit.a.Fin? && fit.b.Fin?
  {
    ParabolaShown(fit) && fit.a.r != 0.0 && d.lo < Vertex(fit.a.r, fit.b.r) < d.hi
  }

  /** The Y values pushed for the curve over the X range `d`. */
  function CurveValues(fit: Fit, d: Interval): (ys: seq<real>)
    requires fit.a.Fin? && fit.b.Fin?
    ensures |ys| >= 2 && ys[0] == CurveAt(fit, d.lo) && ys[1] == CurveAt(fit, d.hi)
    ensures VertexShown(fit, d) <==> |ys| == 3
    ensures VertexShown(fit, d) ==> ys[2] == CurveAt(fit, Vertex(fit.a.r, fit.b.r))
  {
    var ends := [CurveAt(fit, d.lo), CurveAt(fit, d.hi)];
    if VertexShown(fit, d) then ends + [CurveAt(fit, Vertex(fit.a.r, fit.b.r))] else ends
  }

  function CurveYs(reg: RegressionSpec, d: Interval): seq<real> {
    if CurveShown(reg) then CurveValues(reg.result.value, d) else []
  }

  /** The prediction point, centred on the padded X range of the displayed points. */
  function FitPrediction(display: seq<Point>, reg: RegressionSpec, pred: PredictionSpec, sqrt: real -> real): Option<Point> {
    Predicted(pred, reg, AutoDomain(Xs(display), DefaultPad), sqrt)
  }

  function Pushed(p: Option<Point>, onX: bool): seq<real> {
    if p.None? then [] else if onX then [p.value.x] else [p.value.y]
  }

  /** `xValues` when the domains are taken. */
  function FitXs(display: seq<Point>, p: Option<Point>): seq<real> {
    Xs(display) + Pushed(p, true)
  }

  /** `yValues` when the domains are taken. */
  function FitYs(display: seq<Point>, reg: RegressionSpec, p: Option<Point>): seq<real> {
    Ys(display) + CurveYs(reg, AutoDomain(Xs(display), DefaultPad)) + Pushed(p, false)
  }

  /** The view after `fitNicely`: both domains set, nothing else changed. */
  function NiceView(points: seq<Point>, view: ViewSpec, reg: RegressionSpec, pred: PredictionSpec,
                    log10: real -> real, sqrt: real -> real): (r: ViewSpec)
    ensures r == view.(domainX := r.domainX, domainY := r.domainY)
    ensures r.domainX.Some? && r.domainX.value.lo < r.domainX.value.hi
    ensures r.domainY.Some? && r.domainY.value.lo < r.domainY.value.hi
  {
    var display := DisplayPairs(points, view, log10);
    var p := FitPrediction(display, reg, pred, sqrt);
    view.(domainX := Some(AutoDomain(FitXs(display, p), DefaultPad)),
          domainY := Some(AutoDomain(FitYs(display, reg, p), DefaultPad)))
  }

  // ---------------------------------------------------------------- what the domains show

  predicate Within(v: real, d: Interval) { d.lo <= v <= d.hi }

  /** Every displayed point lies inside the new domains. */
  lemma {:induction false} NiceViewShowsData(points: seq<Point>, view: ViewSpec, reg: RegressionSpec, pred: PredictionSpec,
                                             log10: real -> real, sqrt: real -> real)
    ensures var r, display := NiceView(points, view, reg, pred, log10, sqrt), DisplayPairs(points, view, log10);
      forall i :: 0 <= i < |display| ==> Within(display[i].x, r.domainX.value) && Within(display[i].y, r.domainY.value)
  {
    var display := DisplayPairs(points, view, log10);
    CandidatesShowData(display, reg, FitPrediction(display, reg, pred, sqrt));
  }

  /** The prediction point, when there is one, lies inside the new domains. */
  lemma {:induction false} NiceViewShowsPrediction(points: seq<Point>, view: ViewSpec, reg: RegressionSpec, pred: PredictionSpec,
                                                   log10: real -> real, sqrt: real -> real)
    ensures var r, display := NiceView(points, view, reg, pred, log10, sqrt), DisplayPairs(points, view, log10);
      var p := FitPrediction(display, reg, pred, sqrt);
      p.Some? ==> Within(p.value.x, r.domainX.value) && Within(p.value.y, r.domainY.value)
  {
    var display := DisplayPairs(points, view, log10);
    CandidatesShowPrediction(display, reg, FitPrediction(display, reg, pred, sqrt));
  }

  /**
   * The fitted curve, across the whole padded X range of the displayed
   * points, stays inside the new Y domain: its ends and (for a parabola
   * whose vertex is inside) its vertex bound it there.
   */
  lemma {:induction false} NiceViewShowsCurve(points: seq<Point>, view: ViewSpec, reg: RegressionSpec, pred: PredictionSpec,
                                              log10: real -> real, sqrt: real -> real, x: real)
    requires CurveShown(reg)
    requires Within(x, AutoDomain(Xs(DisplayPairs(points, view, log10)), DefaultPad))
    ensures Within(CurveAt(reg.result.value, x), NiceView(points, view, reg, pred, log10, sqrt).domainY.value)
  {
    var display := DisplayPairs(points, view, log10);
    CandidatesShowCurve(display, reg, FitPrediction(display, reg, pred, sqrt), x);
  }

  lemma {:induction false} CandidatesShowData(display: seq<Point>, reg: RegressionSpec, p: Option<Point>)
    ensures var dx, dy := AutoDomain(FitXs(display, p), DefaultPad), AutoDomain(FitYs(display, reg, p), DefaultPad);
      forall i :: 0 <= i < |display| ==> Within(display[i].x, dx) && Within(display[i].y, dy)
  {
    var xs, ys := FitXs(display, p), FitYs(display, reg, p);
    forall i | 0 <= i < |display|
      ensures Within(display[i].x, AutoDomain(xs, DefaultPad)) && Within(display[i].y, AutoDomain(ys, DefaultPad))
    {
      assert xs[i] == Xs(display)[i] == display[i].x;
      assert ys[i] == Ys(display)[i] == display[i].y;
      DomainHolds(xs, i);
      DomainHolds(ys, i);
    }
  }

  /** The padded domain of a list holds each of its values. */
  lemma {:induction false} DomainHolds(vals: seq<real>, k: nat)
    requires k < |vals|
    ensures Within(vals[k], AutoDomain(vals, DefaultPad))
  {
  }

  lemma {:induction false} CandidatesShowPrediction(display: seq<Point>, reg: RegressionSpec, p: Option<Point>)
    ensures var dx, dy := AutoDomain(FitXs(display, p), DefaultPad), AutoDomain(FitYs(display, reg, p), DefaultPad);
      p.Some? ==> Within(p.value.x, dx) && Within(p.value.y, dy)
  {
    if p.Some? {
      var xs, ys := FitXs(display, p), FitYs(display, reg, p);
      assert xs[|xs| - 1] == p.value.x && ys[|ys| - 1] == p.value.y;
      DomainHolds(xs, |xs| - 1);
      DomainHolds(ys, |ys| - 1);
    }
  }

  lemma {:induction false} CandidatesShowCurve(display: seq<Point>, reg: RegressionSpec, p: Option<Point>, x: real)
    requires CurveShown(reg) && Within(x, AutoDomain(Xs(display), DefaultPad))
    ensures Within(CurveAt(reg.result.value, x), AutoDomain(FitYs(display, reg, p), DefaultPad))
  {
    var d := AutoDomain(Xs(display), DefaultPad);
    var fit := reg.result.value;
    var cs := CurveValues(fit, d);
    var i, j := CurveBracketed(fit, d, x);
    var ys := FitYs(display, reg, p);
    var k := |Ys(display)|;
    assert ys[k + i] == cs[i] && ys[k + j] == cs[j];
    DomainHolds(ys, k + i);
    DomainHolds(ys, k + j);
  }

  /** A value at `x` in `d` lies between two of the curve's candidate values. */
  lemma {:induction false} CurveBracketed(fit: Fit, d: Interval, x: real) returns (i: nat, j: nat)
    requires fit.a.Fin? && fit.b.Fin? && Within(x, d)
    ensures var cs := CurveValues(fit, d); i < |cs| && j < |cs| && cs[i] <= CurveAt(fit, x) <= cs[j]
  {
    var a, b := fit.a.r, fit.b.r;
    var cs := CurveValues(fit, d);
    if ParabolaShown(fit) && a != 0.0 {
      var c := CoefC(fit).r;
      i, j := ParabolaBracketed(a, b, c, d.lo, d.hi, x);
    } else if ParabolaShown(fit) {
      var c := CoefC(fit).r;
      FlatParabola(b, c, d.lo);
      FlatParabola(b, c, d.hi);
      FlatParabola(b, c, x);
      i, j := LineBracketed(b, c, d.lo, d.hi, x);
    } else {
      i, j := LineBracketed(a, b, d.lo, d.hi, x);
    }
  }

  lemma {:induction false} FlatParabola(b: real, c: real, x: real)
    ensures QuadAt(0.0, b, c, x) == LineAt(b, c, x)
  {
  }

  /** A line on `[lo, hi]` lies between its values at the two ends. */
  lemma {:induction false} LineBracketed(a: real, b: real, lo: real, hi: real, x: real) returns (i: nat, j: nat)
    requires lo <= x <= hi
    ensures var cs := [LineAt(a, b, lo), LineAt(a, b, hi)]; i < 2 && j < 2 && cs[i] <= LineAt(a, b, x) <= cs[j]
  {
    var fl, fh, fx := LineAt(a, b, lo), LineAt(a, b, hi), LineAt(a, b, x);
    i, j := BracketOfTwo(a, b, x, lo, hi, fx, fl, fh);
  }

  lemma {:induction false} NonNegativeProduct(a: real, t: real)
    requires a >= 0.0 && t >= 0.0
    ensures a * t >= 0.0
  {
  }

  /**
   * A parabola with `a != 0` on `[lo, hi]` lies between two of its values
   * at `lo`, at `hi` and, when `lo < vertex < hi`, at the vertex.
   */
  lemma {:induction false} ParabolaBracketed(a: real, b: real, c: real, lo: real, hi: real, x: real) returns (i: nat, j: nat)
    requires a != 0.0 && lo <= x <= hi
    ensures var v := Vertex(a, b);
      var cs := [QuadAt(a, b, c, lo), QuadAt(a, b, c, hi)] + if lo < v < hi then [QuadAt(a, b, c, v)] else [];
      i < |cs| && j < |cs| && cs[i] <= QuadAt(a, b, c, x) <= cs[j]
  {
    var v := Vertex(a, b);
    var fx, fl, fh, fv := QuadAt(a, b, c, x), QuadAt(a, b, c, lo), QuadAt(a, b, c, hi), QuadAt(a, b, c, v);
    // `f(t) = a * Sq(t - v) + f(v)`: order the squares, then scale by `a`.
    VertexForm(a, b, c, x);
    VertexForm(a, b, c, lo);
    VertexForm(a, b, c, hi);
    var u, ul, uh := x - v, lo - v, hi - v;
    if lo < v < hi {
      SqNonNegative(u);
      if u <= 0.0 {
        SqNonIncreasing(u, ul);
      } else {
        SqNonDecreasing(u, uh);
      }
      i, j := BracketOfThree(a, fv, Sq(u), Sq(ul), Sq(uh), fx, fl, fh);
      assert [fl, fh] + [fv] == [fl, fh, fv];
    } else {
      if v <= lo {
        SqNonDecreasing(ul, u);
        SqNonDecreasing(u, uh);
      } else {
        SqNonIncreasing(uh, u);
        SqNonIncreasing(u, ul);
      }
      i, j := BracketOfTwo(a, fv, Sq(u), Sq(ul), Sq(uh), fx, fl, fh);
      assert [fl, fh] + [] == [fl, fh];
    }
  }

  /** `fs = a s + k` with `0 <= s` below one of `sl`, `sh` lies between two of `fl = a sl + k`, `fh = a sh + k` and `k`. */
  lemma {:induction false} BracketOfThree(a: real, k: real, s: real, sl: real, sh: real, fs: real, fl: real, fh: real)
    returns (i: nat, j: nat)
    requires 0.0 <= s && (s <= sl || s <= sh)
    requires fs == a * s + k && fl == a * sl + k && fh == a * sh + k
    ensures var cs := [fl, fh, k]; i < 3 && j < 3 && cs[i] <= fs <= cs[j]
  {
    ScaledOrder(a, k, 0.0, s, k, fs);
    var m := if s <= sl then 0 else 1;
    if s <= sl {
      ScaledOrder(a, k, s, sl, fs, fl);
    } else {
      ScaledOrder(a, k, s, sh, fs, fh);
    }
    if a >= 0.0 {
      i, j := 2, m;
    } else {
      i, j := m, 2;
    }
  }

  /** `fs = a s + k` with `s` between `sl` and `sh` lies between `fl = a sl + k` and `fh = a sh + k`. */
  lemma {:induction false} BracketOfTwo(a: real, k: real, s: real, sl: real, sh: real, fs: real, fl: real, fh: real)
    returns (i: nat, j: nat)
    requires sl <= s <= sh || sh <= s <= sl
    requires fs == a * s + k && fl == a * sl + k && fh == a * sh + k
    ensures var cs := [fl, fh]; i < 2 && j < 2 && cs[i] <= fs <= cs[j]
  {
    if sl <= s <= sh {
      ScaledOrder(a, k, sl, s, fl, fs);
      ScaledOrder(a, k, s, sh, fs, fh);
      i, j := if a >= 0.0 then 0 else 1, if a >= 0.0 then 1 else 0;
    } else {
      ScaledOrder(a, k, sh, s, fh, fs);
      ScaledOrder(a, k, s, sl, fs, fl);
      i, j := if a >= 0.0 then 1 else 0, if a >= 0.0 then 0 else 1;
    }
  }

  /** `f(x) = a (x - v)^2 + f(v)` for the vertex `v`. */
  lemma {:induction false} VertexForm(a: real, b: real, c: real, x: real)
    requires a != 0.0
    ensures QuadAt(a, b, c, x) == a * Sq(x - Vertex(a, b)) + QuadAt(a, b, c, Vertex(a, b))
  {
    var v := Vertex(a, b);
    assert b == -2.0 * a * v;
    VertexAlgebra(a, c, x, v);
  }

  lemma {:induction false} VertexAlgebra(a: real, c: real, x: real, v: real)
    ensures QuadAt(a, -2.0 * a * v, c, x) == a * Sq(x - v) + QuadAt(a, -2.0 * a * v, c, v)
  {
  }

  lemma {:induction false} SqNonDecreasing(p: real, q: real)
    requires 0.0 <= p <= q
    ensures Sq(p) <= Sq(q)
  {
    assert Sq(q) - Sq(p) == (q - p) * (q + p);
    NonNegativeProduct(q - p, q + p);
  }

  lemma {:induction false} SqNonIncreasing(p: real, q: real)
    requires q <= p <= 0.0
    ensures Sq(p) <= Sq(q)
  {
    SqNonDecreasing(-p, -q);
    assert Sq(-p) == Sq(p) && Sq(-q) == Sq(q);
  }

  /** `fs = a s + k` and `ft = a t + k` for `s <= t` are ordered as `s`, `t` for `a >= 0` and swapped for `a <= 0`. */
  lemma {:induction false} ScaledOrder(a: real, k: real, s: real, t: real, fs: real, ft: real)
    requires s <= t && fs == a * s + k && ft == a * t + k
    ensures a >= 0.0 ==> fs <= ft
    ensures a <= 0.0 ==> ft <= fs
  {
    assert ft - fs == a * (t - s);
    if a >= 0.0 {
      NonNegativeProduct(a, t - s);
    } else {
      NonNegativeProduct(-a, t - s);
    }
  }
}
