/**
 * The arithmetic of the chart component (src/components/ChartCanvas.tsx):
 * the pairs it plots, the predicted point it draws, the domains it shows,
 * and the wheel zoom, drag pan and double-click reset it writes back to
 * the store through `setDomains`.
 */
module Chart {
  import opened Wrappers
  import opened Numbers
  import opened Types
  import opened Transforms
  import opened Pairs
  import opened Prediction
  import opened Fitting
  import opened DatasetStore

  // ---------------------------------------------------------------- pairsRaw

  /**
   * `pairsRaw` scans like `numericPairs` but skips its final `dropNaNFinite`;
   * the scan keeps finite pairs only, so the two lists are the same.
   */
  lemma {:induction false} PairsRawIsNumericPairs(table: TableData, plot: PlotSpec)
    ensures DropNaNFinite(ColumnPairs(table.columns, plot)) == ColumnPairs(table.columns, plot)
  {
    DropNaNFiniteIdentity(ColumnPairs(table.columns, plot));
  }

  // ---------------------------------------------------------------- predicted

  /** The domain whose centre picks the quadratic root: the X override, or the padded range of the displayed X values. */
  function ChartCentre(view: ViewSpec, display: seq<Point>): Interval {
    if view.domainX.Some? then view.domainX.value else AutoDomain(Xs(display), DefaultPad)
  }

  /**
   * `predicted`, the point the chart draws. Without an X override it is the
   * point `fitNicely` makes room for.
   */
  function ChartPrediction(display: seq<Point>, view: ViewSpec, reg: RegressionSpec, pred: PredictionSpec, sqrt: real -> real)
    : (r: Option<Point>)
    ensures view.domainX.None? ==> r == FitPrediction(display, reg, pred, sqrt)
  {
    Predicted(pred, reg, ChartCentre(view, display), sqrt)
  }

  /** The centre matters only when a quadratic fit is solved for X. */
  lemma {:induction false} CentreOnlyForQuadraticY(pred: PredictionSpec, reg: RegressionSpec, c1: Interval, c2: Interval,
                                                   sqrt: real -> real)
    requires !(pred.mode == ModeY && reg.result.Some? && reg.result.value.model == Quadratic)
    ensures Predicted(pred, reg, c1, sqrt) == Predicted(pred, reg, c2, sqrt)
  {
  }

  // ---------------------------------------------------------------- the shown domains

  /** `view.domainX ?? autoDomain(xVals)` over the displayed and predicted X values. */
  function ShownX(view: ViewSpec, display: seq<Point>, p: Option<Point>): (r: Interval)
    ensures view.domainX.None? ==> r.lo < r.hi
  {
    if view.domainX.Some? then view.domainX.value else AutoDomain(Xs(display) + Pushed(p, true), DefaultPad)
  }

  /** `view.domainY ?? autoDomain(yVals)` over the displayed and predicted Y values. */
  function ShownY(view: ViewSpec, display: seq<Point>, p: Option<Point>): (r: Interval)
    ensures view.domainY.None? ==> r.lo < r.hi
  {
    if view.domainY.Some? then view.domainY.value else AutoDomain(Ys(display) + Pushed(p, false), DefaultPad)
  }

  /** Without overrides the chart shows every displayed point and the predicted point, on non-empty domains. */
  lemma {:induction false} AutoDomainsShowAll(view: ViewSpec, display: seq<Point>, p: Option<Point>)
    requires view.domainX.None? && view.domainY.None?
    ensures var dx, dy := ShownX(view, display, p), ShownY(view, display, p);
      && dx.lo < dx.hi && dy.lo < dy.hi
      && (forall i :: 0 <= i < |display| ==> Within(display[i].x, dx) && Within(display[i].y, dy))
      && (p.Some? ==> Within(p.value.x, dx) && Within(p.value.y, dy))
  {
    var xs, ys := Xs(display) + Pushed(p, true), Ys(display) + Pushed(p, false);
    forall i | 0 <= i < |display|
      ensures Within(display[i].x, AutoDomain(xs, DefaultPad)) && Within(display[i].y, AutoDomain(ys, DefaultPad))
    {
      assert xs[i] == Xs(display)[i] == display[i].x;
      assert ys[i] == Ys(display)[i] == display[i].y;
      DomainHolds(xs, i);
      DomainHolds(ys, i);
    }
    if p.Some? {
      assert xs[|xs| - 1] == p.value.x && ys[|ys| - 1] == p.value.y;
      DomainHolds(xs, |xs| - 1);
      DomainHolds(ys, |ys| - 1);
    }
  }

  // ---------------------------------------------------------------- wheel zoom

  /**
   * `Math.exp(-Math.sign(deltaY) * 0.1)`, the same factor for both axes:
   * scrolling down zooms in, scrolling up zooms out, no scroll leaves the scale.
   */
  function ZoomFactor(deltaY: real, exp: real -> real): (z: real)
    ensures ExpLaw(exp) ==> z > 0.0
    ensures ExpLaw(exp) && deltaY > 0.0 ==> z < 1.0
    ensures ExpLaw(exp) && deltaY < 0.0 ==> z > 1.0
    ensures ExpLaw(exp) && deltaY == 0.0 ==> z == 1.0
  {
    var t := -SignR(deltaY) * 0.1;
    assert deltaY > 0.0 ==> t < 0.0;
    assert deltaY < 0.0 ==> t > 0.0;
    assert deltaY == 0.0 ==> t == 0.0;
    exp(t)
  }

  /**
   * `[c + (lo - c) z, c + (hi - c) z]`: the domain scaled by `z` about the
   * cursor's data value `c`. The span is scaled by `z`, and for `z > 0` the
   * ends stay in order.
   */
  function Zoomed(d: Interval, c: real, z: real): (r: Interval)
    ensures r.hi - r.lo == Scaled(d.hi - d.lo, z)
    ensures z > 0.0 && d.lo < d.hi ==> r.lo < r.hi
  {
    ZoomSpan(d.lo, d.hi, c, z);
    PositiveProduct(d.hi - d.lo, z);
    Interval(c + (d.lo - c) * z, c + (d.hi - c) * z)
  }

  lemma {:induction false} ZoomSpan(lo: real, hi: real, c: real, z: real)
    ensures (c + (hi - c) * z) - (c + (lo - c) * z) == Scaled(hi - lo, z)
  {
    SpanScaled(lo - c, hi - c, z);
    assert (hi - c) - (lo - c) == hi - lo;
  }

  /** A span times a zoom factor. */
  function Scaled(span: real, z: real): real { span * z }

  lemma {:induction false} SpanScaled(p: real, q: real, z: real)
    ensures q * z - p * z == (q - p) * z
  {
  }

  lemma {:induction false} PositiveProduct(p: real, q: real)
    ensures p > 0.0 && q > 0.0 ==> p * q > 0.0
  {
  }

  /** The cursor's data value keeps its relative position in the domain. */
  lemma {:induction false} ZoomKeepsCursor(d: Interval, c: real, z: real)
    requires d.lo != d.hi && z != 0.0
    ensures var r := Zoomed(d, c, z); (c - r.lo) / (r.hi - r.lo) == (c - d.lo) / (d.hi - d.lo)
  {
    var r := Zoomed(d, c, z);
    SpanScaled(d.lo - c, 0.0, z);
    assert c - r.lo == (c - d.lo) * z;
    SpanScaled(d.lo - c, d.hi - c, z);
    assert r.hi - r.lo == (d.hi - d.lo) * z;
    ScaledRatio(c - d.lo, d.hi - d.lo, z);
  }

  lemma {:induction false} ScaledRatio(p: real, q: real, z: real)
    requires q != 0.0 && z != 0.0
    ensures (p * z) / (q * z) == p / q
  {
    assert q * z != 0.0;
  }

  /** Zooming by `z` and then by a factor `w` with `z * w == 1` about the same point gives the domain back. */
  lemma {:induction false} ZoomInverse(d: Interval, c: real, z: real, w: real)
    requires z * w == 1.0
    ensures Zoomed(Zoomed(d, c, z), c, w) == d
  {
    UnZoom(c, d.lo, z, w);
    UnZoom(c, d.hi, z, w);
  }

  lemma {:induction false} UnZoom(c: real, t: real, z: real, w: real)
    requires z * w == 1.0
    ensures c + ((c + (t - c) * z) - c) * w == t
  {
    var u := t - c;
    calc {
      c + ((c + u * z) - c) * w;
    ==
      c + (u * z) * w;
    ==
      c + u * (z * w);
    ==
      t;
    }
  }

  /** Opposite wheel notches give factors whose product is 1. */
  lemma {:induction false} OppositeNotches(deltaY: real, exp: real -> real)
    requires ExpLaw(exp)
    ensures ZoomFactor(deltaY, exp) * ZoomFactor(-deltaY, exp) == 1.0
  {
    assert -SignR(deltaY) * 0.1 + -SignR(-deltaY) * 0.1 == 0.0;
  }

  /**
   * The view after one wheel event: the shown domains (the overrides, or the
   * automatic domains) zoomed about the cursor's data point `(x0, y0)` and
   * written back as overrides.
   */
  function WheelView(view: ViewSpec, display: seq<Point>, p: Option<Point>, x0: real, y0: real,
                     deltaY: real, exp: real -> real): (v: ViewSpec)
    ensures v.domainX.Some? && v.domainY.Some?
    ensures v.(domainX := view.domainX, domainY := view.domainY) == view
  {
    var z := ZoomFactor(deltaY, exp);
    view.(domainX := Some(Zoomed(ShownX(view, display, p), x0, z)),
          domainY := Some(Zoomed(ShownY(view, display, p), y0, z)))
  }

  /**
   * The wheel handler: both shown domains `view.domainX ?? autoDomain(xVals)`
   * and `view.domainY ?? autoDomain(yVals)` are zoomed about the cursor's data
   * point `(x0, y0)` by the same factor and written back as overrides.
   */
  method OnWheel(s: Store, display: seq<Point>, p: Option<Point>, x0: real, y0: real, deltaY: real, exp: real -> real)
    modifies s
    ensures s.view == WheelView(old(s.view), display, p, x0, y0, deltaY, exp)
    ensures s.table == old(s.table) && s.plot == old(s.plot)
    ensures s.regression == old(s.regression) && s.prediction == old(s.prediction)
  {
    var zx := ZoomFactor(deltaY, exp);
    var zy := zx;
    var dx := ShownX(s.view, display, p);
    var dy := ShownY(s.view, display, p);
    s.SetDomains(Some(Zoomed(dx, x0, zx)), Some(Zoomed(dy, y0, zy)));
  }

  /**
   * One notch and then the opposite notch with the pointer held still give
   * the shown domains back, now as overrides. The pointer's data point does
   * not move between the two events, because the zoom keeps the cursor's
   * position in the domain (`ZoomKeepsCursor`).
   */
  lemma {:induction false} WheelThereAndBack(view: ViewSpec, display: seq<Point>, p: Option<Point>, x0: real, y0: real,
                                             deltaY: real, exp: real -> real)
    requires ExpLaw(exp)
    ensures var v := WheelView(WheelView(view, display, p, x0, y0, deltaY, exp), display, p, x0, y0, -deltaY, exp);
      v == view.(domainX := Some(ShownX(view, display, p)), domainY := Some(ShownY(view, display, p)))
  {
    OppositeNotches(deltaY, exp);
    WheelsWithInverseFactors(view, display, p, x0, y0, deltaY, exp);
  }

  lemma {:induction false} WheelsWithInverseFactors(view: ViewSpec, display: seq<Point>, p: Option<Point>, x0: real, y0: real,
                                                    deltaY: real, exp: real -> real)
    requires ZoomFactor(deltaY, exp) * ZoomFactor(-deltaY, exp) == 1.0
    ensures var v := WheelView(WheelView(view, display, p, x0, y0, deltaY, exp), display, p, x0, y0, -deltaY, exp);
      v == view.(domainX := Some(ShownX(view, display, p)), domainY := Some(ShownY(view, display, p)))
  {
    var z, w := ZoomFactor(deltaY, exp), ZoomFactor(-deltaY, exp);
    var dx, dy := ShownX(view, display, p), ShownY(view, display, p);
    var v := view.(domainX := Some(Zoomed(dx, x0, z)), domainY := Some(Zoomed(dy, y0, z)));
    assert WheelView(view, display, p, x0, y0, deltaY, exp) == v;
    assert ShownX(v, display, p) == Zoomed(dx, x0, z) && ShownY(v, display, p) == Zoomed(dy, y0, z);
    ZoomedBack(dx, dy, x0, y0, z, w);
    assert WheelView(v, display, p, x0, y0, -deltaY, exp) == v.(domainX := Some(dx), domainY := Some(dy));
  }

  lemma {:induction false} ZoomedBack(dx: Interval, dy: Interval, x0: real, y0: real, z: real, w: real)
    requires z * w == 1.0
    ensures Zoomed(Zoomed(dx, x0, z), x0, w) == dx && Zoomed(Zoomed(dy, y0, z), y0, w) == dy
  {
    ZoomInverse(dx, x0, z, w);
    ZoomInverse(dy, y0, z, w);
  }

  // ---------------------------------------------------------------- drag pan

  /** The domains captured when the button went down, and the button-down position. */
  datatype PanStart = PanStart(x: real, y: real, dx: Interval, dy: Interval)

  /** Both ends moved by the same data distance. */
  function Panned(d: Interval, delta: real): (r: Interval)
    ensures r.hi - r.lo == d.hi - d.lo
    ensures r.lo - d.lo == delta && r.hi - d.hi == delta
  {
    Interval(d.lo + delta, d.hi + delta)
  }

  /** Panning back by the opposite distance restores the domain, and two pans add up. */
  lemma {:induction false} PanInverse(d: Interval, s: real, t: real)
    ensures Panned(Panned(d, t), -t) == d
    ensures Panned(Panned(d, s), t) == Panned(d, s + t)
  {
  }

  /**
   * The mouse-move handler: nothing without a drag in progress; otherwise
   * the domains captured at button-down, moved by the data distances
   * `dxData`, `dyData` that the scales give for the pointer's offset.
   */
  method OnMouseMove(s: Store, panning: Option<PanStart>, dxData: real, dyData: real)
    modifies s
    ensures panning.None? ==> s.view == old(s.view)
    ensures panning.Some? ==> s.view == old(s.view).(domainX := Some(Panned(panning.value.dx, dxData)),
                                                     domainY := Some(Panned(panning.value.dy, dyData)))
    ensures s.table == old(s.table) && s.plot == old(s.plot)
    ensures s.regression == old(s.regression) && s.prediction == old(s.prediction)
  {
    if panning.None? {
      return;
    }
    var start := panning.value;
    var nx := Interval(start.dx.lo + dxData, start.dx.hi + dxData);
    var ny := Interval(start.dy.lo + dyData, start.dy.hi + dyData);
    s.SetDomains(Some(nx), Some(ny));
  }

  // ---------------------------------------------------------------- double-click

  /** The double-click handler clears both overrides. */
  method OnDoubleClick(s: Store)
    modifies s
    ensures s.view == old(s.view).(domainX := None, domainY := None)
    ensures s.table == old(s.table) && s.plot == old(s.plot)
    ensures s.regression == old(s.regression) && s.prediction == old(s.prediction)
  {
    s.SetDomains(None, None);
  }

  /** After a double-click the chart is back on its automatic domains. */
  lemma {:induction false} ResetShowsAutoDomains(view: ViewSpec, display: seq<Point>, p: Option<Point>)
    ensures var v := view.(domainX := None, domainY := None);
      && ShownX(v, display, p) == AutoDomain(Xs(display) + Pushed(p, true), DefaultPad)
      && ShownY(v, display, p) == AutoDomain(Ys(display) + Pushed(p, false), DefaultPad)
  {
  }
}
