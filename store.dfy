/**
 * The data set store (src/state/store.ts): one object holding the table,
 * the plot, regression and prediction settings and the view, with the
 * table edits, `setDomains`, `numericPairs`, `recomputeRegression` and
 * `fitNicely` as methods that update its fields.
 */
module DatasetStore {
  import opened Wrappers
  import opened Numbers
  import opened Types
  import opened Transforms
  import opened Regression
  import opened RegressionProperties
  import opened QuadraticRegression
  import opened QuadraticProperties
  import opened Prediction
  import opened Pairs
  import opened TableOps
  import opened Fitting

  const NoVarianceError: string := "Regression undefined (X has no variance)."

  /** `regression.model || 'linear'` */
  function ModelOf(reg: RegressionSpec): (m: RegressionModel)
    ensures reg.model.Some? ==> m == reg.model.value
    ensures reg.model.None? ==> m == Linear
  {
    if reg.model.Some? then reg.model.value else Linear
  }

  /** The regression of the selected model. */
  function FitFor(reg: RegressionSpec, points: seq<Point>): Fit {
    if ModelOf(reg) == Quadratic then QuadraticFit(points) else LinearFit(points, reg.throughZero)
  }

  /** The regression settings after `recomputeRegression` on `points`. */
  function Recomputed(reg: RegressionSpec, points: seq<Point>): (r: RegressionSpec)
    ensures r.enabled == reg.enabled && r.throughZero == reg.throughZero && r.model == reg.model
    ensures !HasVariance(Xs(points)) ==> r.result.None? && r.error == Some(NoVarianceError)
    ensures HasVariance(Xs(points)) ==> r.error.None? && r.result == Some(FitFor(reg, points))
  {
    if !HasVariance(Xs(points)) then reg.(result := None, error := Some(NoVarianceError))
    else reg.(result := Some(FitFor(reg, points)), error := None)
  }

  /**
   * Past the variance gate the stored result is of the selected model (linear
   * when none is set), counts every point and has a finite R² of at most 1;
   * a linear result has finite coefficients, since X varies.
   */
  lemma {:induction false} RecomputedFitIsSound(reg: RegressionSpec, points: seq<Point>)
    requires HasVariance(Xs(points))
    ensures var f := Recomputed(reg, points).result.value;
      && f.model == ModelOf(reg) && f.n == |points| && f.r2.Fin? && f.r2.r <= 1.0
      && (f.model == Linear ==> f.a.Fin? && f.b.Fin? && f.c.None?)
      && (f.model == Quadratic ==> (f.a.Fin? <==> Coefficients(points).Some?))
  {
    if ModelOf(reg) == Quadratic {
      QuadraticSentinels(points);
      QuadraticRSquaredAtMostOne(points);
    } else {
      VarianceGivesFiniteLinearFit(points, reg.throughZero);
      LinearRSquaredAtMostOne(points, reg.throughZero);
      LinearSentinels(points, reg.throughZero);
    }
  }

  /** A second `recomputeRegression` on the same points changes nothing. */
  lemma {:induction false} RecomputeIdempotent(reg: RegressionSpec, points: seq<Point>)
    ensures Recomputed(Recomputed(reg, points), points) == Recomputed(reg, points)
  {
  }

  /** The store. Keys of new columns are passed in, as they come from a UUID generator. */
  class Store {
    var table: TableData
    var plot: PlotSpec
    var regression: RegressionSpec
    var prediction: PredictionSpec
    var view: ViewSpec

    constructor (table: TableData, plot: PlotSpec, regression: RegressionSpec, prediction: PredictionSpec, view: ViewSpec)
      ensures this.table == table && this.plot == plot && this.regression == regression
      ensures this.prediction == prediction && this.view == view
    {
      this.table := table;
      this.plot := plot;
      this.regression := regression;
      this.prediction := prediction;
      this.view := view;
    }

    /** The points `numericPairs()` returns, as exact reals. */
    function Points(): seq<Point>
      reads this
    {
      ToPoints(ColumnPairs(table.columns, plot))
    }

    // -------------------------------------------------------------- table edits

    method SetCell(colKey: string, row: int, value: Cell)
      modifies this
      ensures table == TableData(SetCellIn(old(table.columns), colKey, row, value))
      ensures plot == old(plot) && regression == old(regression) && prediction == old(prediction) && view == old(view)
    {
      table := TableData(SetCellIn(table.columns, colKey, row, value));
    }

    method AddRow()
      modifies this
      ensures table == TableData(AddRowTo(old(table.columns)))
      ensures plot == old(plot) && regression == old(regression) && prediction == old(prediction) && view == old(view)
    {
      table := TableData(AddRowTo(table.columns));
    }

    /** `addColumn({ name, type })`; `key` is the fresh key the store would generate. */
    method AddColumn(key: string, name: Option<string>, ctype: Option<ColumnType>)
      modifies this
      ensures table == TableData(AddColumnTo(old(table.columns), key, name, ctype))
      ensures plot == old(plot) && regression == old(regression) && prediction == old(prediction) && view == old(view)
    {
      table := TableData(AddColumnTo(table.columns, key, name, ctype));
    }

    method RemoveColumn(key: string)
      modifies this
      ensures table == TableData(RemoveColumnFrom(old(table.columns), key))
      ensures plot == old(plot) && regression == old(regression) && prediction == old(prediction) && view == old(view)
    {
      table := TableData(RemoveColumnFrom(table.columns, key));
    }

    method RenameColumn(colKey: string, name: string)
      modifies this
      ensures table == TableData(RenameIn(old(table.columns), colKey, name))
      ensures plot == RenamedPlot(old(plot), colKey, name)
      ensures regression == old(regression) && prediction == old(prediction) && view == old(view)
    {
      table := TableData(RenameIn(table.columns, colKey, name));
      plot := RenamedPlot(plot, colKey, name);
    }

    method SetUnit(colKey: string, unitName: Option<string>)
      modifies this
      ensures table == TableData(UnitIn(old(table.columns), colKey, unitName))
      ensures plot == UnitPlot(old(plot), colKey, unitName)
      ensures regression == old(regression) && prediction == old(prediction) && view == old(view)
    {
      table := TableData(UnitIn(table.columns, colKey, unitName));
      plot := UnitPlot(plot, colKey, unitName);
    }

    /** `setDomains(dx, dy)`: both overrides replaced, an absent one cleared. */
    method SetDomains(dx: Option<Interval>, dy: Option<Interval>)
      modifies this
      ensures view == old(view).(domainX := dx, domainY := dy)
      ensures table == old(table) && plot == old(plot) && regression == old(regression) && prediction == old(prediction)
    {
      view := view.(domainX := dx, domainY := dy);
    }

    // -------------------------------------------------------------- derived values

    /** `numericPairs()`: the scan of the plotted columns, then `dropNaNFinite`, which keeps them all. */
    method NumericPairs() returns (pairs: seq<XYPair>)
      ensures pairs == ColumnPairs(table.columns, plot)
    {
      var out := PlottedPairs(table, plot);
      DropNaNFiniteIdentity(out);
      pairs := DropNaNFinite(out);
    }

    /** `recomputeRegression()`: the variance gate, then the fit of the selected model. */
    method RecomputeRegression()
      modifies this
      ensures regression == Recomputed(old(regression), old(Points()))
      ensures table == old(table) && plot == old(plot) && prediction == old(prediction) && view == old(view)
    {
      var pairs := NumericPairs();
      var points := ToPoints(pairs);
      assert points == Points();
      if !HasVariance(Xs(points)) {
        regression := regression.(result := None, error := Some(NoVarianceError));
        return;
      }
      var model := ModelOf(regression);
      var res: Fit;
      if model == Quadratic {
        res := ComputeQuadraticRegression(points);
      } else {
        res := ComputeLinearRegression(points, regression.throughZero);
      }
      regression := regression.(result := Some(res), error := None);
    }

    /**
     * `fitNicely()`: collect the displayed values, the curve's values over the
     * padded X range and the prediction point, then set both domains.
     */
    method FitNicely(log10: real -> real, sqrt: real -> real)
      modifies this
      ensures view == NiceView(old(Points()), old(view), old(regression), old(prediction), log10, sqrt)
      ensures table == old(table) && plot == old(plot) && regression == old(regression) && prediction == old(prediction)
    {
      ghost var before := view;
      var pairs := NumericPairs();
      var points := ToPoints(pairs);
      assert points == Points();
      var display, _ := ApplyDisplayTransforms(points, view, log10);
      var dx, dy := CandidateDomains(display, regression, prediction, sqrt);
      view := view.(domainX := Some(dx), domainY := Some(dy));
      assert view == NiceView(points, before, regression, prediction, log10, sqrt);
    }
  }

  /**
   * The body of `fitNicely` between the display transform and `set`: the
   * pushes into `xValues` and `yValues` and the two `autoDomain` calls.
   */
  method CandidateDomains(display: seq<Point>, reg: RegressionSpec, pred: PredictionSpec, sqrt: real -> real)
    returns (dx: Interval, dy: Interval)
    ensures var p := FitPrediction(display, reg, pred, sqrt);
      dx == AutoDomain(FitXs(display, p), DefaultPad) && dy == AutoDomain(FitYs(display, reg, p), DefaultPad)
  {
    var xValues := Xs(display);
    var yValues := Ys(display);
    var d := AutoDomain(xValues, DefaultPad);
    yValues := PushCurve(yValues, reg, d);
    var p := Predicted(pred, reg, d, sqrt);
    assert p == FitPrediction(display, reg, pred, sqrt);
    if p.Some? {
      xValues := xValues + [p.value.x];
      yValues := yValues + [p.value.y];
    }
    assert xValues == Xs(display) + Pushed(p, true);
    assert yValues == Ys(display) + CurveYs(reg, d) + Pushed(p, false);
    dx := AutoDomain(xValues, DefaultPad);
    dy := AutoDomain(yValues, DefaultPad);
  }

  /** The curve's pushes into `yValues`: both ends of `d` and, for a parabola, an inner vertex. */
  method PushCurve(yValues: seq<real>, reg: RegressionSpec, d: Interval) returns (out: seq<real>)
    ensures out == yValues + CurveYs(reg, d)
  {
    out := yValues;
    if reg.enabled && reg.result.Some? && reg.result.value.a.Fin? && reg.result.value.b.Fin? {
      var fit := reg.result.value;
      var a, b := fit.a.r, fit.b.r;
      if fit.model == Quadratic && CoefC(fit).Fin? {
        var c := CoefC(fit).r;
        out := out + [QuadAt(a, b, c, d.lo), QuadAt(a, b, c, d.hi)];
        if a != 0.0 {
          var xv := -b / (2.0 * a);
          if xv > d.lo && xv < d.hi {
            out := out + [QuadAt(a, b, c, xv)];
          }
        }
      } else {
        out := out + [LineAt(a, b, d.lo), LineAt(a, b, d.hi)];
      }
    }
  }
}
