/** The records of the data set state (src/types.ts), as values. */
module Types {
  import opened Wrappers
  import opened Numbers

  /** A table cell: empty (`null`) or a JavaScript number. */
  datatype Cell = Null | Number(n: Num)

  datatype ColumnType = NumberColumn | TextColumn

  datatype Column = Column(key: string, name: string, unit: Option<string>, values: seq<Cell>, ctype: ColumnType)

  datatype TableData = TableData(columns: seq<Column>)

  /** Raw pair as handed around by the code: either coordinate may be non-finite. */
  datatype XYPair = XYPair(x: Num, y: Num)

  /** A pair whose coordinates are finite, as every pair reaching the analysis is. */
  datatype Point = Point(x: real, y: real)

  datatype PlotMode = Scatter | Line

  datatype PlotSpec = PlotSpec(xKey: string, yKey: string, mode: PlotMode, axisLabelX: string, axisLabelY: string)

  datatype RegressionModel = Linear | Quadratic

  /** A regression result; `c` is present for the quadratic model only. */
  datatype Fit = Fit(model: RegressionModel, a: Num, b: Num, c: Option<Num>, r2: Num, n: nat)

  datatype RegressionSpec = RegressionSpec(
    enabled: bool, throughZero: bool, model: Option<RegressionModel>,
    result: Option<Fit>, error: Option<string>)

  datatype PredictionMode = ModeX | ModeY

  datatype PredictionSpec = PredictionSpec(enabled: bool, mode: PredictionMode, value: Option<Num>)

  /** A `[min, max]` domain. */
  datatype Interval = Interval(lo: real, hi: real)

  datatype ViewSpec = ViewSpec(
    aspect: real, normalize: bool, logX: bool, logY: bool,
    domainX: Option<Interval>, domainY: Option<Interval>)

  function Xs(ps: seq<Point>): (r: seq<real>)
    ensures |r| == |ps| && forall i :: 0 <= i < |ps| ==> r[i] == ps[i].x
  {
    seq(|ps|, i requires 0 <= i < |ps| => ps[i].x)
  }

  function Ys(ps: seq<Point>): (r: seq<real>)
    ensures |r| == |ps| && forall i :: 0 <= i < |ps| ==> r[i] == ps[i].y
  {
    seq(|ps|, i requires 0 <= i < |ps| => ps[i].y)
  }
}
