/**
 * The pair scan shared by `numericPairs` (src/state/store.ts) and `pairsRaw`
 * (src/components/ChartCanvas.tsx): find the X and Y columns by key, walk
 * the rows up to the longer column and keep the rows whose two cells are
 * finite numbers.
 */
module Pairs {
  import opened Wrappers
  import opened Numbers
  import opened Seqs
  import opened Types
  import opened Transforms

  /** `columns.find((c) => c.key === key)`, as the index of the first match. */
  function FindColumn(cols: seq<Column>, key: string): (r: Option<nat>)
    ensures r.Some? ==> r.value < |cols| && cols[r.value].key == key
    ensures r.Some? ==> forall j :: 0 <= j < r.value ==> cols[j].key != key
    ensures r.None? <==> forall j :: 0 <= j < |cols| ==> cols[j].key != key
  {
    FindFrom(cols, key, 0)
  }

  function FindFrom(cols: seq<Column>, key: string, i: nat): (r: Option<nat>)
    requires i <= |cols|
    ensures r.Some? ==> i <= r.value < |cols| && cols[r.value].key == key
    ensures r.Some? ==> forall j :: i <= j < r.value ==> cols[j].key != key
    ensures r.None? <==> forall j :: i <= j < |cols| ==> cols[j].key != key
    decreases |cols| - i
  {
    if i == |cols| then None
    else if cols[i].key == key then Some(i)
    else FindFrom(cols, key, i + 1)
  }

  /** `values[i]`: a cell, or `undefined` (taken as `Null`) past the end. */
  function CellAt(vals: seq<Cell>, i: nat): Cell {
    if i < |vals| then vals[i] else Null
  }

  /** `typeof v === 'number' && Number.isFinite(v)` */
  predicate FiniteCell(c: Cell) { c.Number? && c.n.Fin? }

  predicate RowKept(xv: seq<Cell>, yv: seq<Cell>, i: nat) {
    FiniteCell(CellAt(xv, i)) && FiniteCell(CellAt(yv, i))
  }

  /** `Math.max(xCol.values.length, yCol.values.length)` */
  function RowCount(xv: seq<Cell>, yv: seq<Cell>): (n: nat)
    ensures n >= |xv| && n >= |yv| && (n == |xv| || n == |yv|)
  {
    if |xv| < |yv| then |yv| else |xv|
  }

  /** The pairs pushed by the first `k` turns of the loop. */
  function ScannedPairs(xv: seq<Cell>, yv: seq<Cell>, k: nat): (r: seq<XYPair>)
    ensures |r| <= k
    ensures forall j :: 0 <= j < |r| ==> IsFinitePair(r[j])
    decreases k
  {
    if k == 0 then []
    else
      var i := k - 1;
      ScannedPairs(xv, yv, i) + if RowKept(xv, yv, i) then [XYPair(CellAt(xv, i).n, CellAt(yv, i).n)] else []
  }

  /** The pairs of the plotted columns: none when either column is missing. */
  function ColumnPairs(cols: seq<Column>, plot: PlotSpec): (r: seq<XYPair>)
    ensures forall j :: 0 <= j < |r| ==> IsFinitePair(r[j])
  {
    var xi, yi := FindColumn(cols, plot.xKey), FindColumn(cols, plot.yKey);
    if xi.None? || yi.None? then []
    else
      var xv, yv := cols[xi.value].values, cols[yi.value].values;
      ScannedPairs(xv, yv, RowCount(xv, yv))
  }

  // ---------------------------------------------------------------- an independent reading

  /** A cell as a number, `null` read as `NaN` (it fails `Number.isFinite` the same way). */
  function AsNum(c: Cell): Num { if c.Number? then c.n else NaN }

  /** Every row as a raw pair, finite or not. */
  function RawRows(xv: seq<Cell>, yv: seq<Cell>, n: nat): (r: seq<XYPair>)
    ensures |r| == n
  {
    seq(n, i requires 0 <= i < n => XYPair(AsNum(CellAt(xv, i)), AsNum(CellAt(yv, i))))
  }

  /**
   * The scan is `dropNaNFinite` over all rows: row `i < n` is kept iff both
   * cells are finite numbers, and the kept rows stay in row order.
   */
  lemma {:induction false} ScanIsFilter(xv: seq<Cell>, yv: seq<Cell>, n: nat)
    ensures ScannedPairs(xv, yv, n) == DropNaNFinite(RawRows(xv, yv, n))
    decreases n
  {
    if n > 0 {
      var i := n - 1;
      ScanIsFilter(xv, yv, i);
      var raw := RawRows(xv, yv, i);
      var p := XYPair(AsNum(CellAt(xv, i)), AsNum(CellAt(yv, i)));
      assert RawRows(xv, yv, n) == raw + [p];
      DropNaNFiniteInOrder(raw, [p], p);
      assert IsFinitePair(p) <==> RowKept(xv, yv, i);
      assert RowKept(xv, yv, i) ==> p == XYPair(CellAt(xv, i).n, CellAt(yv, i).n);
    }
  }

  /** A pair is produced iff some row below `n` holds it in two finite cells. */
  lemma {:induction false} ScannedPairsMembers(xv: seq<Cell>, yv: seq<Cell>, n: nat, p: XYPair)
    ensures p in ScannedPairs(xv, yv, n) <==>
      exists i :: 0 <= i < n && RowKept(xv, yv, i) && p == XYPair(CellAt(xv, i).n, CellAt(yv, i).n)
  {
    ScanIsFilter(xv, yv, n);
    var raw := RawRows(xv, yv, n);
    DropNaNFiniteMembers(raw);
    if p in ScannedPairs(xv, yv, n) {
      var i :| 0 <= i < n && raw[i] == p;
      assert RowKept(xv, yv, i);
    }
    if exists i :: 0 <= i < n && RowKept(xv, yv, i) && p == XYPair(CellAt(xv, i).n, CellAt(yv, i).n) {
      var i :| 0 <= i < n && RowKept(xv, yv, i) && p == XYPair(CellAt(xv, i).n, CellAt(yv, i).n);
      assert raw[i] == p;
    }
  }

  /** With a column missing there are no pairs. */
  lemma {:induction false} MissingColumnGivesNoPairs(cols: seq<Column>, plot: PlotSpec)
    requires (forall j :: 0 <= j < |cols| ==> cols[j].key != plot.xKey)
          || (forall j :: 0 <= j < |cols| ==> cols[j].key != plot.yKey)
    ensures ColumnPairs(cols, plot) == []
  {
  }

  /** With both columns present, the first of each key is scanned as above. */
  lemma {:induction false} PresentColumnsAreScanned(cols: seq<Column>, plot: PlotSpec, i: nat, j: nat)
    requires i < |cols| && cols[i].key == plot.xKey && forall k :: 0 <= k < i ==> cols[k].key != plot.xKey
    requires j < |cols| && cols[j].key == plot.yKey && forall k :: 0 <= k < j ==> cols[k].key != plot.yKey
    ensures var xv, yv := cols[i].values, cols[j].values;
      ColumnPairs(cols, plot) == DropNaNFinite(RawRows(xv, yv, RowCount(xv, yv)))
  {
    assert FindColumn(cols, plot.xKey) == Some(i);
    assert FindColumn(cols, plot.yKey) == Some(j);
    var xv, yv := cols[i].values, cols[j].values;
    ScanIsFilter(xv, yv, RowCount(xv, yv));
  }

  // ---------------------------------------------------------------- the loop

  /** The indexed loop that pushes `{ x, y }` for every row with two finite cells. */
  method ScanPairs(xv: seq<Cell>, yv: seq<Cell>) returns (out: seq<XYPair>)
    ensures out == ScannedPairs(xv, yv, RowCount(xv, yv))
  {
    var n := if |xv| > |yv| then |xv| else |yv|;
    out := [];
    for i := 0 to n
      invariant out == ScannedPairs(xv, yv, i)
    {
      var x := if i < |xv| then xv[i] else Null;
      var y := if i < |yv| then yv[i] else Null;
      if x.Number? && x.n.Fin? && y.Number? && y.n.Fin? {
        out := out + [XYPair(x.n, y.n)];
      }
    }
  }

  /** Looks both columns up and scans them: `pairsRaw`, and `numericPairs` before its final filter. */
  method PlottedPairs(table: TableData, plot: PlotSpec) returns (out: seq<XYPair>)
    ensures out == ColumnPairs(table.columns, plot)
  {
    var xi := FindColumn(table.columns, plot.xKey);
    var yi := FindColumn(table.columns, plot.yKey);
    if xi.None? || yi.None? {
      return [];
    }
    out := ScanPairs(table.columns[xi.value].values, table.columns[yi.value].values);
  }

  // ---------------------------------------------------------------- to the analysis

  /** Finite pairs as exact points. */
  function ToPoints(ps: seq<XYPair>): (r: seq<Point>)
    requires forall j :: 0 <= j < |ps| ==> IsFinitePair(ps[j])
    ensures |r| == |ps| && forall j :: 0 <= j < |ps| ==> ps[j] == XYPair(Fin(r[j].x), Fin(r[j].y))
    decreases |ps|
  {
    if |ps| == 0 then []
    else
      var p := ps[|ps| - 1];
      assert IsFinitePair(p);
      ToPoints(ps[..|ps| - 1]) + [Point(p.x.r, p.y.r)]
  }
}
