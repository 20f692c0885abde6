/**
 * The table and plot record updates behind the store's table operations
 * (src/state/store.ts): `setCell`, `addRow`, `addColumn`, `removeColumn`,
 * `renameColumn` and `setUnit`, each a new value built from the old one.
 */
module TableOps {
  import opened Wrappers
  import opened Seqs
  import opened Types

  // ---------------------------------------------------------------- setCell

  /** `values.map((v, i) => (i === row ? value : v))`; `row` is any integer. */
  function SetValue(vals: seq<Cell>, row: int, value: Cell): (r: seq<Cell>)
    ensures 0 <= row < |vals| ==> r == vals[row := value]
    ensures !(0 <= row < |vals|) ==> r == vals
  {
    seq(|vals|, i requires 0 <= i < |vals| => if i == row then value else vals[i])
  }

  /** The columns after `setCell(colKey, row, value)`. */
  function SetCellIn(cols: seq<Column>, colKey: string, row: int, value: Cell): (r: seq<Column>)
    ensures |r| == |cols|
  {
    seq(|cols|, i requires 0 <= i < |cols| =>
      if cols[i].key == colKey then cols[i].(values := SetValue(cols[i].values, row, value)) else cols[i])
  }

  /**
   * Only the cell `row` of the columns keyed `colKey` takes the new value;
   * every other cell, every column's other fields and every length stay.
   */
  lemma {:induction false} SetCellChangesOneCell(cols: seq<Column>, colKey: string, row: int, value: Cell)
    ensures var r := SetCellIn(cols, colKey, row, value);
      forall i :: 0 <= i < |cols| ==>
        && r[i].key == cols[i].key && r[i].name == cols[i].name && r[i].unit == cols[i].unit
        && r[i].ctype == cols[i].ctype && |r[i].values| == |cols[i].values|
        && forall j :: 0 <= j < |cols[i].values| ==>
             r[i].values[j] == if cols[i].key == colKey && j == row then value else cols[i].values[j]
  {
  }

  /** A row outside every column changes nothing. */
  lemma {:induction false} SetCellOutOfRange(cols: seq<Column>, colKey: string, row: int, value: Cell)
    requires forall i :: 0 <= i < |cols| && cols[i].key == colKey ==> !(0 <= row < |cols[i].values|)
    ensures SetCellIn(cols, colKey, row, value) == cols
  {
    var r := SetCellIn(cols, colKey, row, value);
    forall i | 0 <= i < |cols|
      ensures r[i] == cols[i]
    {
      if cols[i].key == colKey {
        assert r[i].values == cols[i].values;
      }
    }
  }

  // ---------------------------------------------------------------- addRow / addColumn

  /** `[...c.values, null]` for every column. */
  function AddRowTo(cols: seq<Column>): (r: seq<Column>)
    ensures |r| == |cols|
    ensures forall i :: 0 <= i < |cols| ==> r[i] == cols[i].(values := cols[i].values + [Null])
  {
    seq(|cols|, i requires 0 <= i < |cols| => cols[i].(values := cols[i].values + [Null]))
  }

  /** Every column grows by exactly one row, an empty one, and keeps what it had. */
  lemma {:induction false} AddRowAppendsNull(cols: seq<Column>)
    ensures var r := AddRowTo(cols);
      forall i :: 0 <= i < |cols| ==>
        && |r[i].values| == |cols[i].values| + 1
        && r[i].values[..|cols[i].values|] == cols[i].values
        && r[i].values[|cols[i].values|] == Null
        && r[i].key == cols[i].key && r[i].name == cols[i].name && r[i].unit == cols[i].unit
  {
    var r := AddRowTo(cols);
    forall i | 0 <= i < |cols|
      ensures r[i].values[..|cols[i].values|] == cols[i].values
    {
      assert r[i].values == cols[i].values + [Null];
    }
  }

  /** `Array.from({ length: n }, () => null)` */
  function Nulls(n: nat): (r: seq<Cell>)
    ensures |r| == n && forall j :: 0 <= j < n ==> r[j] == Null
  {
    seq(n, _ => Null)
  }

  /** `columns[0]?.values.length ?? 0` */
  function FirstLength(cols: seq<Column>): nat {
    if |cols| == 0 then 0 else |cols[0].values|
  }

  /**
   * The columns after `addColumn({ name, type })` with the fresh key `key`:
   * `name` defaults to `'C'`, `type` to `'number'`, and no unit is set.
   */
  function AddColumnTo(cols: seq<Column>, key: string, name: Option<string>, ctype: Option<ColumnType>): (r: seq<Column>)
    ensures |r| == |cols| + 1 && r[..|cols|] == cols
  {
    cols + [Column(key, if name.Some? then name.value else "C", None, Nulls(FirstLength(cols)),
                   if ctype.Some? then ctype.value else NumberColumn)]
  }

  /** The new column is last, empty, as long as the first column, with the defaults filled in. */
  lemma {:induction false} AddColumnAppendsBlank(cols: seq<Column>, key: string, name: Option<string>, ctype: Option<ColumnType>)
    ensures var r := AddColumnTo(cols, key, name, ctype); var c := r[|cols|];
      && c.key == key && c.unit == None
      && (name.None? ==> c.name == "C") && (name.Some? ==> c.name == name.value)
      && (ctype.None? ==> c.ctype == NumberColumn) && (ctype.Some? ==> c.ctype == ctype.value)
      && (forall j :: 0 <= j < |c.values| ==> c.values[j] == Null)
      && (|cols| == 0 ==> c.values == [])
      && (|cols| > 0 ==> |c.values| == |cols[0].values|)
  {
  }

  // ---------------------------------------------------------------- removeColumn

  function KeyIsNot(key: string): Column -> bool {
    (c: Column) => c.key != key
  }

  /** `columns.filter((c) => c.key !== key)` */
  function RemoveColumnFrom(cols: seq<Column>, key: string): (r: seq<Column>)
    ensures forall i :: 0 <= i < |r| ==> r[i].key != key
  {
    Filter(cols, KeyIsNot(key))
  }

  /**
   * Exactly the columns keyed `key` go: a column survives iff it was there
   * with another key, the order of the rest is kept (the removal of two
   * adjacent runs is the concatenation of their removals), and an absent
   * key changes nothing.
   */
  lemma {:induction false} RemoveColumnExact(cols: seq<Column>, key: string, more: seq<Column>)
    ensures forall c :: c in RemoveColumnFrom(cols, key) <==> c in cols && c.key != key
    ensures RemoveColumnFrom(cols + more, key) == RemoveColumnFrom(cols, key) + RemoveColumnFrom(more, key)
    ensures (forall i :: 0 <= i < |cols| ==> cols[i].key != key) ==> RemoveColumnFrom(cols, key) == cols
  {
    FilterMembers(cols, KeyIsNot(key));
    FilterAppend(cols, more, KeyIsNot(key));
    FilterKeepsAll(cols, KeyIsNot(key));
  }

  /** A single column with the key is dropped; one with another key is kept. */
  lemma {:induction false} RemoveColumnSingle(c: Column, key: string)
    ensures RemoveColumnFrom([c], key) == if c.key == key then [] else [c]
  {
    FilterSingleton(c, KeyIsNot(key));
  }

  // ---------------------------------------------------------------- renameColumn

  function RenameIn(cols: seq<Column>, colKey: string, name: string): (r: seq<Column>)
    ensures |r| == |cols|
    ensures forall i :: 0 <= i < |cols| ==> r[i] == if cols[i].key == colKey then cols[i].(name := name) else cols[i]
  {
    seq(|cols|, i requires 0 <= i < |cols| => if cols[i].key == colKey then cols[i].(name := name) else cols[i])
  }

  /** The X label if the column is the X column, otherwise the Y label if it is the Y column. */
  function RenamedPlot(plot: PlotSpec, colKey: string, name: string): (p: PlotSpec)
    ensures p.xKey == plot.xKey && p.yKey == plot.yKey && p.mode == plot.mode
    ensures plot.xKey == colKey ==> p == plot.(axisLabelX := name)
    ensures plot.xKey != colKey && plot.yKey == colKey ==> p == plot.(axisLabelY := name)
    ensures plot.xKey != colKey && plot.yKey != colKey ==> p == plot
  {
    if plot.xKey == colKey then plot.(axisLabelX := name)
    else if plot.yKey == colKey then plot.(axisLabelY := name)
    else plot
  }

  /** When one column is both X and Y, only the X label follows the rename. */
  lemma {:induction false} RenameBothAxesUpdatesXOnly(plot: PlotSpec, colKey: string, name: string)
    requires plot.xKey == colKey && plot.yKey == colKey
    ensures RenamedPlot(plot, colKey, name).axisLabelX == name
    ensures RenamedPlot(plot, colKey, name).axisLabelY == plot.axisLabelY
  {
  }

  // ---------------------------------------------------------------- setUnit

  /** `" ["` starts at `k` in `s`. */
  predicate OpensAt(s: string, k: int) {
    0 <= k && k + 1 < |s| && s[k] == ' ' && s[k + 1] == '['
  }

  /** `s.split(' [')[0]`: the text before the first `" ["`, or all of `s`. */
  function BaseLabel(s: string): (b: string)
    ensures |b| <= |s| && b == s[..|b|]
    ensures forall k :: 0 <= k < |b| ==> !OpensAt(s, k)
    ensures b == s || OpensAt(s, |b|)
  {
    BaseFrom(s, 0)
  }

  function BaseFrom(s: string, i: nat): (b: string)
    requires i <= |s| && forall k :: 0 <= k < i ==> !OpensAt(s, k)
    ensures i <= |b| <= |s| && b == s[..|b|]
    ensures forall k :: 0 <= k < |b| ==> !OpensAt(s, k)
    ensures b == s || OpensAt(s, |b|)
    decreases |s| - i
  {
    if i + 1 >= |s| then s
    else if OpensAt(s, i) then s[..i]
    else BaseFrom(s, i + 1)
  }

  /** There is one text before the first `" ["`: the three facts above pin it down. */
  lemma {:induction false} BaseLabelUnique(s: string, b: string)
    requires |b| <= |s| && b == s[..|b|]
    requires forall k :: 0 <= k < |b| ==> !OpensAt(s, k)
    requires b == s || OpensAt(s, |b|)
    ensures BaseLabel(s) == b
  {
    var c := BaseLabel(s);
    assert |c| < |b| ==> !OpensAt(s, |c|);
    assert |b| < |c| ==> !OpensAt(s, |b|);
  }

  /** JavaScript truthiness of an optional string: present and not empty. */
  predicate Truthy(unitName: Option<string>) { unitName.Some? && unitName.value != "" }

  /**
   * The label with its unit: `base + " [" + unit + "]"`, or just `base` for
   * no unit. Either way the new label has the old label's base.
   */
  function WithUnit(text: string, unitName: Option<string>): (r: string)
    ensures BaseLabel(r) == BaseLabel(text)
    ensures !Truthy(unitName) ==> r == BaseLabel(text)
    ensures Truthy(unitName) ==> |r| == |BaseLabel(text)| + |unitName.value| + 3
  {
    var base := BaseLabel(text);
    BaseIsStable(text);
    if Truthy(unitName) then
      BaseHasNoOpening(text);
      BaseOfUnitLabel(base, unitName.value);
      base + " [" + unitName.value + "]"
    else base
  }

  /** The base of a label that has a unit: the text up to where its unit starts. */
  lemma {:induction false} BaseOfUnitLabel(base: string, u: string)
    requires forall k :: 0 <= k < |base| ==> !OpensAt(base, k)
    ensures BaseLabel(base + " [" + u + "]") == base
  {
    var s := base + " [" + u + "]";
    assert s[..|base|] == base;
    forall k | 0 <= k < |base|
      ensures !OpensAt(s, k)
    {
      if k + 1 < |base| {
        assert s[k] == base[k] && s[k + 1] == base[k + 1];
        assert !OpensAt(base, k);
      } else {
        assert s[k + 1] == ' ';
      }
    }
    assert s[|base|] == ' ' && s[|base| + 1] == '[';
    BaseLabelUnique(s, base);
  }

  /** A base label holds no `" ["` of its own. */
  lemma {:induction false} BaseHasNoOpening(text: string)
    ensures var b := BaseLabel(text); forall k :: 0 <= k < |b| ==> !OpensAt(b, k)
  {
    var b := BaseLabel(text);
    forall k | 0 <= k < |b|
      ensures !OpensAt(b, k)
    {
      assert !OpensAt(text, k) && b[k] == text[k];
      if k + 1 < |b| {
        assert b[k + 1] == text[k + 1];
      }
    }
  }

  /** A base label has nothing more to strip. */
  lemma {:induction false} BaseIsStable(text: string)
    ensures BaseLabel(BaseLabel(text)) == BaseLabel(text)
  {
    var b := BaseLabel(text);
    BaseHasNoOpening(text);
    BaseLabelUnique(b, b);
  }

  /** Setting the same unit twice is setting it once; the base label stays as it is. */
  lemma {:induction false} WithUnitIdempotent(text: string, unitName: Option<string>)
    ensures WithUnit(WithUnit(text, unitName), unitName) == WithUnit(text, unitName)
    ensures BaseLabel(WithUnit(text, unitName)) == BaseLabel(text)
  {
    var b := BaseLabel(text);
    BaseIsStable(text);
    if Truthy(unitName) {
      BaseHasNoOpening(text);
      BaseOfUnitLabel(b, unitName.value);
    }
  }

  /** Dropping the unit and setting another replaces the unit: the base is kept. */
  lemma {:induction false} UnitReplaced(text: string, previous: Option<string>, unitName: Option<string>)
    ensures WithUnit(WithUnit(text, previous), unitName) == WithUnit(text, unitName)
  {
    WithUnitIdempotent(text, previous);
  }

  /** `{ ...c, unit }` on the columns keyed `colKey`; an absent unit clears it. */
  function UnitIn(cols: seq<Column>, colKey: string, unitName: Option<string>): (r: seq<Column>)
    ensures |r| == |cols|
    ensures forall i :: 0 <= i < |cols| ==> r[i] == if cols[i].key == colKey then cols[i].(unit := unitName) else cols[i]
  {
    seq(|cols|, i requires 0 <= i < |cols| => if cols[i].key == colKey then cols[i].(unit := unitName) else cols[i])
  }

  /** The X label if the column is the X column, otherwise the Y label if it is the Y column, takes the unit. */
  function UnitPlot(plot: PlotSpec, colKey: string, unitName: Option<string>): (p: PlotSpec)
    ensures p.xKey == plot.xKey && p.yKey == plot.yKey && p.mode == plot.mode
    ensures plot.xKey == colKey ==> p == plot.(axisLabelX := WithUnit(plot.axisLabelX, unitName))
    ensures plot.xKey != colKey && plot.yKey == colKey ==> p == plot.(axisLabelY := WithUnit(plot.axisLabelY, unitName))
    ensures plot.xKey != colKey && plot.yKey != colKey ==> p == plot
  {
    if plot.xKey == colKey then plot.(axisLabelX := WithUnit(plot.axisLabelX, unitName))
    else if plot.yKey == colKey then plot.(axisLabelY := WithUnit(plot.axisLabelY, unitName))
    else plot
  }

  /** A second `setUnit` with the same arguments changes nothing more. */
  lemma {:induction false} UnitPlotIdempotent(plot: PlotSpec, colKey: string, unitName: Option<string>)
    ensures UnitPlot(UnitPlot(plot, colKey, unitName), colKey, unitName) == UnitPlot(plot, colKey, unitName)
  {
    WithUnitIdempotent(plot.axisLabelX, unitName);
    WithUnitIdempotent(plot.axisLabelY, unitName);
  }

  lemma {:induction false} UnitInIdempotent(cols: seq<Column>, colKey: string, unitName: Option<string>)
    ensures UnitIn(UnitIn(cols, colKey, unitName), colKey, unitName) == UnitIn(cols, colKey, unitName)
  {
  }

  /** `"Length [cm]"` with unit `"m"` becomes `"Length [m]"`; with no unit, `"Length"`. */
  lemma {:induction false} UnitExample()
    ensures WithUnit("Length [cm]", Some("m")) == "Length [m]"
    ensures WithUnit("Length [cm]", None) == "Length"
    ensures WithUnit("Length [cm]", Some("")) == "Length"
  {
    var s := "Length [cm]";
    forall k | 0 <= k < 6
      ensures !OpensAt(s, k)
    {
    }
    assert OpensAt(s, 6);
    BaseLabelUnique(s, "Length");
  }
}
