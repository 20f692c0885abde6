/** Domain and display-transform utilities (src/utils/transforms.ts). */
module Transforms {
  import opened Wrappers
  import opened Numbers
  import opened Seqs
  import opened Types

  // ---------------------------------------------------------------- dropNaNFinite

  predicate IsFinitePair(p: XYPair) { IsFinite(p.x) && IsFinite(p.y) }

  /** Keeps the pairs whose two coordinates are finite. */
  function DropNaNFinite(pairs: seq<XYPair>): (r: seq<XYPair>)
    ensures forall i :: 0 <= i < |r| ==> IsFinitePair(r[i])
  {
    Filter(pairs, IsFinitePair)
  }

  /** A pair survives iff it is in the input and finite. */
  lemma {:induction false} DropNaNFiniteMembers(pairs: seq<XYPair>)
    ensures forall p :: p in DropNaNFinite(pairs) <==> p in pairs && IsFinitePair(p)
  {
    FilterMembers(pairs, IsFinitePair);
  }

  /** Order is kept: the filter works pair by pair, left to right. */
  lemma {:induction false} DropNaNFiniteInOrder(a: seq<XYPair>, b: seq<XYPair>, p: XYPair)
    ensures DropNaNFinite(a + b) == DropNaNFinite(a) + DropNaNFinite(b)
    ensures DropNaNFinite([p]) == if IsFinitePair(p) then [p] else []
  {
    FilterAppend(a, b, IsFinitePair);
    FilterSingleton(p, IsFinitePair);
  }

  /** On finite pairs it changes nothing. */
  lemma {:induction false} DropNaNFiniteIdentity(pairs: seq<XYPair>)
    requires forall i :: 0 <= i < |pairs| ==> IsFinitePair(pairs[i])
    ensures DropNaNFinite(pairs) == pairs
  {
    FilterKeepsAll(pairs, IsFinitePair);
  }

  // ---------------------------------------------------------------- min / max

  /** `Math.min(...vals)` on a non-empty list. */
  function MinOf(vals: seq<real>): (m: real)
    requires |vals| > 0
    ensures m in vals && forall i :: 0 <= i < |vals| ==> m <= vals[i]
  {
    if |vals| == 1 then vals[0]
    else
      var m' := MinOf(vals[1..]);
      assert forall i :: 1 <= i < |vals| ==> vals[i] == vals[1..][i - 1];
      if vals[0] <= m' then vals[0] else m'
  }

  /** `Math.max(...vals)` on a non-empty list. */
  function MaxOf(vals: seq<real>): (m: real)
    requires |vals| > 0
    ensures m in vals && forall i :: 0 <= i < |vals| ==> vals[i] <= m
  {
    if |vals| == 1 then vals[0]
    else
      var m' := MaxOf(vals[1..]);
      assert forall i :: 1 <= i < |vals| ==> vals[i] == vals[1..][i - 1];
      if vals[0] >= m' then vals[0] else m'
  }

  // ---------------------------------------------------------------- autoDomain

  const DefaultPad: real := 0.08

  /**
   * Padded `[min, max]`; `[0, 1]` for no values, `[v - 1, v + 1]` before
   * padding when every value is `v`.
   */
  function AutoDomain(vals: seq<real>, padRatio: real): (d: Interval)
    ensures |vals| == 0 ==> d == Interval(0.0, 1.0)
    ensures |vals| > 0 ==> d.lo + d.hi == MinOf(vals) + MaxOf(vals)
    ensures |vals| > 0 ==> d.hi - d.lo == Grown(BaseSpan(MinOf(vals), MaxOf(vals)), padRatio)
    ensures padRatio >= 0.0 ==> d.lo < d.hi
    ensures padRatio >= 0.0 ==> forall i :: 0 <= i < |vals| ==> d.lo <= vals[i] <= d.hi
    ensures |vals| > 0 && padRatio == 0.0 ==>
      d == if MinOf(vals) == MaxOf(vals) then Interval(MinOf(vals) - 1.0, MaxOf(vals) + 1.0)
           else Interval(MinOf(vals), MaxOf(vals))
  {
    if |vals| == 0 then Interval(0.0, 1.0)
    else AutoFrom(MinOf(vals), MaxOf(vals), padRatio)
  }

  /** The span before padding: `max - min`, or 2 once a single value has been widened by 1 each way. */
  function BaseSpan(min0: real, max0: real): real {
    if min0 == max0 then 2.0 else max0 - min0
  }

  /** A span with `span * padRatio` added on both sides. */
  function Grown(span: real, padRatio: real): real { span * (1.0 + 2.0 * padRatio) }

  /** The padded domain once `Math.min` and `Math.max` have given `min0 <= max0`. */
  function AutoFrom(min0: real, max0: real, padRatio: real): (d: Interval)
    requires min0 <= max0
    ensures d.lo + d.hi == min0 + max0
    ensures d.hi - d.lo == Grown(BaseSpan(min0, max0), padRatio)
    ensures padRatio >= 0.0 ==> d.lo <= min0 && max0 <= d.hi && d.lo < d.hi
    ensures padRatio == 0.0 ==>
      d == if min0 == max0 then Interval(min0 - 1.0, max0 + 1.0) else Interval(min0, max0)
  {
    var min := if min0 == max0 then min0 - 1.0 else min0;
    var max := if min0 == max0 then max0 + 1.0 else max0;
    var span := max - min;
    var pad := span * padRatio;
    assert padRatio >= 0.0 ==> pad >= 0.0;
    Interval(min - pad, max + pad)
  }

  /** A single value `v` gets `[v - 1 - pad, v + 1 + pad]` with `pad = 2 padRatio`: `[5]` gives `[3.84, 6.16]`. */
  lemma {:induction false} AutoDomainSingleExample()
    ensures AutoDomain([5.0], DefaultPad) == Interval(3.84, 6.16)
  {
    assert MinOf([5.0]) == 5.0 && MaxOf([5.0]) == 5.0;
  }

  // ---------------------------------------------------------------- hasVariance

  /** Some value differs from the minimum. */
  function HasVariance(vals: seq<real>): (b: bool)
    ensures b <==> |vals| > 0 && exists i, j :: 0 <= i < |vals| && 0 <= j < |vals| && vals[i] != vals[j]
  {
    if |vals| == 0 then false
    else
      var min, max := MinOf(vals), MaxOf(vals);
      assert min != max ==> exists i, j :: 0 <= i < |vals| && 0 <= j < |vals| && vals[i] != vals[j] by {
        var i :| 0 <= i < |vals| && vals[i] == min;
        var j :| 0 <= j < |vals| && vals[j] == max;
      }
      min != max
  }

  // ---------------------------------------------------------------- applyDisplayTransforms

  const LogMessage: string := "Log scale hides ≤ 0 values from view"

  /** JavaScript's `span || 1` for a finite span. */
  function OrOne(span: real): real { if span == 0.0 then 1.0 else span }

  /** Rescales both axes by their unpadded domains. */
  function Normalized(ps: seq<Point>): (r: seq<Point>)
    ensures |r| == |ps|
  {
    var dX := AutoDomain(Xs(ps), 0.0);
    var dY := AutoDomain(Ys(ps), 0.0);
    seq(|ps|, i requires 0 <= i < |ps| => Point(Rescale(ps[i].x, dX), Rescale(ps[i].y, dY)))
  }

  /** `(v - min) / (max - min || 1)` */
  function Rescale(v: real, d: Interval): real {
    (v - d.lo) / OrOne(d.hi - d.lo)
  }

  /** The test a point must pass to stay visible on the logged axes. */
  function Keeps(logX: bool, logY: bool): Point -> bool {
    (p: Point) => (!logX || p.x > 0.0) && (!logY || p.y > 0.0)
  }

  function LogMapped(ps: seq<Point>, logX: bool, logY: bool, log10: real -> real): (r: seq<Point>)
    ensures |r| == |ps|
  {
    seq(|ps|, i requires 0 <= i < |ps| =>
      Point(if logX then log10(ps[i].x) else ps[i].x, if logY then log10(ps[i].y) else ps[i].y))
  }

  /** The points handed on to the normalisation-free stages. */
  function Normalize(view: ViewSpec, pairs: seq<Point>): seq<Point> {
    if view.normalize then Normalized(pairs) else pairs
  }

  /**
   * The displayed points: normalisation first, then the log filter and map.
   * A point goes missing exactly when a log axis hides one.
   */
  function DisplayPairs(pairs: seq<Point>, view: ViewSpec, log10: real -> real): (r: seq<Point>)
    ensures |r| <= |pairs|
    ensures |r| == |pairs| <==> !SomeHidden(pairs, view)
    ensures !view.normalize && !view.logX && !view.logY ==> r == pairs
  {
    var pre := Normalize(view, pairs);
    if view.logX || view.logY then
      FilterKeepsAll(pre, Keeps(view.logX, view.logY));
      LogMapped(Filter(pre, Keeps(view.logX, view.logY)), view.logX, view.logY, log10)
    else pre
  }

  /** The log message is due iff a log axis is on and some point fails its test. */
  ghost predicate SomeHidden(pairs: seq<Point>, view: ViewSpec) {
    var pre := Normalize(view, pairs);
    (view.logX || view.logY) && exists i :: 0 <= i < |pre| && !Keeps(view.logX, view.logY)(pre[i])
  }

  method ApplyDisplayTransforms(pairs: seq<Point>, view: ViewSpec, log10: real -> real)
    returns (out: seq<Point>, messages: seq<string>)
    ensures out == DisplayPairs(pairs, view, log10)
    ensures messages == if SomeHidden(pairs, view) then [LogMessage] else []
    ensures !view.normalize && !view.logX && !view.logY ==> out == pairs
  {
    out := pairs;
    messages := [];
    if view.normalize {
      out := Normalized(out);
    }
    if view.logX || view.logY {
      var was := out;
      out := Filter(out, Keeps(view.logX, view.logY));
      FilterKeepsAll(was, Keeps(view.logX, view.logY));
      if |out| < |was| {
        messages := messages + [LogMessage];
      }
      out := LogMapped(out, view.logX, view.logY, log10);
    }
  }

  /** Normalised coordinates lie in `[0, 1]`; a constant axis goes to 0.5. */
  lemma {:induction false} NormalizedInUnitSquare(ps: seq<Point>)
    ensures var r := Normalized(ps);
      forall i :: 0 <= i < |r| ==> 0.0 <= r[i].x <= 1.0 && 0.0 <= r[i].y <= 1.0
    ensures var r := Normalized(ps);
      forall i :: 0 <= i < |r| && (forall j :: 0 <= j < |ps| ==> ps[j].x == ps[0].x) ==> r[i].x == 0.5
    ensures var r := Normalized(ps);
      forall i :: 0 <= i < |r| && (forall j :: 0 <= j < |ps| ==> ps[j].y == ps[0].y) ==> r[i].y == 0.5
  {
    if |ps| > 0 {
      NormalizedX(ps);
      NormalizedY(ps);
    }
  }

  lemma {:induction false} NormalizedX(ps: seq<Point>)
    requires |ps| > 0
    ensures var r := Normalized(ps);
      forall i :: 0 <= i < |r| ==> 0.0 <= r[i].x <= 1.0
    ensures var r := Normalized(ps);
      (forall j :: 0 <= j < |ps| ==> ps[j].x == ps[0].x) ==> forall i :: 0 <= i < |r| ==> r[i].x == 0.5
  {
    var xs := Xs(ps);
    AxisInUnit(xs);
    var d := AutoDomain(xs, 0.0);
    var r := Normalized(ps);
    assert forall i :: 0 <= i < |r| ==> r[i].x == Rescale(xs[i], d);
    if forall j :: 0 <= j < |ps| ==> ps[j].x == ps[0].x {
      assert forall j :: 0 <= j < |xs| ==> xs[j] == xs[0];
      AxisConstant(xs);
    }
  }

  lemma {:induction false} NormalizedY(ps: seq<Point>)
    requires |ps| > 0
    ensures var r := Normalized(ps);
      forall i :: 0 <= i < |r| ==> 0.0 <= r[i].y <= 1.0
    ensures var r := Normalized(ps);
      (forall j :: 0 <= j < |ps| ==> ps[j].y == ps[0].y) ==> forall i :: 0 <= i < |r| ==> r[i].y == 0.5
  {
    var ys := Ys(ps);
    AxisInUnit(ys);
    var d := AutoDomain(ys, 0.0);
    var r := Normalized(ps);
    assert forall i :: 0 <= i < |r| ==> r[i].y == Rescale(ys[i], d);
    if forall j :: 0 <= j < |ps| ==> ps[j].y == ps[0].y {
      assert forall j :: 0 <= j < |ys| ==> ys[j] == ys[0];
      AxisConstant(ys);
    }
  }

  lemma {:induction false} AxisInUnit(vals: seq<real>)
    requires |vals| > 0
    ensures var d := AutoDomain(vals, 0.0);
      forall i :: 0 <= i < |vals| ==> 0.0 <= Rescale(vals[i], d) <= 1.0
  {
    var d := AutoDomain(vals, 0.0);
    var w := d.hi - d.lo;
    assert OrOne(w) == w;
    forall i | 0 <= i < |vals|
      ensures 0.0 <= (vals[i] - d.lo) / w <= 1.0
    {
      DivInUnit(vals[i] - d.lo, w);
    }
  }

  /** A constant axis lands in the middle of the unit interval. */
  lemma {:induction false} AxisConstant(vals: seq<real>)
    requires |vals| > 0 && forall j :: 0 <= j < |vals| ==> vals[j] == vals[0]
    ensures var d := AutoDomain(vals, 0.0);
      forall i :: 0 <= i < |vals| ==> Rescale(vals[i], d) == 0.5
  {
    assert MinOf(vals) == MaxOf(vals) == vals[0];
    var d := AutoDomain(vals, 0.0);
    assert d == Interval(vals[0] - 1.0, vals[0] + 1.0);
  }

  lemma {:induction false} DivInUnit(t: real, w: real)
    requires w > 0.0 && 0.0 <= t <= w
    ensures 0.0 <= t / w <= 1.0
  {
    assert t / w * w == t;
  }

  /** The `|| 1` fallback of the normalisation never applies. */
  lemma {:induction false} NormalizeFallbackUnused(vals: seq<real>)
    ensures var d := AutoDomain(vals, 0.0); OrOne(d.hi - d.lo) == d.hi - d.lo
  {
  }

  /** The log filter keeps exactly the points positive on the logged axes, in order. */
  lemma {:induction false} LogFilterExact(a: seq<Point>, b: seq<Point>, logX: bool, logY: bool)
    ensures forall p :: p in Filter(a, Keeps(logX, logY)) <==>
      p in a && (logX ==> p.x > 0.0) && (logY ==> p.y > 0.0)
    ensures Filter(a + b, Keeps(logX, logY)) == Filter(a, Keeps(logX, logY)) + Filter(b, Keeps(logX, logY))
  {
    FilterMembers(a, Keeps(logX, logY));
    FilterAppend(a, b, Keeps(logX, logY));
  }

  // ---------------------------------------------------------------- estimateScreenSlope

  /** Screen slope of a line of data slope `a` under the two axis scales. */
  function EstimateScreenSlope(a: Num, scaleX: real, scaleY: real): (s: Num)
    ensures a.Fin? && scaleX != 0.0 && scaleX == scaleY ==> s == Abs(a)
    ensures a.NaN? ==> s.NaN?
  {
    Mul(Abs(a), Div(Fin(scaleY), Fin(scaleX)))
  }

  /** With two non-zero scales of the same sign a finite slope gives a finite, non-negative screen slope. */
  lemma {:induction false} EstimateScreenSlopeNonNegative(a: Num, scaleX: real, scaleY: real)
    requires a.Fin? && scaleX != 0.0 && scaleX * scaleY >= 0.0
    ensures var s := EstimateScreenSlope(a, scaleX, scaleY); s.Fin? && s.r >= 0.0
  {
    QuotientNonNegative(scaleY, scaleX);
  }

  lemma {:induction false} QuotientNonNegative(n: real, d: real)
    requires d != 0.0 && d * n >= 0.0
    ensures n / d >= 0.0
  {
    var q := n / d;
    assert q * d == n;
    assert q * (d * d) == d * n;
  }
}
