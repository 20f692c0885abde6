/**
 * The prediction point of src/components/ChartCanvas.tsx (`predicted`) and
 * of `fitNicely` in src/state/store.ts: evaluate the fitted model at a
 * given X, or solve it for a given Y. The arithmetic is JavaScript's (the
 * fitted coefficients may be `NaN`), written with the operations of module
 * Numbers, and both quirks of the quadratic inverse are kept as written.
 */
module Prediction {
  import opened Wrappers
  import opened Numbers
  import opened Types
  import opened Regression
  import opened QuadraticRegression

  /** Below this magnitude the leading coefficient counts as zero. */
  const FlatThreshold: real := 0.000000000001

  /** The quadratic coefficient `c` as the code reads it (`c as number`). */
  function CoefC(fit: Fit): Num { if fit.c.Some? then fit.c.value else NaN }

  /** A finite number, or nothing. */
  function AsFinite(x: Num): (r: Option<real>)
    ensures r.Some? <==> x.Fin?
    ensures r.Some? ==> x == Fin(r.value)
  {
    if x.Fin? then Some(x.r) else None
  }

  // ---------------------------------------------------------------- X given

  /** The fitted model at `x`: `a x + b`, or `a x x + b x + c` for the quadratic model. */
  function ForwardY(fit: Fit, x: real): (y: Num)
    ensures fit.model == Linear && fit.a.Fin? && fit.b.Fin? ==> y == Fin(LineAt(fit.a.r, fit.b.r, x))
    ensures fit.model == Quadratic && fit.a.Fin? && fit.b.Fin? && CoefC(fit).Fin? ==>
      y == Fin(QuadAt(fit.a.r, fit.b.r, CoefC(fit).r, x))
    ensures fit.a.NaN? || fit.b.NaN? ==> y.NaN?
  {
    var x' := Fin(x);
    if fit.model == Quadratic then Add(Add(Mul(Mul(fit.a, x'), x'), Mul(fit.b, x')), CoefC(fit))
    else Add(Mul(fit.a, x'), fit.b)
  }

  // ---------------------------------------------------------------- Y given, linear

  /** `x = (y - b) / a`, refused when `a === 0` or when the quotient is not finite. */
  function InvertLinear(a: Num, b: Num, y: real): (r: Option<real>)
    ensures a == Fin(0.0) ==> r.None?
    ensures a.NaN? || b.NaN? ==> r.None?
  {
    if a == Fin(0.0) then None else AsFinite(Div(Sub(Fin(y), b), a))
  }

  /** A line with non-zero slope is inverted exactly, and its only preimage of `y` is found. */
  lemma {:induction false} InvertLinearRoundTrip(a: real, b: real, y: real)
    requires a != 0.0
    ensures InvertLinear(Fin(a), Fin(b), y).Some?
    ensures LineAt(a, b, InvertLinear(Fin(a), Fin(b), y).value) == y
    ensures forall x :: LineAt(a, b, x) == y ==> InvertLinear(Fin(a), Fin(b), y) == Some(x)
  {
    var x := (y - b) / a;
    SubFinite(y, b);
    DivFinite(y - b, a);
    assert InvertLinear(Fin(a), Fin(b), y) == Some(x);
    LineSolved(a, b, y);
    forall x' | LineAt(a, b, x') == y
      ensures InvertLinear(Fin(a), Fin(b), y) == Some(x')
    {
      LineUnique(a, b, y, x');
    }
  }

  lemma {:induction false} LineSolved(a: real, b: real, y: real)
    requires a != 0.0
    ensures LineAt(a, b, (y - b) / a) == y
  {
    QuotientTimes(y - b, a);
  }

  lemma {:induction false} LineUnique(a: real, b: real, y: real, x: real)
    requires a != 0.0 && LineAt(a, b, x) == y
    ensures x == (y - b) / a
  {
    assert a * x == y - b;
    QuotientTimes(y - b, a);
    ProductCancel(a, x, (y - b) / a);
  }

  lemma {:induction false} SubFinite(p: real, q: real)
    ensures Sub(Fin(p), Fin(q)) == Fin(p - q)
  {
  }

  lemma {:induction false} QuotientTimes(p: real, a: real)
    requires a != 0.0
    ensures a * (p / a) == p
  {
  }

  lemma {:induction false} ProductCancel(a: real, p: real, q: real)
    requires a != 0.0 && a * p == a * q
    ensures p == q
  {
    assert a * (p - q) == 0.0;
  }

  // ---------------------------------------------------------------- Y given, quadratic

  /** `Math.sign` on a finite number. */
  function SignR(r: real): (s: real)
    ensures r > 0.0 ==> s == 1.0
    ensures r < 0.0 ==> s == -1.0
  {
    if r < 0.0 then -1.0 else if r == 0.0 then 0.0 else 1.0
  }

  function Discriminant(A: real, B: real, C: real): real { B * B - 4.0 * A * C }

  /** `r1 = (-B - sign(B) sqrt(D)) / (2A)`, the root computed without cancellation. */
  function StableRoot(A: real, B: real, s: real): real
    requires A != 0.0
  {
    (-B - SignR(B) * s) / (2.0 * A)
  }

  /** `r2 = C / (A r1) * -1`: the negation of the co-root `C / (A r1)`. */
  function Mirrored(A: real, C: real, r1: real): real
    requires A * r1 != 0.0
  {
    C / (A * r1) * -1.0
  }

  /**
   * Solves `A x^2 + B x + C = 0` as the code does: below the threshold the
   * linear root `-C / B` (none when `B === 0`); no root when `D < 0`;
   * otherwise whichever of `r1` and `r2` is nearer `xc`, `r1` on ties.
   * Every result must be finite.
   */
  function InvertQuadratic(A: Num, B: Num, C: Num, xc: real, sqrt: real -> real): (r: Option<real>)
    ensures Lt(Abs(A), Fin(FlatThreshold)) && B == Fin(0.0) ==> r.None?
  {
    if Lt(Abs(A), Fin(FlatThreshold)) then
      if B == Fin(0.0) then None else AsFinite(Div(Neg(C), B))
    else
      var D := DiscriminantN(A, B, C);
      if Lt(D, Fin(0.0)) then None
      else
        var r1 := Root1(A, B, SqrtN(sqrt, D));
        AsFinite(Nearer(r1, Root2(A, C, r1), xc))
  }

  /** `D = B * B - 4 * A * C` */
  function DiscriminantN(A: Num, B: Num, C: Num): Num { Sub(Mul(B, B), Mul(Mul(Fin(4.0), A), C)) }

  /** `r1 = (-B - Math.sign(B) * S) / (2 * A)` with `S = Math.sqrt(D)` */
  function Root1(A: Num, B: Num, S: Num): (r: Num)
    ensures A.Fin? && B.Fin? && S.Fin? && A.r != 0.0 ==> r == Fin(StableRoot(A.r, B.r, S.r))
    ensures A.NaN? || B.NaN? || S.NaN? ==> r.NaN?
  {
    Div(Sub(Neg(B), Mul(Sign(B), S)), Mul(Fin(2.0), A))
  }

  /** `r2 = C / (A * r1) * -1` */
  function Root2(A: Num, C: Num, r1: Num): (r: Num)
    ensures A.Fin? && C.Fin? && r1 == Fin(0.0) ==> if C.r == 0.0 then r.NaN? else r.PosInf? || r.NegInf?
    ensures A.NaN? || C.NaN? || r1.NaN? ==> r.NaN?
  {
    Mul(Div(C, Mul(A, r1)), Fin(-1.0))
  }

  /** `Math.abs(r1 - xc) <= Math.abs(r2 - xc) ? r1 : r2` */
  function Nearer(r1: Num, r2: Num, xc: real): (r: Num)
    ensures r == r1 || r == r2
    ensures r1.Fin? && r2.Fin? ==>
      && RealAbs(r.r - xc) <= RealAbs(r1.r - xc) && RealAbs(r.r - xc) <= RealAbs(r2.r - xc)
      && (RealAbs(r1.r - xc) == RealAbs(r2.r - xc) ==> r == r1)
    ensures r1.Fin? && (r2.PosInf? || r2.NegInf?) ==> r == r1
    ensures r2.NaN? ==> r.NaN?
  {
    if Le(Abs(Sub(r1, Fin(xc))), Abs(Sub(r2, Fin(xc)))) then r1 else r2
  }

  lemma {:induction false} DiscriminantFinite(A: real, B: real, C: real)
    ensures DiscriminantN(Fin(A), Fin(B), Fin(C)) == Fin(Discriminant(A, B, C))
  {
  }

  lemma {:induction false} Root1Finite(A: real, B: real, s: real)
    requires A != 0.0
    ensures Root1(Fin(A), Fin(B), Fin(s)) == Fin(StableRoot(A, B, s))
  {
    var sg := SignR(B);
    SignTimes(B, s);
    NegMinus(B, sg * s);
    TwoTimes(A);
    assert 2.0 * A != 0.0;
    DivFinite(-B - sg * s, 2.0 * A);
    StableRootIs(A, B, s);
  }

  lemma {:induction false} StableRootIs(A: real, B: real, s: real)
    requires A != 0.0
    ensures StableRoot(A, B, s) == (-B - SignR(B) * s) / (2.0 * A)
  {
  }

  lemma {:induction false} SqrtFinite(d: real, sqrt: real -> real)
    requires d >= 0.0
    ensures SqrtN(sqrt, Fin(d)) == Fin(sqrt(d))
  {
  }

  lemma {:induction false} SignTimes(b: real, s: real)
    ensures Mul(Sign(Fin(b)), Fin(s)) == Fin(SignR(b) * s)
  {
  }

  lemma {:induction false} NegMinus(b: real, t: real)
    ensures Sub(Neg(Fin(b)), Fin(t)) == Fin(-b - t)
  {
  }

  lemma {:induction false} TwoTimes(a: real)
    ensures Mul(Fin(2.0), Fin(a)) == Fin(2.0 * a)
  {
  }

  lemma {:induction false} DivFinite(p: real, q: real)
    requires q != 0.0
    ensures Div(Fin(p), Fin(q)) == Fin(p / q)
  {
  }

  lemma {:induction false} Root2Finite(A: real, C: real, r1: real)
    requires A * r1 != 0.0
    ensures Root2(Fin(A), Fin(C), Fin(r1)) == Fin(Mirrored(A, C, r1))
  {
  }

  lemma {:induction false} NearerFinite(r1: real, r2: real, xc: real)
    ensures Nearer(Fin(r1), Fin(r2), xc) == Fin(if RealAbs(r1 - xc) <= RealAbs(r2 - xc) then r1 else r2)
  {
  }

  /** An infinite second candidate always loses. */
  lemma {:induction false} NearerInfinite(r1: real, r2: Num, xc: real)
    requires r2.PosInf? || r2.NegInf?
    ensures Nearer(Fin(r1), r2, xc) == Fin(r1)
  {
  }

  /** A `NaN` second candidate always wins, since no comparison with `NaN` holds. */
  lemma {:induction false} NearerNaN(r1: real, xc: real)
    ensures Nearer(Fin(r1), NaN, xc) == NaN
  {
  }

  /** `Math.sign(0)` is 0, so with `B === 0` the first candidate is 0. */
  lemma {:induction false} Root1OfZero(A: real, s: real)
    requires A != 0.0
    ensures Root1(Fin(A), Fin(0.0), Fin(s)) == Fin(0.0)
  {
    Root1Finite(A, 0.0, s);
    StableRootOfZero(A, s);
  }

  lemma {:induction false} StableRootOfZero(A: real, s: real)
    requires A != 0.0
    ensures StableRoot(A, 0.0, s) == 0.0
  {
    assert SignR(0.0) * s == 0.0;
  }

  /** `C / 0 * -1` is infinite for `C != 0` and `NaN` for `C = 0`. */
  lemma {:induction false} Root2OfZero(A: real, C: real)
    ensures C != 0.0 ==> var r2 := Root2(Fin(A), Fin(C), Fin(0.0)); r2.PosInf? || r2.NegInf?
    ensures C == 0.0 ==> Root2(Fin(A), Fin(C), Fin(0.0)) == NaN
  {
    ProductWithZero(A);
  }

  lemma {:induction false} ProductWithZero(a: real)
    ensures Mul(Fin(a), Fin(0.0)) == Fin(0.0)
  {
  }

  /** A (nearly) vanishing leading coefficient: the root of `B x + C`, or none if `B` is zero too. */
  lemma {:induction false} InvertQuadraticFlat(A: real, B: real, C: real, xc: real, sqrt: real -> real)
    requires RealAbs(A) < FlatThreshold
    ensures B == 0.0 ==> InvertQuadratic(Fin(A), Fin(B), Fin(C), xc, sqrt).None?
    ensures B != 0.0 ==> InvertQuadratic(Fin(A), Fin(B), Fin(C), xc, sqrt) == Some(-C / B)
    ensures B != 0.0 ==> B * (-C / B) + C == 0.0
  {
  }

  /** A negative discriminant gives no prediction. */
  lemma {:induction false} InvertQuadraticNoRealRoot(A: real, B: real, C: real, xc: real, sqrt: real -> real)
    requires RealAbs(A) >= FlatThreshold && Discriminant(A, B, C) < 0.0
    ensures InvertQuadratic(Fin(A), Fin(B), Fin(C), xc, sqrt).None?
  {
    DiscriminantFinite(A, B, C);
  }

  /**
   * `fitNicely` guards the roots with `D >= 0` where the chart returns on
   * `D < 0`. The two differ only when neither holds, that is for a `NaN`
   * discriminant, and then the chart's candidates are `NaN` and nothing is
   * returned either: both read as this one function.
   */
  lemma {:induction false} DiscriminantGuardsAgree(A: Num, B: Num, C: Num, xc: real, sqrt: real -> real)
    requires !Lt(Abs(A), Fin(FlatThreshold))
    requires !Lt(DiscriminantN(A, B, C), Fin(0.0)) && !Le(Fin(0.0), DiscriminantN(A, B, C))
    ensures InvertQuadratic(A, B, C, xc, sqrt).None?
  {
    var D := DiscriminantN(A, B, C);
    assert D.NaN?;
    var S := SqrtN(sqrt, D);
    assert S.NaN?;
    var r1 := Root1(A, B, S);
    assert Mul(Sign(B), S).NaN?;
    assert r1.NaN?;
    assert Mul(A, r1).NaN?;
    assert Root2(A, C, r1).NaN?;
    NearerOfNaNs(r1, Root2(A, C, r1), xc);
  }

  lemma {:induction false} NearerOfNaNs(r1: Num, r2: Num, xc: real)
    requires r1.NaN? && r2.NaN?
    ensures Nearer(r1, r2, xc).NaN?
  {
  }

  /**
   * With `B != 0` and `D >= 0` the two candidates are finite and the one
   * nearer `xc` is returned, `r1` when both are equally near.
   */
  lemma {:induction false} InvertQuadraticChoice(A: real, B: real, C: real, xc: real, sqrt: real -> real)
    requires SqrtLaw(sqrt)
    requires RealAbs(A) >= FlatThreshold && Discriminant(A, B, C) >= 0.0 && B != 0.0
    ensures var r1 := StableRoot(A, B, sqrt(Discriminant(A, B, C)));
      A * r1 != 0.0 &&
      InvertQuadratic(Fin(A), Fin(B), Fin(C), xc, sqrt) ==
        Some(if RealAbs(r1 - xc) <= RealAbs(Mirrored(A, C, r1) - xc) then r1 else Mirrored(A, C, r1))
  {
    var D := Discriminant(A, B, C);
    var s := sqrt(D);
    var r1 := StableRoot(A, B, s);
    DiscriminantFinite(A, B, C);
    SqrtFinite(D, sqrt);
    Root1Finite(A, B, s);
    StableRootNonZero(A, B, s, SignR(B));
    ProductNonZero(A, r1);
    Root2Finite(A, C, r1);
    NearerFinite(r1, Mirrored(A, C, r1), xc);
  }

  lemma {:induction false} StableRootNonZero(A: real, B: real, s: real, sg: real)
    requires A != 0.0 && B != 0.0 && s >= 0.0 && sg == SignR(B)
    ensures -B - sg * s != 0.0 && StableRoot(A, B, s) != 0.0
  {
    var n := -B - sg * s;
    if B > 0.0 {
      assert n < 0.0;
    } else {
      assert n > 0.0;
    }
    assert StableRoot(A, B, s) * (2.0 * A) == n;
  }

  lemma {:induction false} FactorZero(a: real, b: real)
    requires a != 0.0 && a * b == 0.0
    ensures b == 0.0
  {
  }

  lemma {:induction false} ProductNonZero(a: real, b: real)
    requires a != 0.0 && b != 0.0
    ensures a * b != 0.0
  {
  }

  /** `r1` is a root of `A x^2 + B x + C` whenever `B != 0`. */
  lemma {:induction false} StableRootIsRoot(A: real, B: real, C: real, sqrt: real -> real)
    requires SqrtLaw(sqrt)
    requires A != 0.0 && B != 0.0 && Discriminant(A, B, C) >= 0.0
    ensures QuadAt(A, B, C, StableRoot(A, B, sqrt(Discriminant(A, B, C)))) == 0.0
  {
    var s := sqrt(Discriminant(A, B, C));
    var sg := SignR(B);
    var r := StableRoot(A, B, s);
    if B > 0.0 { assert sg == 1.0; } else { assert sg == -1.0; }
    RootAlgebra(A, B, C, s, sg, -B - sg * s, r);
  }

  lemma {:induction false} RootAlgebra(A: real, B: real, C: real, s: real, sg: real, n: real, r: real)
    requires A != 0.0 && sg * sg == 1.0 && s * s == B * B - 4.0 * A * C
    requires n == -B - sg * s && r == n / (2.0 * A)
    ensures QuadAt(A, B, C, r) == 0.0
  {
    var t := 2.0 * A * r;
    assert t == n;
    var q := A * r * r + B * r + C;
    assert 4.0 * A * q == t * t + 2.0 * B * t + 4.0 * A * C;
    assert n * n == B * B + 2.0 * B * (sg * s) + (sg * sg) * (s * s);
    assert n * n + 2.0 * B * n == (sg * sg) * (s * s) - B * B;
    assert 4.0 * A * q == 0.0;
    FactorZero(4.0 * A, q);
  }

  /** The second candidate is the NEGATED co-root: it is `-x` for the other root `x`, not the root itself. */
  lemma {:induction false} MirroredIsNegatedRoot(A: real, B: real, C: real, r1: real)
    requires A != 0.0 && r1 != 0.0 && QuadAt(A, B, C, r1) == 0.0
    ensures A * r1 != 0.0 && QuadAt(A, B, C, -Mirrored(A, C, r1)) == 0.0
  {
    ProductNonZero(A, r1);
    var q := C / (A * r1);
    assert -Mirrored(A, C, r1) == q;
    CoRootAlgebra(A, B, C, r1, q, r1 * q);
  }

  lemma {:induction false} CoRootAlgebra(A: real, B: real, C: real, r: real, q: real, m: real)
    requires A != 0.0 && r != 0.0 && q * (A * r) == C && m == r * q
    requires A * r * r + B * r + C == 0.0
    ensures QuadAt(A, B, C, q) == 0.0
  {
    CoRootScaled(A, B, C, r, q, m, QuadAt(A, B, C, q));
    FactorZero(r, r * QuadAt(A, B, C, q));
    FactorZero(r, QuadAt(A, B, C, q));
  }

  /** The co-root equation times `r^2`, by Vieta's product `r q = C / A`. */
  lemma {:induction false} CoRootScaled(A: real, B: real, C: real, r: real, q: real, m: real, Q: real)
    requires q * (A * r) == C && m == r * q && Q == A * q * q + B * q + C
    requires A * r * r + B * r + C == 0.0
    ensures r * r * Q == 0.0
  {
    assert A * m == C;
    assert r * r * Q == A * m * m + B * r * m + C * (r * r);
    assert A * m * m == C * m;
    assert C + B * r == -(A * r * r);
    assert r * r * Q == m * (C + B * r) + C * (r * r);
    assert m * (C + B * r) == -(A * m * (r * r));
  }

  /**
   * The `B === 0` quirk, first half: `Math.sign(0)` is 0, so `r1` is 0 and
   * `r2` infinite; 0 is chosen although it is no root when `C != 0`.
   */
  lemma {:induction false} ZeroLinearTermPicksZero(A: real, C: real, xc: real, sqrt: real -> real)
    requires RealAbs(A) >= FlatThreshold && C != 0.0 && Discriminant(A, 0.0, C) >= 0.0
    ensures InvertQuadratic(Fin(A), Fin(0.0), Fin(C), xc, sqrt) == Some(0.0)
    ensures QuadAt(A, 0.0, C, 0.0) != 0.0
  {
    var D := Discriminant(A, 0.0, C);
    DiscriminantFinite(A, 0.0, C);
    SqrtFinite(D, sqrt);
    Root1OfZero(A, sqrt(D));
    Root2OfZero(A, C);
    NearerInfinite(0.0, Root2(Fin(A), Fin(C), Fin(0.0)), xc);
  }

  /**
   * The `B === 0` quirk, second half: with `C = 0` as well, `r2` is `0/0`,
   * `NaN` wins the comparison, and no point is predicted although 0 is a root.
   */
  lemma {:induction false} ZeroLinearAndConstantTermsGiveNothing(A: real, xc: real, sqrt: real -> real)
    requires RealAbs(A) >= FlatThreshold
    ensures InvertQuadratic(Fin(A), Fin(0.0), Fin(0.0), xc, sqrt).None?
    ensures QuadAt(A, 0.0, 0.0, 0.0) == 0.0
  {
    DiscriminantFinite(A, 0.0, 0.0);
    assert Discriminant(A, 0.0, 0.0) == 0.0;
    SqrtFinite(0.0, sqrt);
    Root1OfZero(A, sqrt(0.0));
    Root2OfZero(A, 0.0);
    NearerNaN(0.0, xc);
  }

  /** `y = x^2` solved for `y = 4`: the quirk gives `x = 0` instead of `-2` or `2`. */
  lemma {:induction false} SquareExample(xc: real, sqrt: real -> real)
    ensures InvertQuadratic(Fin(1.0), Fin(0.0), Fin(-4.0), xc, sqrt) == Some(0.0)
  {
    ZeroLinearTermPicksZero(1.0, -4.0, xc, sqrt);
  }

  // ---------------------------------------------------------------- the prediction point

  function Mid(d: Interval): real { (d.lo + d.hi) / 2.0 }

  /**
   * The predicted point for the target `v` of a usable prediction: in X mode
   * `(v, f(v))`, in Y mode `(x, v)` for the solution `x`, centred on `centre`.
   */
  function PredictFrom(fit: Fit, mode: PredictionMode, v: real, centre: Interval, sqrt: real -> real): (r: Option<Point>)
    ensures mode == ModeX ==> (r.Some? <==> ForwardY(fit, v).Fin?)
    ensures mode == ModeX && r.Some? ==> r.value.x == v && ForwardY(fit, v) == Fin(r.value.y)
    ensures mode == ModeY && r.Some? ==> r.value.y == v
  {
    if mode == ModeX then
      var y := ForwardY(fit, v);
      if y.Fin? then Some(Point(v, y.r)) else None
    else
      var x := if fit.model == Quadratic then InvertQuadratic(fit.a, fit.b, Sub(CoefC(fit), Fin(v)), Mid(centre), sqrt)
               else InvertLinear(fit.a, fit.b, v);
      if x.Some? then Some(Point(x.value, v)) else None
  }

  /**
   * The gate: no point unless prediction and regression are both enabled, a
   * result exists and the target value is a finite number.
   */
  function Predicted(prediction: PredictionSpec, regression: RegressionSpec, centre: Interval, sqrt: real -> real)
    : (r: Option<Point>)
    ensures r.Some? ==> prediction.enabled && regression.enabled && regression.result.Some?
    ensures r.Some? ==> prediction.value.Some? && prediction.value.value.Fin?
    ensures r.Some? && prediction.mode == ModeX ==> r.value.x == prediction.value.value.r
    ensures r.Some? && prediction.mode == ModeY ==> r.value.y == prediction.value.value.r
  {
    if !prediction.enabled || !regression.enabled || regression.result.None? then None
    else if prediction.value.None? || !prediction.value.value.Fin? then None
    else PredictFrom(regression.result.value, prediction.mode, prediction.value.value.r, centre, sqrt)
  }

  /** Solving a linear fit for `v` and evaluating it at the answer gives `v` back. */
  lemma {:induction false} LinearPredictionRoundTrip(fit: Fit, v: real, centre: Interval, sqrt: real -> real)
    requires fit.model == Linear && fit.a.Fin? && fit.b.Fin? && fit.a.r != 0.0
    ensures var r := PredictFrom(fit, ModeY, v, centre, sqrt);
      r.Some? && r.value.y == v && ForwardY(fit, r.value.x) == Fin(v)
  {
    InvertLinearRoundTrip(fit.a.r, fit.b.r, v);
  }

  /** Solving a quadratic fit for `v`: when `r1` is chosen, evaluating the fit there gives `v` back. */
  lemma {:induction false} QuadraticPredictionRoundTrip(fit: Fit, v: real, centre: Interval, sqrt: real -> real)
    requires SqrtLaw(sqrt)
    requires fit.model == Quadratic && fit.a.Fin? && fit.b.Fin? && CoefC(fit).Fin?
    requires var A, B, C := fit.a.r, fit.b.r, CoefC(fit).r - v;
      RealAbs(A) >= FlatThreshold && Discriminant(A, B, C) >= 0.0 && B != 0.0
    ensures var A, B, C := fit.a.r, fit.b.r, CoefC(fit).r - v;
      var r := PredictFrom(fit, ModeY, v, centre, sqrt);
      var r1 := StableRoot(A, B, sqrt(Discriminant(A, B, C)));
      r.Some? && r.value.y == v && (r.value.x == r1 ==> ForwardY(fit, r.value.x) == Fin(v))
  {
    var A, B, C := fit.a.r, fit.b.r, CoefC(fit).r - v;
    assert Sub(CoefC(fit), Fin(v)) == Fin(C);
    InvertQuadraticChoice(A, B, C, Mid(centre), sqrt);
    StableRootIsRoot(A, B, C, sqrt);
    ShiftedConstant(A, B, CoefC(fit).r, v, StableRoot(A, B, sqrt(Discriminant(A, B, C))));
  }

  lemma {:induction false} ShiftedConstant(a: real, b: real, c: real, v: real, x: real)
    requires QuadAt(a, b, c - v, x) == 0.0
    ensures QuadAt(a, b, c, x) == v
  {
  }
}
