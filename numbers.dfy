/** Optional values: the model of JavaScript's `undefined`/`null` results. */
module Wrappers {
  datatype Option<+T> = None | Some(value: T)
}

/**
 * JavaScript numbers without rounding: a finite value is an exact real,
 * and the three non-finite values are kept apart because the code
 * compares them (`Infinity` compares, `NaN` never does).
 * Signed zero is not distinguished.
 */
module Numbers {

  datatype Num = Fin(r: real) | PosInf | NegInf | NaN

  /** `Number.isFinite` */
  predicate IsFinite(x: Num) { x.Fin? }

  function Neg(x: Num): Num {
    match x
    case Fin(r) => Fin(-r)
    case PosInf => NegInf
    case NegInf => PosInf
    case NaN => NaN
  }

  function Add(x: Num, y: Num): (z: Num)
    ensures x.Fin? && y.Fin? ==> z == Fin(x.r + y.r)
    ensures (x.NaN? || y.NaN?) ==> z.NaN?
  {
    match (x, y)
    case (Fin(a), Fin(b)) => Fin(a + b)
    case (NaN, _) => NaN
    case (_, NaN) => NaN
    case (PosInf, NegInf) => NaN
    case (NegInf, PosInf) => NaN
    case (PosInf, _) => PosInf
    case (NegInf, _) => NegInf
    case (_, PosInf) => PosInf
    case (_, NegInf) => NegInf
  }

  function Sub(x: Num, y: Num): Num { Add(x, Neg(y)) }

  /** The sign of a non-NaN number: -1, 0 or 1. */
  function SignOf(x: Num): int
    requires !x.NaN?
  {
    match x
    case Fin(r) => if r < 0.0 then -1 else if r == 0.0 then 0 else 1
    case PosInf => 1
    case NegInf => -1
  }

  function InfOfSign(s: int): Num
    requires s != 0
  {
    if s > 0 then PosInf else NegInf
  }

  function Mul(x: Num, y: Num): (z: Num)
    ensures x.Fin? && y.Fin? ==> z == Fin(x.r * y.r)
    ensures (x.NaN? || y.NaN?) ==> z.NaN?
  {
    if x.NaN? || y.NaN? then NaN
    else if x.Fin? && y.Fin? then Fin(x.r * y.r)
    else if SignOf(x) == 0 || SignOf(y) == 0 then NaN  // 0 * Infinity
    else InfOfSign(SignOf(x) * SignOf(y))
  }

  /** Division; a zero divisor is taken as +0. */
  function Div(x: Num, y: Num): (z: Num)
    ensures x.Fin? && y.Fin? && y.r != 0.0 ==> z == Fin(x.r / y.r)
    ensures x.Fin? && y == Fin(0.0) ==> (z.NaN? <==> x.r == 0.0) && (z.Fin? == false)
    ensures (x.NaN? || y.NaN?) ==> z.NaN?
  {
    if x.NaN? || y.NaN? then NaN
    else if x.Fin? && y.Fin? then
      if y.r != 0.0 then Fin(x.r / y.r)
      else if x.r == 0.0 then NaN
      else InfOfSign(SignOf(x))
    else if x.Fin? then Fin(0.0)              // finite / infinite
    else if y.Fin? then
      (if y.r == 0.0 then x else InfOfSign(SignOf(x) * SignOf(y)))
    else NaN                                   // infinite / infinite
  }

  function Abs(x: Num): (z: Num)
    ensures x.Fin? ==> z == Fin(if x.r < 0.0 then -x.r else x.r)
    ensures x.NaN? <==> z.NaN?
    ensures !x.Fin? && !x.NaN? ==> z == PosInf
  {
    match x
    case Fin(r) => Fin(if r < 0.0 then -r else r)
    case NaN => NaN
    case _ => PosInf
  }

  /** `Math.sign` */
  function Sign(x: Num): (z: Num)
    ensures x.NaN? <==> z.NaN?
  {
    if x.NaN? then NaN else Fin(SignOf(x) as real)
  }

  /** `x < y`: false whenever either side is NaN. */
  predicate Lt(x: Num, y: Num) {
    match (x, y)
    case (Fin(a), Fin(b)) => a < b
    case (NaN, _) => false
    case (_, NaN) => false
    case (NegInf, NegInf) => false
    case (NegInf, _) => true
    case (_, PosInf) => !x.PosInf?
    case (_, _) => false
  }

  /** `x <= y`: false whenever either side is NaN. */
  predicate Le(x: Num, y: Num) {
    !x.NaN? && !y.NaN? && (x == y || Lt(x, y))
  }

  /** A function value that behaves as `Math.sqrt` on non-negative reals. */
  ghost predicate SqrtLaw(sqrt: real -> real) {
    forall d: real :: d >= 0.0 ==> sqrt(d) >= 0.0 && sqrt(d) * sqrt(d) == d
  }

  /** `Math.sqrt` lifted to numbers, given the real square root. */
  function SqrtN(sqrt: real -> real, x: Num): Num {
    match x
    case Fin(r) => if r >= 0.0 then Fin(sqrt(r)) else NaN
    case PosInf => PosInf
    case _ => NaN
  }

  /** A function value that behaves as `Math.exp` as far as the model needs. */
  ghost predicate ExpLaw(exp: real -> real) {
    && exp(0.0) == 1.0
    && (forall t: real :: exp(t) > 0.0)
    && (forall t: real :: t < 0.0 ==> exp(t) < 1.0)
    && (forall t: real :: t > 0.0 ==> exp(t) > 1.0)
    && (forall s: real, t: real :: s + t == 0.0 ==> exp(s) * exp(t) == 1.0)
  }

  function RealAbs(r: real): (z: real)
    ensures z >= 0.0 && (z == r || z == -r)
  {
    if r < 0.0 then -r else r
  }
}
