/**
 * `solve3`, the 3×3 Gaussian elimination with partial pivoting inside
 * `computeQuadraticRegression` (src/utils/regression.ts), over exact reals.
 */
module Elimination {
  import opened Wrappers
  import opened Numbers

  /** Pivots smaller than this in magnitude make the system count as singular. */
  const Tiny: real := 0.000000000001

  /** A system `m · x = v`: three rows of three coefficients and three right-hand sides. */
  datatype Sys = Sys(m: seq<seq<real>>, v: seq<real>)

  predicate Valid(s: Sys) {
    |s.m| == 3 && |s.v| == 3 && forall i :: 0 <= i < 3 ==> |s.m[i]| == 3
  }

  // ---------------------------------------------------------------- equations

  /** `row[lo] * x[lo] + ... + row[hi - 1] * x[hi - 1]`, added left to right. */
  function RowSum(row: seq<real>, x: seq<real>, lo: nat, hi: nat): real
    requires lo <= hi <= |row| && hi <= |x|
    decreases hi - lo
  {
    if lo == hi then 0.0 else RowSum(row, x, lo, hi - 1) + row[hi - 1] * x[hi - 1]
  }

  /** The left-hand side of equation `i` at `x`. */
  function Lhs(s: Sys, i: nat, x: seq<real>): real
    requires Valid(s) && i < 3 && |x| == 3
  {
    RowSum(s.m[i], x, 0, 3)
  }

  /** `x` satisfies all three equations. */
  predicate Solves(s: Sys, x: seq<real>)
    requires Valid(s)
  {
    |x| == 3 && forall i :: 0 <= i < 3 ==> Lhs(s, i, x) == s.v[i]
  }

  /** The entries of the first `k` columns below the diagonal are zero. */
  predicate LowerZero(s: Sys, k: nat)
    requires Valid(s) && k <= 3
  {
    forall r, c :: 0 <= c < k && c < r < 3 ==> s.m[r][c] == 0.0
  }

  // ---------------------------------------------------------------- one column

  /** Row `p` is the first of the rows `col..hi - 1` whose entry in `col` is largest in magnitude. */
  predicate FirstLargest(m: seq<seq<real>>, col: nat, hi: nat, p: nat)
    requires |m| == 3 && (forall i :: 0 <= i < 3 ==> |m[i]| == 3) && col < 3 && hi <= 3 && p < 3
  {
    && (forall i :: col <= i < hi ==> RealAbs(m[i][col]) <= RealAbs(m[p][col]))
    && (forall i :: col <= i < p ==> RealAbs(m[i][col]) < RealAbs(m[p][col]))
  }

  /**
   * The scan for the pivot row, from row `r` on, with the best row so far
   * `piv`: when `piv` is the first largest of the rows before `r`, the scan
   * ends on the first largest of all the rows.
   */
  function PivotFrom(m: seq<seq<real>>, col: nat, r: nat, piv: nat): (p: nat)
    requires |m| == 3 && (forall i :: 0 <= i < 3 ==> |m[i]| == 3) && col <= piv < r <= 3
    ensures col <= p < 3
    ensures FirstLargest(m, col, r, piv) ==> FirstLargest(m, col, 3, p)
    decreases 3 - r
  {
    if r == 3 then piv
    else PivotFrom(m, col, r + 1, if RealAbs(m[r][col]) > RealAbs(m[piv][col]) then r else piv)
  }

  /**
   * The pivot row for column `col`: the first of the rows `col..2` whose
   * entry in `col` is largest in magnitude.
   */
  function PivotRow(m: seq<seq<real>>, col: nat): (p: nat)
    requires |m| == 3 && (forall i :: 0 <= i < 3 ==> |m[i]| == 3) && col < 3
    ensures col <= p < 3
    ensures forall i :: col <= i < 3 ==> RealAbs(m[i][col]) <= RealAbs(m[p][col])
    ensures forall i :: col <= i < p ==> RealAbs(m[i][col]) < RealAbs(m[p][col])
  {
    PivotFrom(m, col, col + 1, col)
  }

  /** Rows `i` and `j` exchanged, right-hand sides included. */
  function Swapped(s: Sys, i: nat, j: nat): (t: Sys)
    requires Valid(s) && i < 3 && j < 3
    ensures Valid(t)
    ensures t.m[i] == s.m[j] && t.v[i] == s.v[j] && t.m[j] == s.m[i] && t.v[j] == s.v[i]
    ensures forall k :: 0 <= k < 3 && k != i && k != j ==> t.m[k] == s.m[k] && t.v[k] == s.v[k]
  {
    Sys(s.m[i := s.m[j]][j := s.m[i]], s.v[i := s.v[j]][j := s.v[i]])
  }

  /** Row `r` minus `f` times row `col`, in the columns from `col` on. */
  function Reduced(row: seq<real>, pivotRow: seq<real>, f: real, col: nat): (n: seq<real>)
    requires |row| == 3 && |pivotRow| == 3
    ensures |n| == 3
    ensures forall c :: 0 <= c < 3 ==> n[c] == if c >= col then row[c] - f * pivotRow[c] else row[c]
  {
    seq(3, c requires 0 <= c < 3 => if c >= col then row[c] - f * pivotRow[c] else row[c])
  }

  /** The elimination factor for row `r`: `M[r][col] / M[col][col]`. */
  function Factor(s: Sys, col: nat, r: nat): real
    requires Valid(s) && col < 3 && r < 3 && s.m[col][col] != 0.0
  {
    s.m[r][col] / s.m[col][col]
  }

  /** One pass of the "eliminate below" loop: row `r` reduced by row `col`. */
  function EliminatedRow(s: Sys, col: nat, r: nat): (t: Sys)
    requires Valid(s) && col < r < 3 && s.m[col][col] != 0.0
    ensures Valid(t) && t.m[col] == s.m[col]
    ensures forall i :: 0 <= i < 3 && i != r ==> t.m[i] == s.m[i] && t.v[i] == s.v[i]
  {
    var f := Factor(s, col, r);
    Sys(s.m[r := Reduced(s.m[r], s.m[col], f, col)], s.v[r := s.v[r] - f * s.v[col]])
  }

  /** The "eliminate below" loop from row `r` on. */
  function EliminateFrom(s: Sys, col: nat, r: nat): (t: Sys)
    requires Valid(s) && col < r <= 3 && s.m[col][col] != 0.0
    ensures Valid(t) && t.m[col] == s.m[col]
    ensures forall i :: 0 <= i < r ==> t.m[i] == s.m[i] && t.v[i] == s.v[i]
    decreases 3 - r
  {
    if r == 3 then s else EliminateFrom(EliminatedRow(s, col, r), col, r + 1)
  }

  /** The pivot for column `col` is too small. */
  predicate Singular(s: Sys, col: nat)
    requires Valid(s) && col < 3
  {
    RealAbs(s.m[PivotRow(s.m, col)][col]) < Tiny
  }

  /** One turn of the column loop: pivot, maybe give up, swap, eliminate below. */
  function Step(s: Sys, col: nat): (r: Option<Sys>)
    requires Valid(s) && col < 3
    ensures r.None? <==> Singular(s, col)
    ensures r.Some? ==> Valid(r.value) && RealAbs(r.value.m[col][col]) >= Tiny
    ensures r.Some? ==> forall i :: 0 <= i < col ==> r.value.m[i] == s.m[i] && r.value.v[i] == s.v[i]
  {
    var piv := PivotRow(s.m, col);
    if RealAbs(s.m[piv][col]) < Tiny then None
    else
      var t := if piv != col then Swapped(s, col, piv) else s;
      Some(EliminateFrom(t, col, col + 1))
  }

  /** The system after the first `k` turns of the column loop, or `None` once a pivot was too small. */
  function Forward(s: Sys, k: nat): (r: Option<Sys>)
    requires Valid(s) && k <= 3
    ensures r.Some? ==> Valid(r.value) && forall i :: 0 <= i < k ==> RealAbs(r.value.m[i][i]) >= Tiny
  {
    if k == 0 then Some(s)
    else
      match Forward(s, k - 1)
      case None => None
      case Some(t) => Step(t, k - 1)
  }

  // ---------------------------------------------------------------- back substitution

  /** The solution vector after back substitution has filled rows `k..2` (the rest still 0). */
  function Back(s: Sys, k: nat): (x: seq<real>)
    requires Valid(s) && k <= 3
    requires forall i :: k <= i < 3 ==> s.m[i][i] != 0.0
    ensures |x| == 3 && forall j :: 0 <= j < k ==> x[j] == 0.0
    decreases 3 - k
  {
    if k == 3 then [0.0, 0.0, 0.0]
    else
      var x := Back(s, k + 1);
      x[k := (s.v[k] - RowSum(s.m[k], x, k + 1, 3)) / s.m[k][k]]
  }

  /** `solve3(a, b)`: `None` is the source's `null`. */
  function Solve3Ref(a: seq<seq<real>>, b: seq<real>): (r: Option<seq<real>>)
    requires Valid(Sys(a, b))
    ensures r.Some? ==> |r.value| == 3
  {
    match Forward(Sys(a, b), 3)
    case None => None
    case Some(t) => Some(Back(t, 0))
  }
}
