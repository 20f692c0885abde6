/**
 * `solve3` as the loops in src/utils/regression.ts run it: the rows of the
 * matrix and the right-hand side are copied into fresh arrays, which the
 * column loop then updates in place (row swaps exchange whole rows, as the
 * source's destructuring assignment does). Every method is proved to follow
 * the reference definition `Solve3Ref` of module Elimination step by step.
 */
module Solver {
  import opened Wrappers
  import opened Numbers
  import opened Elimination
  import opened EliminationProperties

  /** The arrays hold exactly the system `s`. */
  predicate Holds(M: array<seq<real>>, v: array<real>, s: Sys)
    reads M, v
  {
    M[..] == s.m && v[..] == s.v && Valid(s)
  }

  /** `solve3(a, b)`: `None` stands for the source's `null`; `a` and `b` are values and stay as they are. */
  method Solve3(a: seq<seq<real>>, b: seq<real>) returns (res: Option<seq<real>>)
    requires Valid(Sys(a, b))
    ensures res == Solve3Ref(a, b)
  {
    var M := new seq<real>[3](i requires 0 <= i < 3 => a[i]);
    var v := new real[3](i requires 0 <= i < 3 => b[i]);
    assert M[..] == a && v[..] == b;
    ghost var st := Sys(a, b);
    for col := 0 to 3
      invariant Forward(Sys(a, b), col) == Some(st)
      invariant Holds(M, v, st)
    {
      ForwardNext(Sys(a, b), col);
      var ok := Column(M, v, col, st);
      if !ok {
        NoneStays(Sys(a, b), col + 1);
        return None;
      }
      st := Step(st, col).value;
    }
    var x := BackSubstitute(M, v, st);
    return Some(x);
  }

  /** One turn of the column loop: find the pivot, give up if it is too small, swap it up, eliminate below it. */
  method Column(M: array<seq<real>>, v: array<real>, col: nat, ghost s: Sys) returns (ok: bool)
    requires Holds(M, v, s) && col < 3
    modifies M, v
    ensures ok <==> Step(s, col).Some?
    ensures ok ==> Holds(M, v, Step(s, col).value)
  {
    var piv := FindPivot(M, col, s.m);
    if RealAbs(M[piv][col]) < Tiny {
      return false;
    }
    ghost var st := s;
    if piv != col {
      M[col], M[piv] := M[piv], M[col];
      v[col], v[piv] := v[piv], v[col];
      st := Swapped(st, col, piv);
    }
    ghost var t := st;
    assert Step(s, col) == Some(EliminateFrom(t, col, col + 1));
    for r := col + 1 to 3
      invariant Holds(M, v, st)
      invariant st.m[col] == t.m[col]
      invariant EliminateFrom(st, col, r) == EliminateFrom(t, col, col + 1)
    {
      EliminateRow(M, v, col, r, st);
      st := EliminatedRow(st, col, r);
    }
    return true;
  }

  /** The pivot loop: the first row from `col` on whose entry in `col` is largest in magnitude. */
  method FindPivot(M: array<seq<real>>, col: nat, ghost m: seq<seq<real>>) returns (piv: nat)
    requires col < 3 && M[..] == m && |m| == 3 && forall i :: 0 <= i < 3 ==> |m[i]| == 3
    ensures piv == PivotRow(m, col)
  {
    piv := col;
    for r := col + 1 to 3
      invariant col <= piv < r && PivotFrom(m, col, r, piv) == PivotRow(m, col)
    {
      if RealAbs(M[r][col]) > RealAbs(M[piv][col]) {
        piv := r;
      }
    }
  }

  /** Row `row` reduced by `pivotRow` in the columns `col..c - 1` only: the inner loop halfway. */
  function PartlyReduced(row: seq<real>, pivotRow: seq<real>, f: real, col: nat, c: nat): (n: seq<real>)
    requires |row| == 3 && |pivotRow| == 3
    ensures |n| == 3
    ensures forall k :: 0 <= k < 3 ==> n[k] == if col <= k < c then row[k] - f * pivotRow[k] else row[k]
  {
    seq(3, k requires 0 <= k < 3 => if col <= k < c then row[k] - f * pivotRow[k] else row[k])
  }

  /** One turn of the inner loop reduces one more column. */
  lemma {:induction false} PartlyReducedStep(row: seq<real>, pivotRow: seq<real>, f: real, col: nat, c: nat)
    requires |row| == 3 && |pivotRow| == 3 && col <= c < 3
    ensures var n := PartlyReduced(row, pivotRow, f, col, c);
      n[c := n[c] - f * pivotRow[c]] == PartlyReduced(row, pivotRow, f, col, c + 1)
  {
    var n := PartlyReduced(row, pivotRow, f, col, c);
    var n' := PartlyReduced(row, pivotRow, f, col, c + 1);
    forall k | 0 <= k < 3
      ensures n[c := n[c] - f * pivotRow[c]][k] == n'[k]
    {
    }
  }

  /** Before the inner loop nothing is reduced; after it, all of `Reduced` is done. */
  lemma {:induction false} PartlyReducedEnds(row: seq<real>, pivotRow: seq<real>, f: real, col: nat)
    requires |row| == 3 && |pivotRow| == 3
    ensures PartlyReduced(row, pivotRow, f, col, col) == row
    ensures PartlyReduced(row, pivotRow, f, col, 3) == Reduced(row, pivotRow, f, col)
  {
    var full, red := PartlyReduced(row, pivotRow, f, col, 3), Reduced(row, pivotRow, f, col);
    forall k | 0 <= k < 3
      ensures full[k] == red[k]
    {
    }
  }

  /**
   * One turn of the "eliminate below" loop: row `r` minus `f` times row
   * `col`, from column `col` on. The row is updated entry by entry in a
   * local copy and stored back once; no other row is read meanwhile.
   */
  method EliminateRow(M: array<seq<real>>, v: array<real>, col: nat, r: nat, ghost s: Sys)
    requires Holds(M, v, s) && col < r < 3 && s.m[col][col] != 0.0
    modifies M, v
    ensures Holds(M, v, EliminatedRow(s, col, r))
  {
    var f := M[r][col] / M[col][col];
    var row, pivotRow := M[r], M[col];
    var vr, vc := v[r], v[col];
    assert row == s.m[r] && pivotRow == s.m[col] && vr == s.v[r] && vc == s.v[col];
    assert f == Factor(s, col, r);
    PartlyReducedEnds(row, pivotRow, f, col);
    for c := col to 3
      invariant row == PartlyReduced(s.m[r], pivotRow, f, col, c)
      invariant M[..] == s.m && v[..] == s.v
    {
      PartlyReducedStep(s.m[r], pivotRow, f, col, c);
      row := row[c := row[c] - f * pivotRow[c]];
    }
    var rhs := vr - f * vc;
    EliminatedRowIs(s, col, r, f, row, rhs);
    M[r] := row;
    v[r] := rhs;
    assert M[..] == s.m[r := row] && v[..] == s.v[r := rhs];
  }

  lemma {:induction false} EliminatedRowIs(s: Sys, col: nat, r: nat, f: real, row: seq<real>, rhs: real)
    requires Valid(s) && col < r < 3 && s.m[col][col] != 0.0 && f == Factor(s, col, r)
    requires row == PartlyReduced(s.m[r], s.m[col], f, col, 3) && rhs == s.v[r] - f * s.v[col]
    ensures EliminatedRow(s, col, r) == Sys(s.m[r := row], s.v[r := rhs])
  {
    PartlyReducedEnds(s.m[r], s.m[col], f, col);
    var e := EliminatedRow(s, col, r);
    assert e.m == s.m[r := Reduced(s.m[r], s.m[col], f, col)];
    assert e.v[r] == s.v[r] - f * s.v[col];
    assert forall i :: 0 <= i < 3 && i != r ==> e.v[i] == s.v[i];
    assert |e.v| == 3;
    assert e.v == s.v[r := s.v[r] - f * s.v[col]];
  }

  /** The back-substitution loop, from the last row up. */
  method BackSubstitute(M: array<seq<real>>, v: array<real>, ghost s: Sys) returns (x: seq<real>)
    requires Holds(M, v, s) && forall i :: 0 <= i < 3 ==> s.m[i][i] != 0.0
    ensures x == Back(s, 0)
  {
    var xs := new real[3];
    xs[0], xs[1], xs[2] := 0.0, 0.0, 0.0;
    var i := 3;
    assert xs[..] == Back(s, 3);
    while i > 0
      invariant 0 <= i <= 3 && xs[..] == Back(s, i)
    {
      i := i - 1;
      ghost var y := xs[..];
      assert M[i] == s.m[i] && v[i] == s.v[i];
      var acc := v[i];
      for j := i + 1 to 3
        invariant xs[..] == y
        invariant acc == s.v[i] - RowSum(s.m[i], y, i + 1, j)
      {
        assert xs[j] == y[j];
        acc := acc - M[i][j] * xs[j];
      }
      xs[i] := acc / M[i][i];
      assert xs[..] == y[i := (s.v[i] - RowSum(s.m[i], y, i + 1, 3)) / s.m[i][i]];
    }
    x := xs[..];
  }
}
