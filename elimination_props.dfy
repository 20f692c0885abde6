/** What `solve3` promises: its pivot choice, when it gives up, and that its answer solves the system. */
module EliminationProperties {
  import opened Wrappers
  import opened Numbers
  import opened Elimination

  // ---------------------------------------------------------------- giving up

  /** Some column among the first `k` met a pivot that was too small. */
  predicate FailsBefore(s: Sys, k: nat)
    requires Valid(s) && k <= 3
  {
    exists j :: 0 <= j < k && Forward(s, j).Some? && Singular(Forward(s, j).value, j)
  }

  /** The column loop gives up exactly when some pivot is smaller than `Tiny`. */
  lemma {:induction false} ForwardNoneIff(s: Sys, k: nat)
    requires Valid(s) && k <= 3
    ensures Forward(s, k).None? <==> FailsBefore(s, k)
  {
    if k > 0 {
      ForwardNoneIff(s, k - 1);
      if Forward(s, k - 1).None? {
        FailsBeforeGrows(s, k);
      } else {
        FailsBeforeLast(s, k);
      }
    }
  }

  lemma {:induction false} FailsBeforeGrows(s: Sys, k: nat)
    requires Valid(s) && 0 < k <= 3 && FailsBefore(s, k - 1)
    ensures FailsBefore(s, k)
  {
    var j :| 0 <= j < k - 1 && Forward(s, j).Some? && Singular(Forward(s, j).value, j);
    assert 0 <= j < k;
  }

  /** Once the first `k - 1` columns went through, column `k - 1` decides. */
  lemma {:induction false} FailsBeforeLast(s: Sys, k: nat)
    requires Valid(s) && 0 < k <= 3 && !FailsBefore(s, k - 1) && Forward(s, k - 1).Some?
    ensures FailsBefore(s, k) <==> Singular(Forward(s, k - 1).value, k - 1)
  {
    if !Singular(Forward(s, k - 1).value, k - 1) {
      forall j | 0 <= j < k && Forward(s, j).Some?
        ensures !Singular(Forward(s, j).value, j)
      {
        if j < k - 1 {
          assert !FailsBefore(s, k - 1);
        }
      }
    }
  }

  /** The column loop goes on from where it is. */
  lemma {:induction false} ForwardNext(s: Sys, k: nat)
    requires Valid(s) && k < 3 && Forward(s, k).Some?
    ensures Forward(s, k + 1) == Step(Forward(s, k).value, k)
  {
  }

  /** Once the column loop has given up, it stays given up. */
  lemma {:induction false} NoneStays(s: Sys, k: nat)
    requires Valid(s) && k <= 3 && Forward(s, k).None?
    ensures Forward(s, 3).None?
    decreases 3 - k
  {
    if k < 3 {
      NoneStays(s, k + 1);
    }
  }

  /** `solve3` returns `null` exactly when some pivot is smaller than `Tiny`. */
  lemma {:induction false} Solve3NullIff(a: seq<seq<real>>, b: seq<real>)
    requires Valid(Sys(a, b))
    ensures Solve3Ref(a, b).None? <==> FailsBefore(Sys(a, b), 3)
  {
    ForwardNoneIff(Sys(a, b), 3);
  }

  // ---------------------------------------------------------------- the zero pattern

  lemma {:induction false} ReducedClearsColumn(row: seq<real>, pivotRow: seq<real>, col: nat)
    requires |row| == 3 && |pivotRow| == 3 && col < 3 && pivotRow[col] != 0.0
    ensures Reduced(row, pivotRow, row[col] / pivotRow[col], col)[col] == 0.0
  {
    DivTimes(row[col], pivotRow[col]);
  }

  /** Every row from `r` on is reduced by the pivot row with its own factor. */
  lemma {:induction false} EliminateFromRows(s: Sys, col: nat, r: nat, i: nat)
    requires Valid(s) && col < r <= i < 3 && s.m[col][col] != 0.0
    ensures EliminateFrom(s, col, r).m[i] == Reduced(s.m[i], s.m[col], Factor(s, col, i), col)
    decreases 3 - r
  {
    var t := EliminatedRow(s, col, r);
    if i > r {
      EliminateFromRows(t, col, r + 1, i);
      assert Factor(t, col, i) == Factor(s, col, i);
    }
  }

  /** A turn of the column loop clears column `col` below the diagonal and keeps the earlier zeros. */
  lemma {:induction false} StepLowerZero(s: Sys, col: nat)
    requires Valid(s) && col < 3 && LowerZero(s, col) && Step(s, col).Some?
    ensures LowerZero(Step(s, col).value, col + 1)
  {
    var piv := PivotRow(s.m, col);
    var t := if piv != col then Swapped(s, col, piv) else s;
    assert LowerZero(t, col);
    var u := EliminateFrom(t, col, col + 1);
    forall r, c | 0 <= c < col + 1 && c < r < 3
      ensures u.m[r][c] == 0.0
    {
      if c == col {
        EliminateFromRows(t, col, col + 1, r);
        ReducedClearsColumn(t.m[r], t.m[col], col);
      }
    }
  }

  lemma {:induction false} ForwardLowerZero(s: Sys, k: nat)
    requires Valid(s) && k <= 3 && Forward(s, k).Some?
    ensures LowerZero(Forward(s, k).value, k)
  {
    if k > 0 {
      ForwardLowerZero(s, k - 1);
      StepLowerZero(Forward(s, k - 1).value, k - 1);
    }
  }

  // ---------------------------------------------------------------- the solutions are kept

  /** Exchanging two equations keeps the solutions. */
  lemma {:induction false} SwappedSolves(s: Sys, i: nat, j: nat, x: seq<real>)
    requires Valid(s) && i < 3 && j < 3
    ensures Solves(s, x) <==> Solves(Swapped(s, i, j), x)
  {
    var t := Swapped(s, i, j);
    if |x| == 3 {
      assert forall e :: 0 <= e < 3 ==> Lhs(t, e, x) == Lhs(s, if e == i then j else if e == j then i else e, x);
      assert forall e :: 0 <= e < 3 ==> t.v[e] == s.v[if e == i then j else if e == j then i else e];
      if Solves(t, x) {
        assert forall e :: 0 <= e < 3 ==> Lhs(s, e, x) == Lhs(t, if e == i then j else if e == j then i else e, x);
      }
    }
  }

  lemma {:induction false} Dot3(row: seq<real>, x: seq<real>)
    requires |row| == 3 && |x| == 3
    ensures RowSum(row, x, 0, 3) == row[0] * x[0] + row[1] * x[1] + row[2] * x[2]
  {
  }

  /** A row reduced by a pivot row with zeros before `col` is the full linear combination. */
  lemma {:induction false} ReducedDot(q: seq<real>, p: seq<real>, f: real, col: nat, x: seq<real>)
    requires |q| == 3 && |p| == 3 && |x| == 3
    requires forall c :: 0 <= c < col && c < 3 ==> p[c] == 0.0
    ensures RowSum(Reduced(q, p, f, col), x, 0, 3) == RowSum(q, x, 0, 3) - f * RowSum(p, x, 0, 3)
  {
    var n := Reduced(q, p, f, col);
    ReducedEverywhere(q, p, f, col);
    CombinedDot(q, p, n, x, f, RowSum(q, x, 0, 3), RowSum(p, x, 0, 3), RowSum(n, x, 0, 3));
  }

  /** Dotting `q - f * p` with `x`, entry by entry, gives `q . x - f * (p . x)`. */
  lemma {:induction false} CombinedDot(q: seq<real>, p: seq<real>, n: seq<real>, x: seq<real>,
                                       f: real, sq: real, sp: real, sn: real)
    requires |q| == 3 && |p| == 3 && |n| == 3 && |x| == 3
    requires forall c :: 0 <= c < 3 ==> n[c] == q[c] - f * p[c]
    requires sq == RowSum(q, x, 0, 3) && sp == RowSum(p, x, 0, 3) && sn == RowSum(n, x, 0, 3)
    ensures sn == sq - f * sp
  {
    Dot3(n, x);
    Dot3(q, x);
    Dot3(p, x);
    Combination(q[0], q[1], q[2], p[0], p[1], p[2], n[0], n[1], n[2], x[0], x[1], x[2], f);
  }

  /** With zeros before `col` in the pivot row, the reduction covers every column. */
  lemma {:induction false} ReducedEverywhere(q: seq<real>, p: seq<real>, f: real, col: nat)
    requires |q| == 3 && |p| == 3
    requires forall c :: 0 <= c < col && c < 3 ==> p[c] == 0.0
    ensures forall c :: 0 <= c < 3 ==> Reduced(q, p, f, col)[c] == q[c] - f * p[c]
  {
    forall c | 0 <= c < 3
      ensures Reduced(q, p, f, col)[c] == q[c] - f * p[c]
    {
      if c < col {
        TimesZero(f, p[c]);
      }
    }
  }

  /**
   * Subtracting `f` times equation `col` from equation `r` keeps the
   * solutions, as long as equation `col` has no terms left of `col`.
   */
  lemma {:induction false} EliminatedRowSolves(s: Sys, col: nat, r: nat, x: seq<real>)
    requires Valid(s) && col < r < 3 && s.m[col][col] != 0.0 && |x| == 3
    requires forall c :: 0 <= c < col ==> s.m[col][c] == 0.0
    ensures Solves(s, x) <==> Solves(EliminatedRow(s, col, r), x)
  {
    var t := EliminatedRow(s, col, r);
    var f := Factor(s, col, r);
    ReducedDot(s.m[r], s.m[col], f, col, x);
    assert Lhs(t, r, x) == Lhs(s, r, x) - f * Lhs(s, col, x);
    assert forall e :: 0 <= e < 3 && e != r ==> Lhs(t, e, x) == Lhs(s, e, x);
    CombinedSolves(s, t, col, r, f, x);
  }

  /** Equation `r` replaced by itself minus `f` times equation `col`, the others kept. */
  lemma {:induction false} CombinedSolves(s: Sys, t: Sys, col: nat, r: nat, f: real, x: seq<real>)
    requires Valid(s) && Valid(t) && col < 3 && r < 3 && col != r && |x| == 3
    requires forall e :: 0 <= e < 3 && e != r ==> Lhs(t, e, x) == Lhs(s, e, x) && t.v[e] == s.v[e]
    requires Lhs(t, r, x) == Lhs(s, r, x) - f * Lhs(s, col, x)
    requires t.v[r] == s.v[r] - f * s.v[col]
    ensures Solves(s, x) <==> Solves(t, x)
  {
    if Lhs(s, col, x) == s.v[col] {
      ShiftedEquation(Lhs(s, r, x), s.v[r], Lhs(t, r, x), t.v[r], Lhs(s, col, x), s.v[col], f);
      assert forall e :: 0 <= e < 3 ==> (Lhs(s, e, x) == s.v[e] <==> Lhs(t, e, x) == t.v[e]);
    } else {
      assert Lhs(t, col, x) != t.v[col];
    }
  }

  lemma {:induction false} ShiftedEquation(ls: real, vs: real, lt: real, vt: real, lc: real, vc: real, f: real)
    requires lt == ls - f * lc && vt == vs - f * vc && lc == vc
    ensures ls == vs <==> lt == vt
  {
  }

  lemma {:induction false} EliminateFromSolves(s: Sys, col: nat, r: nat, x: seq<real>)
    requires Valid(s) && col < r <= 3 && s.m[col][col] != 0.0 && |x| == 3
    requires forall c :: 0 <= c < col ==> s.m[col][c] == 0.0
    ensures Solves(s, x) <==> Solves(EliminateFrom(s, col, r), x)
    decreases 3 - r
  {
    if r < 3 {
      EliminatedRowSolves(s, col, r, x);
      EliminateFromSolves(EliminatedRow(s, col, r), col, r + 1, x);
    }
  }

  lemma {:induction false} StepSolves(s: Sys, col: nat, x: seq<real>)
    requires Valid(s) && col < 3 && LowerZero(s, col) && Step(s, col).Some? && |x| == 3
    ensures Solves(s, x) <==> Solves(Step(s, col).value, x)
  {
    var piv := PivotRow(s.m, col);
    var t := if piv != col then Swapped(s, col, piv) else s;
    if piv != col {
      SwappedSolves(s, col, piv, x);
    }
    assert forall c :: 0 <= c < col ==> t.m[col][c] == 0.0;
    EliminateFromSolves(t, col, col + 1, x);
  }

  /** The column loop keeps exactly the solutions of the original system. */
  lemma {:induction false} ForwardSolves(s: Sys, k: nat, x: seq<real>)
    requires Valid(s) && k <= 3 && Forward(s, k).Some? && |x| == 3
    ensures Solves(s, x) <==> Solves(Forward(s, k).value, x)
  {
    if k > 0 {
      ForwardSolves(s, k - 1, x);
      ForwardLowerZero(s, k - 1);
      StepSolves(Forward(s, k - 1).value, k - 1, x);
    }
  }

  // ---------------------------------------------------------------- back substitution

  /** Later steps of back substitution leave the entries after `k` alone. */
  lemma {:induction false} BackKeepsLater(s: Sys, k: nat)
    requires Valid(s) && k < 3 && forall i :: k <= i < 3 ==> s.m[i][i] != 0.0
    ensures forall j :: k < j < 3 ==> Back(s, k)[j] == Back(s, k + 1)[j]
  {
  }

  /** On a triangular system back substitution meets equation `i`. */
  lemma {:induction false} BackRow(s: Sys, i: nat)
    requires Valid(s) && i < 3 && LowerZero(s, 3) && forall e :: 0 <= e < 3 ==> s.m[e][e] != 0.0
    ensures Lhs(s, i, Back(s, 0)) == s.v[i]
  {
    BackTail(s, i);
    assert Back(s, i) == Back(s, i + 1)[i := (s.v[i] - RowSum(s.m[i], Back(s, i + 1), i + 1, 3)) / s.m[i][i]];
    RowMet(s.m[i], s.v[i], i, Back(s, 0), Back(s, i + 1));
  }

  /** Equation `row · x = v` holds once `x[i]` is solved from it with the later entries of `y`. */
  lemma {:induction false} RowMet(row: seq<real>, v: real, i: nat, x: seq<real>, y: seq<real>)
    requires |row| == 3 && |x| == 3 && |y| == 3 && i < 3 && row[i] != 0.0
    requires forall c :: 0 <= c < i ==> row[c] == 0.0
    requires forall j :: i < j < 3 ==> x[j] == y[j]
    requires x[i] == (v - RowSum(row, y, i + 1, 3)) / row[i]
    ensures RowSum(row, x, 0, 3) == v
  {
    var tail := RowSum(row, y, i + 1, 3);
    SameTail(row, x, y, i + 1, 3);
    SplitRow(row, x, i);
    Substituted(RowSum(row, x, 0, 3), row[i], x[i], tail, v);
  }

  /** `d * ((v - r) / d) + r` is `v`. */
  lemma {:induction false} Substituted(l: real, d: real, xi: real, r: real, v: real)
    requires d != 0.0 && xi == (v - r) / d && l == d * xi + r
    ensures l == v
  {
    DivTimes(v - r, d);
  }


  /** Back substitution solves a system with zeros below a non-zero diagonal. */
  lemma {:induction false} BackSolves(s: Sys)
    requires Valid(s) && LowerZero(s, 3) && forall e :: 0 <= e < 3 ==> s.m[e][e] != 0.0
    ensures Solves(s, Back(s, 0))
  {
    BackRow(s, 0);
    BackRow(s, 1);
    BackRow(s, 2);
  }

  /** The entries of `Back(s, 0)` from `i` on are those of `Back(s, i)`. */
  lemma {:induction false} BackTail(s: Sys, i: nat)
    requires Valid(s) && i < 3 && forall e :: 0 <= e < 3 ==> s.m[e][e] != 0.0
    ensures forall j :: i <= j < 3 ==> Back(s, 0)[j] == Back(s, i)[j]
  {
    BackKeepsLater(s, 0);
    BackKeepsLater(s, 1);
    BackKeepsLater(s, 2);
  }

  lemma {:induction false} SameTail(row: seq<real>, x: seq<real>, y: seq<real>, lo: nat, hi: nat)
    requires lo <= hi <= |row| && hi <= |x| && hi <= |y|
    requires forall j :: lo <= j < hi ==> x[j] == y[j]
    ensures RowSum(row, x, lo, hi) == RowSum(row, y, lo, hi)
    decreases hi - lo
  {
    if lo < hi {
      SameTail(row, x, y, lo, hi - 1);
    }
  }

  /** A row with zeros before `i` adds up from its diagonal term on. */
  lemma {:induction false} SplitRow(row: seq<real>, x: seq<real>, i: nat)
    requires |row| == 3 && |x| == 3 && i < 3 && forall c :: 0 <= c < i ==> row[c] == 0.0
    ensures RowSum(row, x, 0, 3) == row[i] * x[i] + RowSum(row, x, i + 1, 3)
  {
    var t0, t1, t2 := row[0] * x[0], row[1] * x[1], row[2] * x[2];
    assert RowSum(row, x, 0, 1) == t0;
    assert RowSum(row, x, 0, 2) == t0 + t1;
    assert RowSum(row, x, 0, 3) == t0 + t1 + t2;
    if i == 0 {
      assert RowSum(row, x, 1, 2) == t1;
      assert RowSum(row, x, 1, 3) == t1 + t2;
    } else if i == 1 {
      TimesZero(x[0], row[0]);
      assert RowSum(row, x, 2, 3) == t2;
    } else {
      TimesZero(x[0], row[0]);
      TimesZero(x[1], row[1]);
    }
  }

  // ---------------------------------------------------------------- the result

  /** A non-null result of `solve3` solves `a · x = b` exactly. */
  lemma {:induction false} Solve3Solves(a: seq<seq<real>>, b: seq<real>)
    requires Valid(Sys(a, b)) && Solve3Ref(a, b).Some?
    ensures Solves(Sys(a, b), Solve3Ref(a, b).value)
  {
    var s := Sys(a, b);
    var t := Forward(s, 3).value;
    ForwardLowerZero(s, 3);
    assert forall e :: 0 <= e < 3 ==> t.m[e][e] != 0.0;
    BackSolves(t);
    ForwardSolves(s, 3, Back(t, 0));
  }

  /** A triangular system with a nonzero diagonal has no solution but the one back substitution finds. */
  lemma {:induction false} BackUnique(s: Sys, k: nat, y: seq<real>)
    requires Valid(s) && k <= 3 && LowerZero(s, 3) && forall e :: 0 <= e < 3 ==> s.m[e][e] != 0.0
    requires Solves(s, y)
    ensures forall j :: k <= j < 3 ==> Back(s, k)[j] == y[j]
    decreases 3 - k
  {
    if k < 3 {
      BackUnique(s, k + 1, y);
      var z := Back(s, k + 1);
      SameTail(s.m[k], z, y, k + 1, 3);
      assert Lhs(s, k, y) == s.v[k];
      RowSolvedFor(s.m[k], s.v[k], k, y);
      assert Back(s, k) == z[k := (s.v[k] - RowSum(s.m[k], z, k + 1, 3)) / s.m[k][k]];
    }
  }

  /** Equation `row · y = v` with zeros before `i` determines `y[i]` from the later entries. */
  lemma {:induction false} RowSolvedFor(row: seq<real>, v: real, i: nat, y: seq<real>)
    requires |row| == 3 && |y| == 3 && i < 3 && row[i] != 0.0
    requires forall c :: 0 <= c < i ==> row[c] == 0.0
    requires RowSum(row, y, 0, 3) == v
    ensures y[i] == (v - RowSum(row, y, i + 1, 3)) / row[i]
  {
    SplitRow(row, y, i);
    Isolated(v, row[i], y[i], RowSum(row, y, i + 1, 3));
  }

  /** When `solve3` answers, its answer is the only solution of `a · x = b`. */
  lemma {:induction false} Solve3Unique(a: seq<seq<real>>, b: seq<real>, y: seq<real>)
    requires Valid(Sys(a, b)) && Solve3Ref(a, b).Some? && Solves(Sys(a, b), y)
    ensures Solve3Ref(a, b).value == y
  {
    var s := Sys(a, b);
    var t := Forward(s, 3).value;
    ForwardLowerZero(s, 3);
    assert forall e :: 0 <= e < 3 ==> t.m[e][e] != 0.0;
    ForwardSolves(s, 3, y);
    BackUnique(t, 0, y);
    assert Back(t, 0) == y;
  }

  // ---------------------------------------------------------------- algebra on reals

  /** `v == d * yi + r` gives `yi == (v - r) / d`. */
  lemma {:induction false} Isolated(v: real, d: real, yi: real, r: real)
    requires d != 0.0 && v == d * yi + r
    ensures yi == (v - r) / d
  {
    assert v - r == d * yi;
  }

  lemma {:induction false} DivTimes(p: real, q: real)
    requires q != 0.0
    ensures q * (p / q) == p
  {
  }

  lemma {:induction false} TimesZero(f: real, z: real)
    requires z == 0.0
    ensures f * z == 0.0
  {
  }

  lemma {:induction false} Combination(q0: real, q1: real, q2: real, p0: real, p1: real, p2: real,
                    n0: real, n1: real, n2: real, x0: real, x1: real, x2: real, f: real)
    requires n0 == q0 - f * p0 && n1 == q1 - f * p1 && n2 == q2 - f * p2
    ensures n0 * x0 + n1 * x1 + n2 * x2 == (q0 * x0 + q1 * x1 + q2 * x2) - f * (p0 * x0 + p1 * x1 + p2 * x2)
  {
  }
}
