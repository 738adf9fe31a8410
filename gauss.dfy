/** Gaussian elimination with partial pivoting, stated once as functions on an augmented
    system. All three solvers of the repository (js/transform.js `solveEquations`,
    src/utils/transform.ts `solve`, src/utils/texture.ts `solveEquation`) perform, over the
    reals, exactly the row operations defined here; each of them is proved against
    `Forward` and `Solves`.

    An augmented system of size n is n rows of n + 1 entries: row r states
    `M[r][0] * x[0] + ... + M[r][n-1] * x[n-1] == M[r][n]`. */
module Gauss {
  import opened Types
  import opened JsBuiltins

  type Row = seq<real>
  type Matrix = seq<Row>

  /** n rows of n + 1 entries. */
  predicate IsAugmented(M: Matrix, n: nat) {
    |M| == n && forall r :: 0 <= r < n ==> |M[r]| == n + 1
  }

  /** Sum of r[k] * x[k] for lo <= k < hi. */
  function DotRange(r: Row, x: seq<real>, lo: nat, hi: nat): real
    requires lo <= hi <= |r| && hi <= |x|
    decreases hi - lo
  {
    if lo == hi then 0.0 else r[lo] * x[lo] + DotRange(r, x, lo + 1, hi)
  }

  /** x satisfies every equation of the augmented system M. */
  predicate Solves(M: Matrix, n: nat, x: seq<real>)
    requires IsAugmented(M, n)
  {
    |x| == n && forall r :: 0 <= r < n ==> DotRange(M[r], x, 0, n) == M[r][n]
  }

  // ----- pivot choice -----

  /** The pivot search loop from row j on, `best` being the row with the largest magnitude
      in column `col` so far; a later row replaces it only when strictly larger. */
  function PivotScan(M: Matrix, n: nat, col: nat, j: nat, best: nat): (p: nat)
    requires IsAugmented(M, n) && col <= best < n && best < j
    ensures best <= p < n
    decreases n - j
  {
    if j >= n then best
    else PivotScan(M, n, col, j + 1, if Abs(M[j][col]) > Abs(M[best][col]) then j else best)
  }

  /** The pivot row for column i: the first row among i..n-1 of largest magnitude. */
  function Pivot(M: Matrix, n: nat, i: nat): (p: nat)
    requires IsAugmented(M, n) && i < n
    ensures i <= p < n
  {
    PivotScan(M, n, i, i + 1, i)
  }

  lemma {:induction false} PivotScanIsFirstMax(M: Matrix, n: nat, col: nat, j: nat, best: nat)
    requires IsAugmented(M, n) && col <= best < n && best < j
    requires forall k :: col <= k < j && k < n ==> Abs(M[k][col]) <= Abs(M[best][col])
    requires forall k :: col <= k < best ==> Abs(M[k][col]) < Abs(M[best][col])
    ensures var p := PivotScan(M, n, col, j, best);
      col <= p < n &&
      (forall k :: col <= k < n ==> Abs(M[k][col]) <= Abs(M[p][col])) &&
      (forall k :: col <= k < p ==> Abs(M[k][col]) < Abs(M[p][col]))
    decreases n - j
  {
    if j < n {
      var next := if Abs(M[j][col]) > Abs(M[best][col]) then j else best;
      PivotScanIsFirstMax(M, n, col, j + 1, next);
    }
  }

  /** The pivot row holds a largest magnitude of column i among rows i..n-1, and every row
      before it has a strictly smaller one (ties go to the lowest row). */
  lemma PivotIsFirstMax(M: Matrix, n: nat, i: nat)
    requires IsAugmented(M, n) && i < n
    ensures var p := Pivot(M, n, i);
      i <= p < n &&
      (forall k :: i <= k < n ==> Abs(M[k][i]) <= Abs(M[p][i])) &&
      (forall k :: i <= k < p ==> Abs(M[k][i]) < Abs(M[p][i]))
  {
    PivotScanIsFirstMax(M, n, i, i + 1, i);
  }

  /** A zero pivot means the whole column from row i down is zero. */
  lemma ZeroPivotColumn(M: Matrix, n: nat, i: nat)
    requires IsAugmented(M, n) && i < n
    requires M[Pivot(M, n, i)][i] == 0.0
    ensures forall k :: i <= k < n ==> M[k][i] == 0.0
  {
    PivotIsFirstMax(M, n, i);
  }

  // ----- one elimination step -----

  function SwapRows(M: Matrix, n: nat, i: nat, p: nat): (S: Matrix)
    requires IsAugmented(M, n) && i < n && p < n
    ensures IsAugmented(S, n)
  {
    M[i := M[p]][p := M[i]]
  }

  /** Row r after subtracting (r[i] / pivot[i]) times the pivot row from columns i..n, the
      entry in column i being exactly zero; columns before i are left alone. */
  function ReduceRow(r: Row, pivot: Row, i: nat): (R: Row)
    requires i < |r| == |pivot| && pivot[i] != 0.0
    ensures |R| == |r|
  {
    seq(|r|, k requires 0 <= k < |r| =>
      if k < i then r[k] else if k == i then 0.0 else r[k] - (r[i] / pivot[i]) * pivot[k])
  }

  /** Every row below row i reduced against row i. */
  function EliminateBelow(M: Matrix, n: nat, i: nat): (E: Matrix)
    requires IsAugmented(M, n) && i < n && M[i][i] != 0.0
    ensures IsAugmented(E, n)
  {
    seq(n, r requires 0 <= r < n => if r <= i then M[r] else ReduceRow(M[r], M[i], i))
  }

  /** Forward elimination from column i on: pivot, swap, eliminate, for every column;
      `None` when a pivot is zero. */
  function Forward(M: Matrix, n: nat, i: nat): Option<Matrix>
    requires IsAugmented(M, n) && i <= n
    decreases n - i
  {
    if i == n then Some(M)
    else
      var S := SwapRows(M, n, i, Pivot(M, n, i));
      if S[i][i] == 0.0 then None else Forward(EliminateBelow(S, n, i), n, i + 1)
  }

  /** One step of forward elimination, taken: with a non-zero pivot the rest of the
      elimination continues from the eliminated matrix; with a zero pivot it fails. */
  lemma ForwardUnfold(M: Matrix, n: nat, i: nat)
    requires IsAugmented(M, n) && i < n
    ensures var S := SwapRows(M, n, i, Pivot(M, n, i));
      if S[i][i] == 0.0 then Forward(M, n, i).None?
      else Forward(M, n, i) == Forward(EliminateBelow(S, n, i), n, i + 1)
  {
  }

  // ----- shape of the result -----

  /** Below the diagonal, the first c columns are zero. */
  predicate ZeroBelow(M: Matrix, n: nat, c: nat)
    requires IsAugmented(M, n) && c <= n
  {
    forall r, k :: 0 <= k < c && k < r < n ==> M[r][k] == 0.0
  }

  /** The first c diagonal entries are non-zero. */
  predicate NonzeroDiagonal(M: Matrix, n: nat, c: nat)
    requires IsAugmented(M, n) && c <= n
  {
    forall k :: 0 <= k < c ==> M[k][k] != 0.0
  }

  predicate UpperTriangular(M: Matrix, n: nat)
    requires IsAugmented(M, n)
  {
    ZeroBelow(M, n, n) && NonzeroDiagonal(M, n, n)
  }

  /** Swapping row i with a row below it keeps the zeros of the first i columns and the
      first i pivots. */
  lemma SwapKeepsShape(M: Matrix, n: nat, i: nat, p: nat)
    requires IsAugmented(M, n) && i <= p < n
    requires ZeroBelow(M, n, i) && NonzeroDiagonal(M, n, i)
    ensures ZeroBelow(SwapRows(M, n, i, p), n, i) && NonzeroDiagonal(SwapRows(M, n, i, p), n, i)
  {
  }

  /** Eliminating below a non-zero pivot clears column i as well. */
  lemma EliminateExtendsShape(S: Matrix, n: nat, i: nat)
    requires IsAugmented(S, n) && i < n && S[i][i] != 0.0
    requires ZeroBelow(S, n, i) && NonzeroDiagonal(S, n, i)
    ensures ZeroBelow(EliminateBelow(S, n, i), n, i + 1)
    ensures NonzeroDiagonal(EliminateBelow(S, n, i), n, i + 1)
  {
    var E := EliminateBelow(S, n, i);
    forall r, k | 0 <= k < i + 1 && k < r < n
      ensures E[r][k] == 0.0
    {
      if r > i {
        assert E[r] == ReduceRow(S[r], S[i], i);
      }
    }
  }

  /** Forward elimination that succeeds leaves an upper-triangular system with a non-zero
      diagonal. */
  lemma {:induction false} ForwardIsUpperTriangular(M: Matrix, n: nat, i: nat)
    requires IsAugmented(M, n) && i <= n
    requires ZeroBelow(M, n, i) && NonzeroDiagonal(M, n, i)
    requires Forward(M, n, i).Some?
    ensures IsAugmented(Forward(M, n, i).value, n)
    ensures UpperTriangular(Forward(M, n, i).value, n)
    decreases n - i
  {
    if i < n {
      var p := Pivot(M, n, i);
      PivotIsFirstMax(M, n, i);
      var S := SwapRows(M, n, i, p);
      SwapKeepsShape(M, n, i, p);
      EliminateExtendsShape(S, n, i);
      ForwardIsUpperTriangular(EliminateBelow(S, n, i), n, i + 1);
    }
  }

  /** Forward elimination fails exactly at a column whose entries from the diagonal down
      are all zero, once the columns before it have been cleared. */
  lemma {:induction false} ForwardFailsOnZeroColumn(M: Matrix, n: nat, i: nat)
    requires IsAugmented(M, n) && i <= n
    requires Forward(M, n, i).None?
    ensures exists j, E :: i <= j < n && Reaches(M, n, i, j, E) && IsAugmented(E, n) && forall k :: j <= k < n ==> E[k][j] == 0.0
    decreases n - i
  {
    var p := Pivot(M, n, i);
    var S := SwapRows(M, n, i, p);
    if S[i][i] == 0.0 {
      ZeroPivotColumn(M, n, i);
      assert Reaches(M, n, i, i, M);
    } else {
      var E := EliminateBelow(S, n, i);
      ForwardFailsOnZeroColumn(E, n, i + 1);
      var j, F :| i + 1 <= j < n && Reaches(E, n, i + 1, j, F) && IsAugmented(F, n) && forall k :: j <= k < n ==> F[k][j] == 0.0;
      assert Reaches(M, n, i, j, F);
    }
  }

  /** E is the matrix at the start of step j when forward elimination starts from M at
      step i and every pivot in between is non-zero. */
  predicate Reaches(M: Matrix, n: nat, i: nat, j: nat, E: Matrix)
    requires IsAugmented(M, n) && i <= j <= n
    decreases j - i
  {
    if i == j then E == M
    else
      var S := SwapRows(M, n, i, Pivot(M, n, i));
      S[i][i] != 0.0 && Reaches(EliminateBelow(S, n, i), n, i + 1, j, E)
  }

  // ----- solutions are preserved -----

  /** DotRange only looks at x[lo..hi). */
  lemma {:induction false} DotRangeFrame(r: Row, x: seq<real>, y: seq<real>, lo: nat, hi: nat)
    requires lo <= hi <= |r| && hi <= |x| && hi <= |y|
    requires forall k :: lo <= k < hi ==> x[k] == y[k]
    ensures DotRange(r, x, lo, hi) == DotRange(r, y, lo, hi)
    decreases hi - lo
  {
    if lo < hi {
      DotRangeFrame(r, x, y, lo + 1, hi);
    }
  }

  /** Leading zero coefficients contribute nothing. */
  lemma {:induction false} DotRangeSkipZeros(r: Row, x: seq<real>, lo: nat, mid: nat, hi: nat)
    requires lo <= mid <= hi <= |r| && hi <= |x|
    requires forall k :: lo <= k < mid ==> r[k] == 0.0
    ensures DotRange(r, x, lo, hi) == DotRange(r, x, mid, hi)
    decreases mid - lo
  {
    if lo < mid {
      DotRangeSkipZeros(r, x, lo + 1, mid, hi);
    }
  }

  /** DotRange is linear in the row: reducing r against the pivot row subtracts
      (r[i] / pivot[i]) times the pivot row's sum, when the pivot row is zero before
      column i. */
  lemma {:induction false} DotRangeReduce(r: Row, pivot: Row, i: nat, x: seq<real>, lo: nat, hi: nat)
    requires i < |r| == |pivot| && pivot[i] != 0.0
    requires forall k :: 0 <= k < i ==> pivot[k] == 0.0
    requires lo <= hi <= |r| && hi <= |x|
    ensures DotRange(ReduceRow(r, pivot, i), x, lo, hi)
         == DotRange(r, x, lo, hi) - (r[i] / pivot[i]) * DotRange(pivot, x, lo, hi)
    decreases hi - lo
  {
    if lo < hi {
      DotRangeReduce(r, pivot, i, x, lo + 1, hi);
      var R := ReduceRow(r, pivot, i);
      assert R[lo] == r[lo] - (r[i] / pivot[i]) * pivot[lo];
    }
  }

  /** Swapping two rows does not change the solutions. */
  lemma SwapPreservesSolutions(M: Matrix, n: nat, i: nat, p: nat, x: seq<real>)
    requires IsAugmented(M, n) && i < n && p < n
    ensures Solves(SwapRows(M, n, i, p), n, x) <==> Solves(M, n, x)
  {
    var S := SwapRows(M, n, i, p);
    if |x| == n {
      if Solves(M, n, x) {
        forall r | 0 <= r < n ensures DotRange(S[r], x, 0, n) == S[r][n] {
          if r == p { assert S[r] == M[i]; } else if r == i { assert S[r] == M[p]; } else { assert S[r] == M[r]; }
        }
      }
      if Solves(S, n, x) {
        forall r | 0 <= r < n ensures DotRange(M[r], x, 0, n) == M[r][n] {
          if r == p { assert S[i] == M[r]; } else if r == i { assert S[p] == M[r]; } else { assert S[r] == M[r]; }
        }
      }
    }
  }

  /** When x satisfies the pivot row, it satisfies a row reduced against it exactly when it
      satisfies the row itself. */
  lemma ReducedRowEquivalent(r: Row, pivot: Row, i: nat, n: nat, x: seq<real>)
    requires i < n && |r| == |pivot| == n + 1 && |x| == n && pivot[i] != 0.0
    requires forall k :: 0 <= k < i ==> pivot[k] == 0.0
    requires DotRange(pivot, x, 0, n) == pivot[n]
    ensures DotRange(ReduceRow(r, pivot, i), x, 0, n) == ReduceRow(r, pivot, i)[n]
        <==> DotRange(r, x, 0, n) == r[n]
  {
    DotRangeReduce(r, pivot, i, x, 0, n);
    var c := r[i] / pivot[i];
    assert ReduceRow(r, pivot, i)[n] == r[n] - c * pivot[n];
  }

  /** Eliminating below a non-zero pivot whose row is zero before column i does not change
      the solutions. */
  lemma EliminatePreservesSolutions(S: Matrix, n: nat, i: nat, x: seq<real>)
    requires IsAugmented(S, n) && i < n && S[i][i] != 0.0
    requires forall k :: 0 <= k < i ==> S[i][k] == 0.0
    ensures Solves(EliminateBelow(S, n, i), n, x) <==> Solves(S, n, x)
  {
    var E := EliminateBelow(S, n, i);
    assert E[i] == S[i];
    if |x| == n {
      if Solves(S, n, x) {
        forall r | 0 <= r < n ensures DotRange(E[r], x, 0, n) == E[r][n] {
          if r > i { ReducedRowEquivalent(S[r], S[i], i, n, x); }
        }
      }
      if Solves(E, n, x) {
        forall r | 0 <= r < n ensures DotRange(S[r], x, 0, n) == S[r][n] {
          if r > i { ReducedRowEquivalent(S[r], S[i], i, n, x); } else { assert E[r] == S[r]; }
        }
      }
    }
  }

  /** One elimination step has the same solutions as the system before it. */
  lemma StepPreservesSolutions(M: Matrix, n: nat, i: nat, x: seq<real>)
    requires IsAugmented(M, n) && i < n && ZeroBelow(M, n, i)
    requires SwapRows(M, n, i, Pivot(M, n, i))[i][i] != 0.0
    ensures var E := EliminateBelow(SwapRows(M, n, i, Pivot(M, n, i)), n, i);
      Solves(E, n, x) <==> Solves(M, n, x)
  {
    var p := Pivot(M, n, i);
    var S := SwapRows(M, n, i, p);
    assert S[i] == M[p];
    SwapPreservesSolutions(M, n, i, p, x);
    EliminatePreservesSolutions(S, n, i, x);
  }

  /** Forward elimination keeps the solution set: x solves the reduced system exactly when
      it solves the original one. */
  lemma {:induction false} ForwardPreservesSolutions(M: Matrix, n: nat, i: nat, x: seq<real>)
    requires IsAugmented(M, n) && i <= n && ZeroBelow(M, n, i) && NonzeroDiagonal(M, n, i)
    requires Forward(M, n, i).Some?
    ensures IsAugmented(Forward(M, n, i).value, n)
    ensures Solves(Forward(M, n, i).value, n, x) <==> Solves(M, n, x)
    decreases n - i
  {
    ForwardIsUpperTriangular(M, n, i);
    if i < n {
      var p := Pivot(M, n, i);
      PivotIsFirstMax(M, n, i);
      var S := SwapRows(M, n, i, p);
      SwapKeepsShape(M, n, i, p);
      EliminateExtendsShape(S, n, i);
      StepPreservesSolutions(M, n, i, x);
      ForwardPreservesSolutions(EliminateBelow(S, n, i), n, i + 1, x);
    }
  }

  /** An upper-triangular system with a non-zero diagonal has at most one solution. */
  lemma TriangularSolutionUnique(U: Matrix, n: nat, x: seq<real>, y: seq<real>)
    requires IsAugmented(U, n) && UpperTriangular(U, n)
    requires Solves(U, n, x) && Solves(U, n, y)
    ensures x == y
  {
    var r := n;
    while r > 0
      invariant 0 <= r <= n
      invariant forall k :: r <= k < n ==> x[k] == y[k]
    {
      r := r - 1;
      RowDeterminesUnknown(U[r], n, r, x, y);
    }
  }

  /** A row that is zero before its non-zero diagonal entry r fixes unknown r once the later
      unknowns are fixed. */
  lemma RowDeterminesUnknown(row: Row, n: nat, r: nat, x: seq<real>, y: seq<real>)
    requires r < n && |row| == n + 1 && |x| == n && |y| == n && row[r] != 0.0
    requires forall k :: 0 <= k < r ==> row[k] == 0.0
    requires DotRange(row, x, 0, n) == row[n] && DotRange(row, y, 0, n) == row[n]
    requires forall k :: r < k < n ==> x[k] == y[k]
    ensures x[r] == y[r]
  {
    DotRangeSkipZeros(row, x, 0, r, n);
    DotRangeSkipZeros(row, y, 0, r, n);
    DotRangeFrame(row, x, y, r + 1, n);
    CancelLeft(row[r], x[r], y[r]);
  }

  lemma CancelLeft(a: real, b: real, c: real)
    requires a != 0.0 && a * b == a * c
    ensures b == c
  {
    assert a * (b - c) == 0.0;
  }

  /** When forward elimination succeeds, the system has at most one solution. */
  lemma SolutionUnique(M: Matrix, n: nat, x: seq<real>, y: seq<real>)
    requires IsAugmented(M, n) && Forward(M, n, 0).Some?
    requires Solves(M, n, x) && Solves(M, n, y)
    ensures x == y
  {
    ForwardPreservesSolutions(M, n, 0, x);
    ForwardPreservesSolutions(M, n, 0, y);
    ForwardIsUpperTriangular(M, n, 0);
    TriangularSolutionUnique(Forward(M, n, 0).value, n, x, y);
  }

  /** Back substitution's goal for the rows from r down: each solved row's sum from its
      diagonal on equals its right-hand side. */
  predicate RowsSolvedFrom(U: Matrix, n: nat, x: seq<real>, r: int)
    requires IsAugmented(U, n) && |x| == n && -1 <= r
  {
    forall k :: r < k < n ==> DotRange(U[k], x, k, n) == U[k][n]
  }

  /** Once every row is solved from its diagonal on, x solves the triangular system. */
  lemma RowsSolvedSolve(U: Matrix, n: nat, x: seq<real>)
    requires IsAugmented(U, n) && ZeroBelow(U, n, n) && |x| == n
    requires RowsSolvedFrom(U, n, x, -1)
    ensures Solves(U, n, x)
  {
    forall r | 0 <= r < n ensures DotRange(U[r], x, 0, n) == U[r][n] {
      DotRangeSkipZeros(U[r], x, 0, r, n);
    }
  }

  /** Setting x[r] from the sum of the later unknowns solves row r and leaves every row
      below it solved. */
  lemma SolveNextRow(U: Matrix, n: nat, x: seq<real>, r: nat, sum: real)
    requires IsAugmented(U, n) && |x| == n && r < n && U[r][r] != 0.0
    requires RowsSolvedFrom(U, n, x, r)
    requires sum == DotRange(U[r], x, r + 1, n)
    ensures RowsSolvedFrom(U, n, x[r := (U[r][n] - sum) / U[r][r]], r - 1)
  {
    var x' := x[r := (U[r][n] - sum) / U[r][r]];
    forall k | r < k < n ensures DotRange(U[k], x', k, n) == U[k][n] {
      DotRangeFrame(U[k], x, x', k, n);
    }
    DotRangeFrame(U[r], x, x', r + 1, n);
  }

  /** Setting x[i] leaves every sum over the later unknowns as it was, and adds
      U[r][i] * x[i] to a sum that starts at column i. */
  lemma SolvedEntryFrames(U: Matrix, n: nat, x: seq<real>, i: nat, v: real)
    requires IsAugmented(U, n) && |x| == n && i < n
    ensures forall r :: 0 <= r < n ==> DotRange(U[r], x[i := v], i + 1, n) == DotRange(U[r], x, i + 1, n)
    ensures forall r :: i < r < n ==> DotRange(U[r], x[i := v], r + 1, n) == DotRange(U[r], x, r + 1, n)
    ensures forall r :: 0 <= r < n ==> DotRange(U[r], x[i := v], i, n) == U[r][i] * v + DotRange(U[r], x, i + 1, n)
  {
    var x' := x[i := v];
    forall r | 0 <= r < n
      ensures DotRange(U[r], x', i + 1, n) == DotRange(U[r], x, i + 1, n)
      ensures i < r ==> DotRange(U[r], x', r + 1, n) == DotRange(U[r], x, r + 1, n)
    {
      DotRangeFrame(U[r], x', x, i + 1, n);
      if i < r {
        DotRangeFrame(U[r], x', x, r + 1, n);
      }
    }
  }
}
