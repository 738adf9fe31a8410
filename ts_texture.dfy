/** src/utils/texture.ts: `solveEquation`, which eliminates in place on the caller's `A`
    and `b`, `getProjectiveTransform`, and the size arithmetic and guards of
    `extractTexture` and `createPerspectivePreview`. The system `A`, `b` is a square
    `array2` and an `array`, as the source's row arrays are never shared between rows. */
module TsTexture {
  import opened Types
  import opened JsBuiltins
  import opened Utils
  import opened Gauss
  import opened Homography
  import opened TextureAreas
  import opened TsTransform

  // ----- the system held by the arrays -----

  /** The augmented system that the arrays hold: row r is A's row r followed by b[r]. */
  ghost function Snapshot(A: array2<real>, b: array<real>): (M: Matrix)
    requires A.Length0 == b.Length && A.Length1 == b.Length
    reads A, b
    ensures IsAugmented(M, b.Length)
  {
    seq(b.Length, r requires 0 <= r < b.Length reads A, b =>
      seq(b.Length + 1, c requires 0 <= c <= b.Length reads A, b => if c < b.Length then A[r, c] else b[r]))
  }

  /** The arrays hold the augmented system M, entry by entry. */
  ghost predicate Mirrors(A: array2<real>, b: array<real>, M: Matrix)
    reads A, b
  {
    var n := b.Length;
    A.Length0 == n && A.Length1 == n && IsAugmented(M, n) &&
    (forall r, c :: 0 <= r < n && 0 <= c < n ==> A[r, c] == M[r][c]) &&
    (forall r :: 0 <= r < n ==> b[r] == M[r][n])
  }

  lemma SnapshotMirrors(A: array2<real>, b: array<real>)
    requires A.Length0 == b.Length && A.Length1 == b.Length
    ensures Mirrors(A, b, Snapshot(A, b))
  {
  }

  /** Arrays holding M hold exactly M. */
  lemma MirrorsSnapshot(A: array2<real>, b: array<real>, M: Matrix)
    requires Mirrors(A, b, M)
    ensures Snapshot(A, b) == M
  {
    var S := Snapshot(A, b);
    forall r | 0 <= r < b.Length ensures S[r] == M[r] {
      assert forall c :: 0 <= c <= b.Length ==> S[r][c] == M[r][c];
    }
  }

  // ----- solveEquation -----

  /** `solveEquation` on the caller's arrays: partial pivoting, a swap of the pivot row's
      entries from column i on and of the right-hand sides, elimination below the pivot,
      then back substitution into a fresh `x`.
      - There is no singularity check: on a zero pivot the source divides by zero and every
        later value is NaN; the model stops there with `NonFinite`.
      - Otherwise x is the unique solution of the system the arrays held, `A` is left
        holding the eliminated (upper-triangular) coefficients and each b[r] holds row r's
        right-hand side less the later unknowns' terms. */
  method SolveEquation(A: array2<real>, b: array<real>) returns (x: Outcome<seq<real>>)
    requires A.Length0 == b.Length && A.Length1 == b.Length
    modifies A, b
    ensures !x.Thrown?
    ensures x.NonFinite? <==> Forward(old(Snapshot(A, b)), b.Length, 0).None?
    ensures x.Done? ==> Solves(old(Snapshot(A, b)), b.Length, x.value)
    ensures x.Done? ==> forall y :: Solves(old(Snapshot(A, b)), b.Length, y) ==> y == x.value
    ensures x.Done? ==> Forward(old(Snapshot(A, b)), b.Length, 0).Some?
    ensures x.Done? ==> (
      var U := Forward(old(Snapshot(A, b)), b.Length, 0).value;
      IsAugmented(U, b.Length) && UpperTriangular(U, b.Length) &&
      (forall r, c :: 0 <= r < b.Length && 0 <= c < b.Length ==> A[r, c] == U[r][c]) &&
      (forall r :: 0 <= r < b.Length ==> b[r] == U[r][b.Length] - DotRange(U[r], x.value, r + 1, b.Length)))
  {
    var n := A.Length0;
    ghost var M0 := Snapshot(A, b);
    SnapshotMirrors(A, b);
    ghost var M := M0;
    var i := 0;
    while i < n
      invariant 0 <= i <= n && Mirrors(A, b, M) && IsAugmented(M, n)
      invariant ZeroBelow(M, n, i) && NonzeroDiagonal(M, n, i)
      invariant Forward(M, n, i) == Forward(M0, n, 0)
    {
      var maxRow := FindPivot(A, b, i, M);
      ForwardUnfold(M, n, i);
      SwapFrom(A, b, i, maxRow, M);
      SwapKeepsShape(M, n, i, maxRow);
      M := SwapRows(M, n, i, maxRow);
      if A[i, i] == 0.0 {
        // -A[k][i] / A[i][i] is NaN from here on
        return NonFinite;
      }
      EliminateBelowPivot(A, b, i, M);
      EliminateExtendsShape(M, n, i);
      M := EliminateBelow(M, n, i);
      i := i + 1;
    }
    assert Forward(M, n, n) == Some(M);
    var solution := BackSubstitute(A, b, M);
    ForwardPreservesSolutions(M0, n, 0, solution);
    forall y | Solves(M0, n, y) ensures y == solution {
      SolutionUnique(M0, n, y, solution);
    }
    return Done(solution);
  }

  /** The pivot search of `solveEquation`: the first row among i..n-1 whose entry in column
      i has the largest magnitude. */
  method FindPivot(A: array2<real>, b: array<real>, i: nat, ghost M: Matrix) returns (maxRow: nat)
    requires Mirrors(A, b, M) && i < b.Length
    ensures maxRow == Pivot(M, b.Length, i)
    ensures i <= maxRow < b.Length && forall k :: i <= k < b.Length ==> Abs(A[k, i]) <= Abs(A[maxRow, i])
    ensures forall k :: i <= k < maxRow ==> Abs(A[k, i]) < Abs(A[maxRow, i])
  {
    var n := A.Length0;
    var maxEl := Abs(A[i, i]);
    maxRow := i;
    var k := i + 1;
    while k < n
      invariant i + 1 <= k <= n && i <= maxRow < k
      invariant maxEl == Abs(M[maxRow][i])
      invariant PivotScan(M, n, i, k, maxRow) == Pivot(M, n, i)
    {
      if Abs(A[k, i]) > maxEl {
        maxEl := Abs(A[k, i]);
        maxRow := k;
      }
      k := k + 1;
    }
    PivotIsFirstMax(M, n, i);
  }

  /** The swap of `solveEquation`: rows i and maxRow exchange their entries from column i
      on, and b[i] and b[maxRow] are exchanged. Below the diagonal the first i columns are
      already zero in both rows, so this is the full row swap. */
  method SwapFrom(A: array2<real>, b: array<real>, i: nat, maxRow: nat, ghost M: Matrix)
    requires Mirrors(A, b, M) && i <= maxRow < b.Length && ZeroBelow(M, b.Length, i)
    modifies A, b
    ensures Mirrors(A, b, SwapRows(M, b.Length, i, maxRow))
  {
    var n := A.Length0;
    ghost var S := SwapRows(M, n, i, maxRow);
    var k := i;
    while k < n
      invariant i <= k <= n
      invariant forall r, c :: 0 <= r < n && 0 <= c < n ==> A[r, c] == if i <= c < k then S[r][c] else M[r][c]
      invariant forall r :: 0 <= r < n ==> b[r] == M[r][n]
    {
      var tmp := A[maxRow, k];
      A[maxRow, k] := A[i, k];
      A[i, k] := tmp;
      k := k + 1;
    }
    var tmp := b[maxRow];
    b[maxRow] := b[i];
    b[i] := tmp;
    assert forall r, c :: 0 <= r < n && 0 <= c < i ==> S[r][c] == M[r][c];
  }

  /** The elimination of `solveEquation` for column i: with c = -A[k][i] / A[i][i], entry i
      of each lower row k is set to 0, c times the pivot row is added to its later entries,
      and c times b[i] to b[k]. Afterwards column i is zero below row i. */
  method EliminateBelowPivot(A: array2<real>, b: array<real>, i: nat, ghost S: Matrix)
    requires Mirrors(A, b, S) && i < b.Length && S[i][i] != 0.0
    modifies A, b
    ensures Mirrors(A, b, EliminateBelow(S, b.Length, i))
    ensures forall k :: i < k < b.Length ==> A[k, i] == 0.0
  {
    var n := A.Length0;
    var k := i + 1;
    while k < n
      invariant i + 1 <= k <= n && ReducedBefore(A, b, S, i, k)
    {
      ReduceLowerRow(A, b, i, k, S);
      k := k + 1;
    }
    ghost var E := EliminateBelow(S, n, i);
    assert forall r :: i < r < n ==> E[r] == ReduceRow(S[r], S[i], i);
  }

  /** The state of the elimination for column i before row k: rows i+1..k-1 of the arrays
      hold their reduced rows, every other row still holds S's. */
  ghost predicate ReducedBefore(A: array2<real>, b: array<real>, S: Matrix, i: nat, k: nat)
    requires IsAugmented(S, b.Length) && i < b.Length && S[i][i] != 0.0
    reads A, b
  {
    var n := b.Length;
    A.Length0 == n && A.Length1 == n &&
    (forall r, q :: 0 <= r < n && 0 <= q < n ==> A[r, q] == if i < r < k then ReduceRow(S[r], S[i], i)[q] else S[r][q]) &&
    (forall r :: 0 <= r < n ==> b[r] == if i < r < k then ReduceRow(S[r], S[i], i)[n] else S[r][n])
  }

  /** One pass of the elimination's outer loop: row k of A and b is reduced against the
      pivot row i with c = -A[k][i] / A[i][i]. */
  method ReduceLowerRow(A: array2<real>, b: array<real>, i: nat, k: nat, ghost S: Matrix)
    requires IsAugmented(S, b.Length) && i < k < b.Length && S[i][i] != 0.0
    requires ReducedBefore(A, b, S, i, k)
    modifies A, b
    ensures ReducedBefore(A, b, S, i, k + 1)
  {
    var n := b.Length;
    assert forall q :: 0 <= q < n ==> A[k, q] == S[k][q] && A[i, q] == S[i][q];
    var c := -A[k, i] / A[i, i];
    ghost var R := ReduceRow(S[k], S[i], i);
    ReduceRowEntries(A, i, k, c, S[k], S[i]);
    NegatedFactor(S[k][i], S[i][i], S[i][n], b[k]);
    b[k] := b[k] + c * b[i];
    assert b[k] == R[n];
    forall r, q | 0 <= r < n && 0 <= q < n
      ensures A[r, q] == if i < r < k + 1 then ReduceRow(S[r], S[i], i)[q] else S[r][q]
    {
      if r != k {
        assert A[r, q] == old(A[r, q]);
      }
    }
  }

  /** The inner loop of the elimination for row k: A[k][i] becomes 0 and every later entry
      of row k gets c times the pivot row's entry added; no other entry of A changes. */
  method ReduceRowEntries(A: array2<real>, i: nat, k: nat, c: real, ghost row: Row, ghost pivot: Row)
    requires A.Length0 == A.Length1 && i < k < A.Length0
    requires |row| == |pivot| == A.Length1 + 1 && pivot[i] != 0.0 && c == -row[i] / pivot[i]
    requires forall q :: 0 <= q < A.Length1 ==> A[k, q] == row[q] && A[i, q] == pivot[q]
    modifies A
    ensures forall q :: 0 <= q < A.Length1 ==> A[k, q] == ReduceRow(row, pivot, i)[q]
    ensures forall r, q :: 0 <= r < A.Length0 && 0 <= q < A.Length1 && r != k ==> A[r, q] == old(A[r, q])
  {
    var n := A.Length1;
    var j := i;
    while j < n
      invariant i <= j <= n
      invariant forall q :: 0 <= q < n ==> A[k, q] == if q < j then ReduceRow(row, pivot, i)[q] else row[q]
      invariant forall r, q :: 0 <= r < A.Length0 && 0 <= q < n && r != k ==> A[r, q] == old(A[r, q])
    {
      if i == j {
        A[k, j] := 0.0;
      } else {
        NegatedFactor(row[i], pivot[i], pivot[j], A[k, j]);
        A[k, j] := A[k, j] + c * A[i, j];
      }
      j := j + 1;
    }
  }

  /** The back substitution of `solveEquation`: x[i] = b[i] / A[i][i] from the last row up,
      subtracting A[k][i] * x[i] from each b[k] above. It divides without checking; on an
      upper-triangular system every divisor is non-zero and x solves the system. */
  method BackSubstitute(A: array2<real>, b: array<real>, ghost U: Matrix) returns (x: seq<real>)
    requires A.Length0 == b.Length && A.Length1 == b.Length
    requires IsAugmented(U, b.Length) && UpperTriangular(U, b.Length)
    requires forall r, c :: 0 <= r < b.Length && 0 <= c < b.Length ==> A[r, c] == U[r][c]
    requires forall r :: 0 <= r < b.Length ==> b[r] == U[r][b.Length]
    modifies b
    ensures Solves(U, b.Length, x)
    ensures forall r :: 0 <= r < b.Length ==> b[r] == U[r][b.Length] - DotRange(U[r], x, r + 1, b.Length)
  {
    var n := b.Length;
    x := seq(n, _ => 0.0);
    var i: int := n - 1;
    while i >= 0
      invariant -1 <= i < n && |x| == n
      invariant forall r :: 0 <= r <= i ==> b[r] == U[r][n] - DotRange(U[r], x, i + 1, n)
      invariant forall r :: i < r < n ==> b[r] == U[r][n] - DotRange(U[r], x, r + 1, n)
      invariant RowsSolvedFrom(U, n, x, i)
    {
      ghost var prev := x;
      SolveNextRow(U, n, x, i, DotRange(U[i], x, i + 1, n));
      x := x[i := b[i] / A[i, i]];
      SolvedEntryFrames(U, n, prev, i, x[i]);
      ghost var before := b[..];
      SubtractColumn(A, b, i, x[i]);
      forall r | 0 <= r < n
        ensures b[r] == U[r][n] - if r < i then DotRange(U[r], x, i, n) else DotRange(U[r], x, r + 1, n)
      {
        if r < i {
          var product := A[r, i] * x[i];
          assert product == U[r][i] * x[i];
          assert b[r] == before[r] - product;
        } else {
          assert b[r] == before[r];
        }
      }
      i := i - 1;
    }
    RowsSolvedSolve(U, n, x);
  }

  /** The inner loop of the back substitution: b[k] -= A[k][i] * xi for every k above row i;
      the other entries of b stay. */
  method SubtractColumn(A: array2<real>, b: array<real>, i: nat, xi: real)
    requires A.Length0 == b.Length && A.Length1 == b.Length && i < b.Length
    modifies b
    ensures forall r :: 0 <= r < b.Length ==> b[r] == if r < i then old(b[r]) - A[r, i] * xi else old(b[r])
  {
    var k: int := i - 1;
    while k >= 0
      invariant -1 <= k < i
      invariant forall r :: 0 <= r < b.Length ==> b[r] == if k < r < i then old(b[r]) - A[r, i] * xi else old(b[r])
    {
      b[k] := b[k] - A[k, i] * xi;
      k := k - 1;
    }
  }

  // ----- getProjectiveTransform -----

  /** `getProjectiveTransform`: the eight coefficient rows and the target vector
      v = [X0, Y0, ..., X3, Y3], solved by `solveEquation`.
      - A missing point throws when its coordinate is read.
      - A zero pivot gives a non-finite vector.
      - Otherwise h0..h7 of the only homography with ninth entry 1 taking each of the
        first four source points to its target. */
  method GetProjectiveTransform(srcPoints: seq<Point>, dstPoints: seq<Point>) returns (h: Outcome<seq<real>>)
    ensures h.Thrown? <==> |srcPoints| < 4 || |dstPoints| < 4
    ensures h.NonFinite? <==> |srcPoints| >= 4 && |dstPoints| >= 4 && Forward(Equations(srcPoints, dstPoints), 8, 0).None?
    ensures h.Done? ==> |h.value| == 8 && forall k :: 0 <= k < 4 ==> Corresponds(h.value, srcPoints[k], dstPoints[k])
    ensures h.Done? ==> forall y :: Solves(Equations(srcPoints, dstPoints), 8, y) ==> y == h.value
  {
    var matrix, complete := PushCoefficientRows(srcPoints, dstPoints);
    if !complete {
      return Thrown;
    }
    var v := PushTargets(dstPoints);
    var A := new real[8, 8]((r, c) => if 0 <= r < |matrix| && 0 <= c < |matrix[r]| then matrix[r][c] else 0.0);
    var b := new real[8](r => if 0 <= r < |v| then v[r] else 0.0);
    ghost var E := Equations(srcPoints, dstPoints);
    LoadedEquations(A, b, matrix, v, srcPoints, dstPoints);
    MirrorsSnapshot(A, b, E);
    h := SolveEquation(A, b);
    if h.Done? {
      EquationsMeanCorrespondence(srcPoints, dstPoints, h.value);
    }
  }

  /** Arrays filled from the pushed rows and targets hold the eight correspondence
      equations. */
  lemma LoadedEquations(A: array2<real>, b: array<real>, matrix: seq<seq<real>>, v: seq<real>,
                        srcPoints: seq<Point>, dstPoints: seq<Point>)
    requires |srcPoints| >= 4 && |dstPoints| >= 4 && |matrix| == 8 && |v| == 8
    requires forall r :: 0 <= r < 8 ==> |matrix[r]| == 8
    requires forall k :: 0 <= k < 4 ==>
      matrix[2 * k] == XCoefficients(srcPoints[k], dstPoints[k]) && matrix[2 * k + 1] == YCoefficients(srcPoints[k], dstPoints[k])
    requires forall k :: 0 <= k < 4 ==> v[2 * k] == dstPoints[k].x && v[2 * k + 1] == dstPoints[k].y
    requires A.Length0 == 8 && A.Length1 == 8 && b.Length == 8
    requires forall r, c :: 0 <= r < 8 && 0 <= c < 8 ==> A[r, c] == matrix[r][c]
    requires forall r :: 0 <= r < 8 ==> b[r] == v[r]
    ensures Mirrors(A, b, Equations(srcPoints, dstPoints))
  {
    var E := Equations(srcPoints, dstPoints);
    forall r | 0 <= r < 8 ensures b[r] == E[r][8] && forall c :: 0 <= c < 8 ==> A[r, c] == E[r][c] {
      var k := r / 2;
      if r % 2 == 0 {
        assert r == 2 * k;
        assert XRow(srcPoints[k], dstPoints[k]) == XCoefficients(srcPoints[k], dstPoints[k]) + [dstPoints[k].x];
      } else {
        assert r == 2 * k + 1;
        assert YRow(srcPoints[k], dstPoints[k]) == YCoefficients(srcPoints[k], dstPoints[k]) + [dstPoints[k].y];
      }
    }
  }

  /** The first loop of `getProjectiveTransform`: the x-row and y-row of each of the four
      correspondences, in order; `complete` is false exactly when a point is missing. */
  method PushCoefficientRows(srcPoints: seq<Point>, dstPoints: seq<Point>) returns (matrix: seq<seq<real>>, complete: bool)
    ensures complete <==> |srcPoints| >= 4 && |dstPoints| >= 4
    ensures forall r :: 0 <= r < |matrix| ==> |matrix[r]| == 8
    ensures complete ==> |matrix| == 8 && forall k :: 0 <= k < 4 ==>
      matrix[2 * k] == XCoefficients(srcPoints[k], dstPoints[k]) && matrix[2 * k + 1] == YCoefficients(srcPoints[k], dstPoints[k])
  {
    matrix := [];
    var i := 0;
    while i < 4
      invariant 0 <= i <= 4 && |matrix| == 2 * i
      invariant forall r :: 0 <= r < |matrix| ==> |matrix[r]| == 8
      invariant i <= |srcPoints| && i <= |dstPoints|
      invariant forall k :: 0 <= k < i ==>
        matrix[2 * k] == XCoefficients(srcPoints[k], dstPoints[k]) && matrix[2 * k + 1] == YCoefficients(srcPoints[k], dstPoints[k])
    {
      if i >= |srcPoints| || i >= |dstPoints| {
        return matrix, false;
      }
      ghost var before := matrix;
      var x, y := srcPoints[i].x, srcPoints[i].y;
      var X, Y := dstPoints[i].x, dstPoints[i].y;
      var xRow := [x, y, 1.0, 0.0, 0.0, 0.0, -X * x, -X * y];
      var yRow := [0.0, 0.0, 0.0, x, y, 1.0, -Y * x, -Y * y];
      assert forall q :: 0 <= q < 8 ==> xRow[q] == XCoefficients(srcPoints[i], dstPoints[i])[q] && yRow[q] == YCoefficients(srcPoints[i], dstPoints[i])[q];
      matrix := matrix + [xRow];
      matrix := matrix + [yRow];
      assert forall k :: 0 <= k < 2 * i ==> matrix[k] == before[k];
      i := i + 1;
    }
    complete := true;
  }

  /** The second loop of `getProjectiveTransform`: v = [X0, Y0, X1, Y1, X2, Y2, X3, Y3]. */
  method PushTargets(dstPoints: seq<Point>) returns (v: seq<real>)
    requires |dstPoints| >= 4
    ensures |v| == 8 && forall k :: 0 <= k < 4 ==> v[2 * k] == dstPoints[k].x && v[2 * k + 1] == dstPoints[k].y
  {
    v := [];
    var i := 0;
    while i < 4
      invariant 0 <= i <= 4 && |v| == 2 * i
      invariant forall k :: 0 <= k < i ==> v[2 * k] == dstPoints[k].x && v[2 * k + 1] == dstPoints[k].y
    {
      v := v + [dstPoints[i].x];
      v := v + [dstPoints[i].y];
      i := i + 1;
    }
  }

  // ----- extractTexture -----

  const MaxSize: real := 2048.0

  /** `Math.min(1, maxSize / Math.max(naturalWidth, naturalHeight))`: a zero natural size
      divides to `Infinity`, leaving the scale at 1. */
  function OutputScale(naturalWidth: real, naturalHeight: real): (scale: real)
    requires naturalWidth >= 0.0 && naturalHeight >= 0.0
    ensures 0.0 < scale <= 1.0
    ensures Max(naturalWidth, naturalHeight) <= MaxSize ==> scale == 1.0
    ensures Max(naturalWidth, naturalHeight) > MaxSize ==> scale * Max(naturalWidth, naturalHeight) == MaxSize
  {
    var q := Quotient(MaxSize, Max(naturalWidth, naturalHeight));
    if q.Finite? then
      QuotientAtLeastOne(MaxSize, Max(naturalWidth, naturalHeight), q.v);
      Min(1.0, q.v)
    else 1.0
  }

  /** A quotient a / m with 0 < m <= a is at least 1, and exceeds 0. */
  lemma QuotientAtLeastOne(a: real, m: real, q: real)
    requires m > 0.0 && q * m == a && a > 0.0
    ensures q > 0.0
    ensures m <= a ==> q >= 1.0
    ensures m > a ==> q < 1.0
  {
    var e := 1.0 - q;
    assert q * m + e * m == m;
    assert q <= 0.0 ==> q * m <= 0.0;
    assert e > 0.0 ==> e * m > 0.0;
    assert e <= 0.0 ==> e * m <= 0.0;
    assert e * m == m - a;
    assert m <= a ==> e <= 0.0;
  }

  /** The canvas size `extractTexture` sets: each natural side scaled and rounded. Neither
      side exceeds 2048, the longer side is exactly 2048 when scaling happens, and a texture
      whose sides both fit is rounded but not scaled. */
  function OutputSize(naturalWidth: real, naturalHeight: real): (size: (int, int))
    requires naturalWidth >= 0.0 && naturalHeight >= 0.0
    ensures 0 <= size.0 <= 2048 && 0 <= size.1 <= 2048
    ensures naturalWidth <= MaxSize && naturalHeight <= MaxSize ==> size == (Round(naturalWidth), Round(naturalHeight))
    ensures naturalWidth >= naturalHeight && naturalWidth > MaxSize ==> size.0 == 2048
    ensures naturalHeight >= naturalWidth && naturalHeight > MaxSize ==> size.1 == 2048
  {
    var scale := OutputScale(naturalWidth, naturalHeight);
    ScaledAtMost(naturalWidth, naturalHeight, scale);
    ScaledAtMost(naturalHeight, naturalWidth, scale);
    (Round(naturalWidth * scale), Round(naturalHeight * scale))
  }

  /** A side scaled by the output scale of it and another side stays within 0..2048. */
  lemma ScaledAtMost(side: real, other: real, scale: real)
    requires side >= 0.0 && other >= 0.0
    requires scale == OutputScale(side, other) || scale == OutputScale(other, side)
    ensures 0.0 <= side * scale <= MaxSize
  {
    var m := Max(side, other);
    assert Max(other, side) == m;
    if m > MaxSize {
      assert side * scale <= m * scale;
    }
  }

  /** What `extractTexture` produces: the canvas size, the projective vector and the six
      `setTransform` arguments the image is drawn under. */
  datatype Extraction = Extraction(width: int, height: int, transform: seq<real>, args: seq<real>)

  /** `extractTexture`: anything but four points throws. The canvas takes the scaled
      natural size (the requested `width` and `height` never enter the result), the
      projective transform maps the corners onto that canvas's corners, and the image is
      drawn with its affine part. A singular system leaves a non-finite transform.
      The four side lengths are the `Math.hypot` values of the sides. */
  method ExtractTexture(points: seq<Point>, d01: real, d23: real, d12: real, d30: real,
                        width: real := 512.0, height: real := 512.0) returns (r: Outcome<Extraction>)
    requires |points| == 4 ==> IsLength(d01, points[0], points[1]) && IsLength(d23, points[2], points[3]) &&
                               IsLength(d12, points[1], points[2]) && IsLength(d30, points[3], points[0])
    ensures r.Thrown? <==> |points| != 4
    ensures |points| == 4 ==>
      var natural := Extent(points, d01, d23, d12, d30);
      var size := OutputSize(natural.0, natural.1);
      var corners := TargetCorners(size.0 as real, size.1 as real);
      (r.NonFinite? <==> Forward(Equations(points, corners), 8, 0).None?) &&
      (r.Done? ==> r.value.width == size.0 && r.value.height == size.1 && |r.value.transform| == 8 &&
                   (forall k :: 0 <= k < 4 ==> Corresponds(r.value.transform, points[k], corners[k])) &&
                   r.value.args == CorrectedArgs(r.value.transform))
  {
    if |points| != 4 {
      return Thrown;
    }
    var natural := Extent(points, d01, d23, d12, d30);
    var size := OutputSize(natural.0, natural.1);
    var dstPoints := TargetCorners(size.0 as real, size.1 as real);
    var transform := GetProjectiveTransform(points, dstPoints);
    if transform.NonFinite? {
      return NonFinite;
    }
    var t := transform.value;
    return Done(Extraction(size.0, size.1, t, CorrectedArgs(t)));
  }

  // ----- createPerspectivePreview -----

  /** The canvas size `createPerspectivePreview` sets for a quad of the given natural size
      in a preview of the given size: the preview's full width when the quad is relatively
      wider, else its full height, the other side following the quad's aspect ratio; each
      assignment to the canvas truncates (non-finite values become 0). */
  function PreviewCanvas(width: real, height: real, previewWidth: real, previewHeight: real): (size: (nat, nat))
    requires width >= 0.0 && height >= 0.0 && previewWidth >= 0.0 && previewHeight >= 0.0
  {
    var aspectRatio := Quotient(width, height);
    if Greater(aspectRatio, Quotient(previewWidth, previewHeight)) then
      (CanvasDimension(Finite(previewWidth)), CanvasDimension(DivideBy(previewWidth, aspectRatio)))
    else
      (CanvasDimension(MultiplyBy(previewHeight, aspectRatio)), CanvasDimension(Finite(previewHeight)))
  }

  /** The fit: one canvas side is the (truncated) preview side and the other does not exceed
      its preview side, so both centring offsets are non-negative. */
  lemma PreviewFits(width: real, height: real, previewWidth: real, previewHeight: real)
    requires width >= 0.0 && height >= 0.0 && previewWidth >= 0.0 && previewHeight >= 0.0
    ensures var size := PreviewCanvas(width, height, previewWidth, previewHeight);
      (size.0 == previewWidth.Floor && size.1 as real <= previewHeight) ||
      (size.1 == previewHeight.Floor && size.0 as real <= previewWidth)
    ensures var size := PreviewCanvas(width, height, previewWidth, previewHeight);
      (previewWidth - size.0 as real) / 2.0 >= 0.0 && (previewHeight - size.1 as real) / 2.0 >= 0.0
  {
    var aspectRatio := Quotient(width, height);
    var ratio := Quotient(previewWidth, previewHeight);
    if Greater(aspectRatio, ratio) {
      WideFit(previewWidth, previewHeight, aspectRatio, ratio);
    } else {
      TallFit(previewWidth, previewHeight, aspectRatio, ratio);
    }
  }

  /** A quad relatively wider than the preview: the height following from the full
      preview width stays within the preview height. */
  lemma WideFit(previewWidth: real, previewHeight: real, aspectRatio: Extended, ratio: Extended)
    requires previewWidth >= 0.0 && previewHeight >= 0.0 && ratio == Quotient(previewWidth, previewHeight)
    requires (aspectRatio.Finite? ==> aspectRatio.v >= 0.0) && Greater(aspectRatio, ratio)
    ensures CanvasDimension(DivideBy(previewWidth, aspectRatio)) as real <= previewHeight
  {
    if aspectRatio.Finite? {
      QuotientBelow(previewWidth, aspectRatio.v, previewHeight, ratio.v);
      assert DivideBy(previewWidth, aspectRatio) == Finite(previewWidth / aspectRatio.v);
    } else {
      assert DivideBy(previewWidth, aspectRatio) == Finite(0.0);
    }
  }

  /** A quad not relatively wider than the preview: the width following from the full
      preview height stays within the preview width. */
  lemma TallFit(previewWidth: real, previewHeight: real, aspectRatio: Extended, ratio: Extended)
    requires previewWidth >= 0.0 && previewHeight >= 0.0 && ratio == Quotient(previewWidth, previewHeight)
    requires (aspectRatio.Finite? ==> aspectRatio.v >= 0.0) && !Greater(aspectRatio, ratio)
    ensures CanvasDimension(MultiplyBy(previewHeight, aspectRatio)) as real <= previewWidth
  {
    if aspectRatio.Finite? {
      assert MultiplyBy(previewHeight, aspectRatio) == Finite(previewHeight * aspectRatio.v);
      if ratio.Finite? {
        ProductBelow(previewHeight, aspectRatio.v, previewWidth, ratio.v);
      } else {
        assert previewHeight == 0.0;
      }
    }
  }

  /** For a quad and a preview with positive sides, the fitted canvas keeps the quad's
      aspect ratio up to truncation of the computed side. */
  lemma PreviewKeepsAspect(width: real, height: real, previewWidth: real, previewHeight: real)
    requires width > 0.0 && height > 0.0 && previewWidth > 0.0 && previewHeight > 0.0
    ensures var size := PreviewCanvas(width, height, previewWidth, previewHeight);
      (size.0 == previewWidth.Floor && size.1 == (previewWidth * height / width).Floor) ||
      (size.1 == previewHeight.Floor && size.0 == (previewHeight * width / height).Floor)
  {
    var aspectRatio := width / height;
    assert Quotient(width, height) == Finite(aspectRatio);
    if Greater(Quotient(width, height), Quotient(previewWidth, previewHeight)) {
      DivideByRatio(previewWidth, width, height);
      assert DivideBy(previewWidth, Finite(aspectRatio)) == Finite(previewWidth * height / width);
    } else {
      assert previewHeight * aspectRatio == previewHeight * width / height;
    }
  }

  /** a / q <= p when q exceeds the ratio r = a / p. */
  lemma QuotientBelow(a: real, q: real, p: real, r: real)
    requires a >= 0.0 && p > 0.0 && r * p == a && q > r >= 0.0
    ensures a / q <= p
  {
    assert q * p > a by {
      assert q * p - r * p == (q - r) * p;
    }
    var d := a / q;
    assert d * q == a;
    if d > p {
      assert d * q > p * q by {
        assert d * q - p * q == (d - p) * q;
      }
    }
  }

  /** p * q <= a when q is at most the ratio r = a / p. */
  lemma ProductBelow(p: real, q: real, a: real, r: real)
    requires p > 0.0 && r * p == a && q <= r
    ensures p * q <= a
  {
    assert r * p - q * p == (r - q) * p;
  }

  /** Dividing by the ratio w / h multiplies by h / w. */
  lemma DivideByRatio(p: real, w: real, h: real)
    requires w > 0.0 && h > 0.0
    ensures p / (w / h) == p * h / w
  {
    var q := w / h;
    assert q * h == w;
    assert (p * h / w) * q == p by {
      assert (p * h / w) * w == p * h;
    }
  }

  /** What `createPerspectivePreview` produces: the size of the transformed canvas, where it
      is placed in the preview, the projective vector and the `setTransform` arguments. */
  datatype Preview = Preview(canvasWidth: nat, canvasHeight: nat, offsetX: real, offsetY: real,
                             transform: seq<real>, args: seq<real>)

  /** `createPerspectivePreview`: anything but four points throws; the canvas is fitted into
      the preview, the quad is mapped onto the canvas's corners, and the canvas is centred
      in the preview. A singular system leaves a non-finite transform. */
  method CreatePerspectivePreview(points: seq<Point>, d01: real, d23: real, d12: real, d30: real,
                                  previewWidth: real, previewHeight: real) returns (r: Outcome<Preview>)
    requires previewWidth >= 0.0 && previewHeight >= 0.0
    requires |points| == 4 ==> IsLength(d01, points[0], points[1]) && IsLength(d23, points[2], points[3]) &&
                               IsLength(d12, points[1], points[2]) && IsLength(d30, points[3], points[0])
    ensures r.Thrown? <==> |points| != 4
    ensures |points| == 4 ==>
      var natural := Extent(points, d01, d23, d12, d30);
      var size := PreviewCanvas(natural.0, natural.1, previewWidth, previewHeight);
      var corners := TargetCorners(size.0 as real, size.1 as real);
      (r.NonFinite? <==> Forward(Equations(points, corners), 8, 0).None?) &&
      (r.Done? ==> r.value.canvasWidth == size.0 && r.value.canvasHeight == size.1 &&
                   r.value.offsetX == (previewWidth - size.0 as real) / 2.0 &&
                   r.value.offsetY == (previewHeight - size.1 as real) / 2.0 &&
                   r.value.offsetX >= 0.0 && r.value.offsetY >= 0.0 && |r.value.transform| == 8 &&
                   (forall k :: 0 <= k < 4 ==> Corresponds(r.value.transform, points[k], corners[k])) &&
                   r.value.args == CorrectedArgs(r.value.transform))
  {
    if |points| != 4 {
      return Thrown;
    }
    var natural := Extent(points, d01, d23, d12, d30);
    var size := PreviewCanvas(natural.0, natural.1, previewWidth, previewHeight);
    PreviewFits(natural.0, natural.1, previewWidth, previewHeight);
    var offsetX := (previewWidth - size.0 as real) / 2.0;
    var offsetY := (previewHeight - size.1 as real) / 2.0;
    var dstPoints := TargetCorners(size.0 as real, size.1 as real);
    var transform := GetProjectiveTransform(points, dstPoints);
    if transform.NonFinite? {
      return NonFinite;
    }
    var t := transform.value;
    return Done(Preview(size.0, size.1, offsetX, offsetY, t, CorrectedArgs(t)));
  }
}
