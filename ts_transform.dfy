/** src/utils/transform.ts: the solver `solve`, the equation assembly of
    `getPerspectiveTransform`, the guards and canvas transform of `extractTexture`, and the
    canvas size of `applyTransformToCanvas`. Arrays are sequence values here; `solve`
    augments a copy (`Ab`) and works only on that, so the caller's `A` and `b` are values
    it never changes. */
module TsTransform {
  import opened Types
  import opened JsBuiltins
  import opened Gauss
  import opened Homography

  // ----- solve -----

  /** Every row of A has as many entries as A has rows. */
  predicate IsSquare(A: seq<seq<real>>) {
    forall r :: 0 <= r < |A| ==> |A[r]| == |A|
  }

  /** `A.map((row, i) => [...row, b[i]])`: each row with its right-hand side appended. */
  function AugmentedOf(A: seq<seq<real>>, b: seq<real>): (M: Matrix)
    requires |b| == |A|
    ensures |M| == |A| && forall r :: 0 <= r < |A| ==> M[r] == A[r] + [b[r]]
  {
    seq(|A|, r requires 0 <= r < |A| => A[r] + [b[r]])
  }

  /** Entries appended after position hi do not take part in a sum up to hi. */
  lemma {:induction false} DotRangePrefix(r: Row, t: Row, x: seq<real>, lo: nat, hi: nat)
    requires lo <= hi <= |r| && hi <= |x|
    ensures DotRange(r + t, x, lo, hi) == DotRange(r, x, lo, hi)
    decreases hi - lo
  {
    if lo < hi {
      DotRangePrefix(r, t, x, lo + 1, hi);
    }
  }

  /** The augmented copy of a square system is an augmented system, and a vector solves it
      exactly when A x == b row by row. */
  lemma AugmentedMeaning(A: seq<seq<real>>, b: seq<real>, x: seq<real>)
    requires |b| == |A| && IsSquare(A)
    ensures IsAugmented(AugmentedOf(A, b), |A|)
    ensures Solves(AugmentedOf(A, b), |A|, x) <==>
              |x| == |A| && forall r :: 0 <= r < |A| ==> DotRange(A[r], x, 0, |A|) == b[r]
  {
    var M := AugmentedOf(A, b);
    var n := |A|;
    assert IsAugmented(M, n);
    if |x| == n {
      forall r | 0 <= r < n ensures DotRange(M[r], x, 0, n) == DotRange(A[r], x, 0, n) && M[r][n] == b[r] {
        DotRangePrefix(A[r], [b[r]], x, 0, n);
      }
    }
  }

  /** `solve`: Gaussian elimination with partial pivoting on the augmented copy, then back
      substitution.
      - An empty system: reading `A[0].length` throws; the error is caught and `null`
        (`None`) returned.
      - The largest magnitude in a pivot column is zero: `null`.
      - Otherwise: the unique x with A x == b. */
  method Solve(A: seq<seq<real>>, b: seq<real>) returns (x: Option<seq<real>>)
    requires |b| == |A| && IsSquare(A)
    ensures x.None? <==> |A| == 0 || Forward(AugmentedOf(A, b), |A|, 0).None?
    ensures x.Some? ==> |x.value| == |A| && forall r :: 0 <= r < |A| ==> DotRange(A[r], x.value, 0, |A|) == b[r]
    ensures x.Some? ==> forall y :: Solves(AugmentedOf(A, b), |A|, y) ==> y == x.value
  {
    var n := |A|;
    if n == 0 {
      return None;
    }
    AugmentedMeaning(A, b, []);
    var Ab := AugmentedOf(A, b);
    ghost var M0 := Ab;
    var i := 0;
    while i < n
      invariant 0 <= i <= n && IsAugmented(Ab, n)
      invariant ZeroBelow(Ab, n, i) && NonzeroDiagonal(Ab, n, i)
      invariant Forward(Ab, n, i) == Forward(M0, n, 0)
    {
      var maxEl, maxRow := FindPivot(Ab, n, i);
      ForwardUnfold(Ab, n, i);
      assert SwapRows(Ab, n, i, maxRow)[i] == Ab[maxRow];
      if maxEl == 0.0 {
        return None;
      }
      ghost var before := Ab;
      Ab := SwapPivotRow(Ab, n, i, maxRow);
      SwapKeepsShape(before, n, i, maxRow);
      ghost var S := Ab;
      Ab := EliminateBelowPivot(Ab, n, i);
      EliminateExtendsShape(S, n, i);
      i := i + 1;
    }
    assert Forward(Ab, n, n) == Some(Ab);
    x := BackSubstitute(Ab, n);
    ForwardPreservesSolutions(M0, n, 0, x.value);
    AugmentedMeaning(A, b, x.value);
    forall y | Solves(M0, n, y) ensures y == x.value {
      SolutionUnique(M0, n, y, x.value);
    }
  }

  /** The pivot search of `solve`: `maxEl` is the running maximum of |Ab[j][i]|, replaced
      only by a strictly larger value, and `maxRow` the row holding it. */
  method FindPivot(Ab: Matrix, n: nat, i: nat) returns (maxEl: real, maxRow: nat)
    requires IsAugmented(Ab, n) && i < n
    ensures maxRow == Pivot(Ab, n, i) && maxEl == Abs(Ab[maxRow][i])
    ensures i <= maxRow < n && forall k :: i <= k < n ==> Abs(Ab[k][i]) <= maxEl
    ensures forall k :: i <= k < maxRow ==> Abs(Ab[k][i]) < maxEl
  {
    maxEl := Abs(Ab[i][i]);
    maxRow := i;
    var j := i + 1;
    while j < n
      invariant i + 1 <= j <= n && i <= maxRow < j
      invariant maxEl == Abs(Ab[maxRow][i])
      invariant PivotScan(Ab, n, i, j, maxRow) == Pivot(Ab, n, i)
    {
      if Abs(Ab[j][i]) > maxEl {
        maxEl := Abs(Ab[j][i]);
        maxRow := j;
      }
      j := j + 1;
    }
    PivotIsFirstMax(Ab, n, i);
  }

  /** The swap of `solve`: rows i and maxRow exchange places unless they are the same row. */
  method SwapPivotRow(Ab: Matrix, n: nat, i: nat, maxRow: nat) returns (Ab': Matrix)
    requires IsAugmented(Ab, n) && i < n && maxRow < n
    ensures Ab' == SwapRows(Ab, n, i, maxRow)
  {
    Ab' := Ab;
    if maxRow != i {
      Ab' := Ab'[i := Ab[maxRow]][maxRow := Ab[i]];
    }
  }

  /** The elimination loop of `solve` for column i: with `c = -Ab[j][i] / Ab[i][i]`, entry i
      of each lower row is set to 0 and every later entry, the right-hand side included,
      gets c times the pivot row's entry added. Afterwards column i is zero below row i. */
  method EliminateBelowPivot(S: Matrix, n: nat, i: nat) returns (Ab: Matrix)
    requires IsAugmented(S, n) && i < n && S[i][i] != 0.0
    ensures Ab == EliminateBelow(S, n, i)
    ensures forall j :: i < j < n ==> Ab[j][i] == 0.0
  {
    Ab := S;
    var j := i + 1;
    while j < n
      invariant i + 1 <= j <= n && |Ab| == n
      invariant forall r :: 0 <= r < n ==> Ab[r] == if i < r < j then ReduceRow(S[r], S[i], i) else S[r]
    {
      var c := -Ab[j][i] / Ab[i][i];
      var row := ReduceEntries(Ab[j], Ab[i], i, c);
      Ab := Ab[j := row];
      j := j + 1;
    }
  }

  /** The inner loop of the elimination for one lower row: entry i becomes 0 and every
      later entry, the right-hand side included, gets c times the pivot row's entry added. */
  method ReduceEntries(row: Row, pivot: Row, i: nat, c: real) returns (reduced: Row)
    requires i < |row| == |pivot| && pivot[i] != 0.0 && c == -row[i] / pivot[i]
    ensures reduced == ReduceRow(row, pivot, i)
  {
    reduced := row;
    var k := i;
    while k < |row|
      invariant i <= k <= |row| && |reduced| == |row|
      invariant forall q :: 0 <= q < |row| ==> reduced[q] == if i <= q < k then ReduceRow(row, pivot, i)[q] else row[q]
    {
      if i == k {
        reduced := reduced[k := 0.0];
      } else {
        NegatedFactor(row[i], pivot[i], pivot[k], reduced[k]);
        reduced := reduced[k := reduced[k] + c * pivot[k]];
      }
      k := k + 1;
    }
  }

  /** Adding (-a / p) times q is subtracting (a / p) times q. */
  lemma NegatedFactor(a: real, p: real, q: real, v: real)
    requires p != 0.0
    ensures v + (-a / p) * q == v - (a / p) * q
  {
    assert -a / p == -(a / p);
  }

  /** The back substitution of `solve`, from the last row up: a zero diagonal entry gives
      `null`; otherwise x[i] is the row's current right-hand side over its diagonal entry,
      and x[i] times column i is subtracted from the right-hand sides of the rows above.
      On an upper-triangular system the result solves it. */
  method BackSubstitute(U: Matrix, n: nat) returns (x: Option<seq<real>>)
    requires IsAugmented(U, n) && ZeroBelow(U, n, n)
    ensures x.None? <==> !NonzeroDiagonal(U, n, n)
    ensures x.Some? ==> Solves(U, n, x.value)
  {
    var Ab := U;
    var sol := seq(n, _ => 0.0);
    var i: int := n - 1;
    while i >= 0
      invariant -1 <= i < n && |sol| == n && |Ab| == n
      invariant forall r :: 0 <= r < n ==> |Ab[r]| == n + 1 && Ab[r] == U[r][n := Ab[r][n]]
      invariant forall r :: 0 <= r <= i ==> Ab[r][n] == U[r][n] - DotRange(U[r], sol, i + 1, n)
      invariant forall k :: i < k < n ==> U[k][k] != 0.0
      invariant RowsSolvedFrom(U, n, sol, i)
    {
      assert Ab[i][i] == U[i][i];
      if Ab[i][i] == 0.0 {
        return None;
      }
      ghost var prev := sol;
      SolveNextRow(U, n, sol, i, DotRange(U[i], sol, i + 1, n));
      sol := sol[i := Ab[i][n] / Ab[i][i]];
      forall r | 0 <= r < n ensures DotRange(U[r], sol, i + 1, n) == DotRange(U[r], prev, i + 1, n) {
        DotRangeFrame(U[r], sol, prev, i + 1, n);
      }
      forall r | 0 <= r < i ensures DotRange(U[r], sol, i, n) == U[r][i] * sol[i] + DotRange(U[r], sol, i + 1, n) {
      }
      Ab := SubtractColumn(Ab, n, i, sol[i]);
      i := i - 1;
    }
    RowsSolvedSolve(U, n, sol);
    return Some(sol);
  }

  /** The inner loop of the back substitution: every row above row i has Ab[j][i] * xi
      subtracted from its right-hand side; nothing else changes. */
  method SubtractColumn(Ab: Matrix, n: nat, i: nat, xi: real) returns (Ab': Matrix)
    requires IsAugmented(Ab, n) && i < n
    ensures |Ab'| == n && forall r :: 0 <= r < n ==> Ab'[r] == if r < i then Ab[r][n := Ab[r][n] - Ab[r][i] * xi] else Ab[r]
  {
    Ab' := Ab;
    var j: int := i - 1;
    while j >= 0
      invariant -1 <= j < i && |Ab'| == n
      invariant forall r :: 0 <= r < n ==> Ab'[r] == if j < r < i then Ab[r][n := Ab[r][n] - Ab[r][i] * xi] else Ab[r]
    {
      var rhs := Ab'[j][n] - Ab'[j][i] * xi;
      assert rhs == Ab[j][n] - Ab[j][i] * xi;
      Ab' := Ab'[j := Ab'[j][n := rhs]];
      j := j - 1;
    }
  }

  // ----- getPerspectiveTransform -----

  /** `getPerspectiveTransform`: two coefficient rows of `A` and two entries of `B` per
      correspondence, then `solve`, then the nine-entry matrix h0..h7, 1.
      - Fewer than four points on either side: reading a missing point's coordinate throws,
        and the error is caught: `null`.
      - The solver fails exactly when forward elimination meets a zero pivot.
      - Otherwise the matrix maps each of the first four source points to its target and is
        the only one with a ninth entry 1 that does. */
  method GetPerspectiveTransform(src: seq<Point>, dst: seq<Point>) returns (matrix: Option<seq<real>>)
    ensures matrix.None? <==> |src| < 4 || |dst| < 4 || Forward(Equations(src, dst), 8, 0).None?
    ensures matrix.Some? ==> |matrix.value| == 9 && matrix.value[8] == 1.0
    ensures matrix.Some? ==> forall k :: 0 <= k < 4 ==> Corresponds(matrix.value[..8], src[k], dst[k])
    ensures matrix.Some? ==> forall h :: Solves(Equations(src, dst), 8, h) ==> h == matrix.value[..8]
  {
    var A, B, complete := PushEquations(src, dst);
    if !complete {
      return None;
    }
    var h := Solve(A, B);
    if h.None? {
      return None;
    }
    var m := FormMatrix(h.value);
    AugmentedMeaning(A, B, h.value);
    EquationsMeanCorrespondence(src, dst, h.value);
    return Some(m);
  }

  /** The final loop of `getPerspectiveTransform`: the solution's eight entries, then 1. */
  method FormMatrix(h: seq<real>) returns (m: seq<real>)
    requires |h| == 8
    ensures |m| == 9 && m[..8] == h && m[8] == 1.0
  {
    m := seq(9, _ => 0.0);
    var k := 0;
    while k < 8
      invariant 0 <= k <= 8 && |m| == 9
      invariant forall q :: 0 <= q < k ==> m[q] == h[q]
    {
      m := m[k := h[k]];
      k := k + 1;
    }
    m := m[8 := 1.0];
    assert m[..8] == h;
  }

  /** The assembly loop of `getPerspectiveTransform`: for each of the four correspondences,
      its x-row and y-row go to `A` and its target coordinates to `B`. It stops early
      (`complete` false) exactly when a point is missing, where the source's read of a
      coordinate throws. */
  method PushEquations(src: seq<Point>, dst: seq<Point>) returns (A: seq<seq<real>>, B: seq<real>, complete: bool)
    ensures complete <==> |src| >= 4 && |dst| >= 4
    ensures complete ==> |A| == 8 && |B| == 8 && IsSquare(A) && AugmentedOf(A, B) == Equations(src, dst)
  {
    A := [];
    B := [];
    var i := 0;
    while i < 4
      invariant 0 <= i <= 4 && |A| == 2 * i && |B| == 2 * i
      invariant i <= |src| && i <= |dst|
      invariant forall k :: 0 <= k < i ==> A[2 * k] == XCoefficients(src[k], dst[k]) && A[2 * k + 1] == YCoefficients(src[k], dst[k])
      invariant forall k :: 0 <= k < i ==> B[2 * k] == dst[k].x && B[2 * k + 1] == dst[k].y
    {
      if i >= |src| || i >= |dst| {
        return A, B, false;
      }
      ghost var A0, B0 := A, B;
      A, B := PushCorrespondence(A, B, src[i], dst[i]);
      assert forall k :: 0 <= k < 2 * i ==> A[k] == A0[k] && B[k] == B0[k];
      i := i + 1;
    }
    AugmentedIsEquations(A, B, src, dst);
    complete := true;
  }

  /** One pass of the assembly loop: the x-row and y-row of s -> d are pushed to `A`, and
      d's coordinates to `B`. */
  method PushCorrespondence(A: seq<seq<real>>, B: seq<real>, s: Point, d: Point) returns (A': seq<seq<real>>, B': seq<real>)
    ensures A' == A + [XCoefficients(s, d), YCoefficients(s, d)]
    ensures B' == B + [d.x, d.y]
  {
    var srcX, srcY := s.x, s.y;
    var dstX, dstY := d.x, d.y;
    var xRow := [srcX, srcY, 1.0, 0.0, 0.0, 0.0, -dstX * srcX, -dstX * srcY];
    var yRow := [0.0, 0.0, 0.0, srcX, srcY, 1.0, -dstY * srcX, -dstY * srcY];
    assert forall q :: 0 <= q < 8 ==> xRow[q] == XCoefficients(s, d)[q] && yRow[q] == YCoefficients(s, d)[q];
    assert xRow == XCoefficients(s, d) && yRow == YCoefficients(s, d);
    A' := A + [xRow];
    A' := A' + [yRow];
    B' := B + [dstX];
    B' := B' + [dstY];
    assert A' == A + [xRow, yRow];
  }

  /** The row `getPerspectiveTransform` pushes to `A` for the x-coordinate of s -> d. */
  function XCoefficients(s: Point, d: Point): seq<real> {
    [s.x, s.y, 1.0, 0.0, 0.0, 0.0, -d.x * s.x, -d.x * s.y]
  }

  /** The row it pushes for the y-coordinate. */
  function YCoefficients(s: Point, d: Point): seq<real> {
    [0.0, 0.0, 0.0, s.x, s.y, 1.0, -d.y * s.x, -d.y * s.y]
  }

  /** The rows and right-hand sides pushed by `getPerspectiveTransform` form, once
      augmented, exactly the eight equations of the four correspondences. */
  lemma AugmentedIsEquations(A: seq<seq<real>>, B: seq<real>, src: seq<Point>, dst: seq<Point>)
    requires |src| >= 4 && |dst| >= 4 && |A| == 8 && |B| == 8
    requires forall k :: 0 <= k < 4 ==> A[2 * k] == XCoefficients(src[k], dst[k]) && A[2 * k + 1] == YCoefficients(src[k], dst[k])
    requires forall k :: 0 <= k < 4 ==> B[2 * k] == dst[k].x && B[2 * k + 1] == dst[k].y
    ensures IsSquare(A) && AugmentedOf(A, B) == Equations(src, dst)
  {
    var E := Equations(src, dst);
    var M := AugmentedOf(A, B);
    forall r | 0 <= r < 8 ensures M[r] == E[r] && |A[r]| == 8 {
      var k := r / 2;
      if r % 2 == 0 {
        assert r == 2 * k;
        assert XRow(src[k], dst[k]) == XCoefficients(src[k], dst[k]) + [dst[k].x];
      } else {
        assert r == 2 * k + 1;
        assert YRow(src[k], dst[k]) == YCoefficients(src[k], dst[k]) + [dst[k].y];
      }
    }
  }

  // ----- extractTexture -----

  /** The canvas `setTransform(a, b, c, d, e, f)` map: (x, y) goes to
      (a x + c y + e, b x + d y + f). */
  function CanvasMap(args: seq<real>, p: Point): (q: Point)
    requires |args| == 6
  {
    Point(args[0] * p.x + args[2] * p.y + args[4], args[1] * p.x + args[3] * p.y + args[5])
  }

  /** The arguments `extractTexture` hands to `setTransform`: matrix entries 0, 1, 3, 4, 6,
      7, which puts the transposed linear part in place and the perspective row where the
      translation belongs. */
  function SetTransformArgs(m: seq<real>): (args: seq<real>)
    requires |m| == 9
    ensures |args| == 6
  {
    [m[0], m[1], m[3], m[4], m[6], m[7]]
  }

  /** The arguments in the canvas's order for a row-major matrix, as src/utils/texture.ts
      passes them: entries 0, 3, 1, 4, 2, 5. */
  function CorrectedArgs(m: seq<real>): (args: seq<real>)
    requires |m| >= 6
    ensures |args| == 6
  {
    [m[0], m[3], m[1], m[4], m[2], m[5]]
  }

  /** The corners of the target canvas, clockwise from the top-left. */
  function TargetCorners(width: real, height: real): (corners: seq<Point>)
    ensures |corners| == 4
  {
    [Point(0.0, 0.0), Point(width, 0.0), Point(width, height), Point(0.0, height)]
  }

  /** What `extractTexture` draws: a canvas of the target size, the matrix it computed, and
      the six arguments of the canvas transform the source image is drawn under. */
  datatype Drawing = Drawing(width: real, height: real, matrix: seq<real>, args: seq<real>)

  /** The conditions under which `extractTexture` produces a drawing for the given matrix:
      the perspective matrix maps the four corners onto the target rectangle. */
  predicate DrawsQuad(d: Drawing, points: seq<Point>, width: real, height: real)
    requires |points| == 4
  {
    d.width == width && d.height == height && |d.matrix| == 9 && d.matrix[8] == 1.0 &&
    (forall k :: 0 <= k < 4 ==> Corresponds(d.matrix[..8], points[k], TargetCorners(width, height)[k]))
  }

  /** `extractTexture` as written: anything but four points throws, a failed matrix throws
      (re-thrown as a transform failure), and otherwise the source image is drawn under
      `setTransform` with the arguments of `SetTransformArgs`. */
  method ExtractTexture(points: seq<Point>, targetWidth: real := 512.0, targetHeight: real := 512.0) returns (r: Outcome<Drawing>)
    ensures !r.NonFinite?
    ensures r.Thrown? <==> |points| != 4 ||
                           Forward(Equations(points, TargetCorners(targetWidth, targetHeight)), 8, 0).None?
    ensures r.Done? ==> |points| == 4 && DrawsQuad(r.value, points, targetWidth, targetHeight) &&
                        r.value.args == SetTransformArgs(r.value.matrix)
  {
    if |points| != 4 {
      return Thrown;
    }
    var matrix := GetPerspectiveTransform(points, TargetCorners(targetWidth, targetHeight));
    if matrix.None? {
      return Thrown;
    }
    var m := matrix.value;
    return Done(Drawing(targetWidth, targetHeight, m, SetTransformArgs(m)));
  }

  /** `extractTexture` with the canvas arguments in the canvas's order. */
  method ExtractTextureCorrected(points: seq<Point>, targetWidth: real := 512.0, targetHeight: real := 512.0) returns (r: Outcome<Drawing>)
    ensures !r.NonFinite?
    ensures r.Thrown? <==> |points| != 4 ||
                           Forward(Equations(points, TargetCorners(targetWidth, targetHeight)), 8, 0).None?
    ensures r.Done? ==> |points| == 4 && DrawsQuad(r.value, points, targetWidth, targetHeight) &&
                        r.value.args == CorrectedArgs(r.value.matrix)
  {
    if |points| != 4 {
      return Thrown;
    }
    var matrix := GetPerspectiveTransform(points, TargetCorners(targetWidth, targetHeight));
    if matrix.None? {
      return Thrown;
    }
    var m := matrix.value;
    return Done(Drawing(targetWidth, targetHeight, m, CorrectedArgs(m)));
  }

  /** For an affine matrix (perspective row 0, 0, 1) the corrected arguments draw every point
      where the matrix maps it. */
  lemma CorrectedArgsFollowMatrix(m: seq<real>, p: Point)
    requires |m| == 9 && m[6] == 0.0 && m[7] == 0.0 && m[8] == 1.0
    ensures TransformPoint(m, p) == Some(CanvasMap(CorrectedArgs(m), p))
  {
    var w := m[6] * p.x + m[7] * p.y + m[8];
    var q := CanvasMap(CorrectedArgs(m), p);
    assert w == 1.0;
    assert q.x == m[0] * p.x + m[1] * p.y + m[2] && q.y == m[3] * p.x + m[4] * p.y + m[5];
    var t := TransformPoint(m, p);
    assert t.Some?;
    assert t.value.x * w == q.x && t.value.y * w == q.y;
    assert t.value.x == q.x && t.value.y == q.y;
    assert t.value == q;
  }

  /** The square with corners (10, 0), (20, 0), (20, 10), (10, 10). */
  const ShiftedSquare: seq<Point> := [Point(10.0, 0.0), Point(20.0, 0.0), Point(20.0, 10.0), Point(10.0, 10.0)]

  /** Extracting that square onto a 10 x 10 target: the only matrix the drawing can hold is
      the translation by -10 in x, and the as-written arguments then draw the top-left
      corner at (10, 0) instead of at the target's origin. */
  lemma AsWrittenMisplacesSquare(d: Drawing)
    requires DrawsQuad(d, ShiftedSquare, 10.0, 10.0) && d.args == SetTransformArgs(d.matrix)
    ensures d.matrix == [1.0, 0.0, -10.0, 0.0, 1.0, 0.0, 0.0, 0.0, 1.0]
    ensures CanvasMap(d.args, ShiftedSquare[0]) == Point(10.0, 0.0)
    ensures CanvasMap(d.args, ShiftedSquare[0]) != TargetCorners(10.0, 10.0)[0]
  {
    ShiftedSquareMatrix(d);
  }

  /** With the corrected arguments, every corner of that square is drawn onto its target
      corner. */
  lemma CorrectedPlacesSquare(d: Drawing)
    requires DrawsQuad(d, ShiftedSquare, 10.0, 10.0) && d.args == CorrectedArgs(d.matrix)
    ensures forall k :: 0 <= k < 4 ==> CanvasMap(d.args, ShiftedSquare[k]) == TargetCorners(10.0, 10.0)[k]
  {
    ShiftedSquareMatrix(d);
  }

  /** The eight correspondence equations for the shifted square have the single solution
      x' = x - 10, y' = y. */
  lemma ShiftedSquareMatrix(d: Drawing)
    requires DrawsQuad(d, ShiftedSquare, 10.0, 10.0)
    ensures d.matrix == [1.0, 0.0, -10.0, 0.0, 1.0, 0.0, 0.0, 0.0, 1.0]
  {
    var h := d.matrix[..8];
    var T := TargetCorners(10.0, 10.0);
    assert Corresponds(h, ShiftedSquare[0], T[0]);
    assert Corresponds(h, ShiftedSquare[1], T[1]);
    assert Corresponds(h, ShiftedSquare[2], T[2]);
    assert Corresponds(h, ShiftedSquare[3], T[3]);
    assert h[0] == 1.0 && h[1] == 0.0 && h[2] == -10.0;
    assert h[3] == 0.0 && h[4] == 1.0 && h[5] == 0.0 && h[6] == 0.0 && h[7] == 0.0;
    assert d.matrix == h + [1.0];
  }

  // ----- applyTransformToCanvas -----

  /** The size of the canvas `applyTransformToCanvas` returns: the input canvas's width and
      height, whatever the rotation and flips. */
  function TransformedCanvasSize(width: nat, height: nat, transform: TransformOptions): (nat, nat) {
    (width, height)
  }

  /** Any two transforms give the same output size, equal to the input size, so a quarter
      turn of a non-square texture is drawn into a canvas of the unrotated shape. */
  lemma TransformedCanvasKeepsSize(width: nat, height: nat, t: TransformOptions, u: TransformOptions)
    ensures TransformedCanvasSize(width, height, t) == TransformedCanvasSize(width, height, u) == (width, height)
  {
  }
}
