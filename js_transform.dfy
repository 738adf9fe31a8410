/** The point maps, the equation solver and the quadrilateral test of js/transform.js. */
module JsTransform {
  import opened Types
  import opened JsBuiltins
  import opened Gauss
  import opened Homography

  /** The record `getPerspectiveTransform` returns: the nine entries of a 3 x 3 matrix. */
  datatype Coefficients = Coefficients(a: real, b: real, c: real, d: real, e: real, f: real,
                                       g: real, h: real, i: real)

  /** The coefficients as a row-major matrix. */
  function Matrix9(c: Coefficients): (m: seq<real>)
    ensures |m| == 9
  {
    [c.a, c.b, c.c, c.d, c.e, c.f, c.g, c.h, c.i]
  }

  // ----- calculateHomography -----

  /** `calculateHomography` normalises both point lists and assembles a matrix, then discards
      it and returns the identity. It throws when either list has fewer than four points,
      because reading a missing one of the first four (`srcNorm[i]`, `dstNorm[i]`, i < 4)
      fails. */
  function CalculateHomography(srcPoints: seq<Point>, dstPoints: seq<Point>): (r: Outcome<seq<real>>)
  {
    if |srcPoints| < 4 || |dstPoints| < 4 then Thrown else Done(Identity)
  }

  /** Whatever the points, a homography it returns maps every point to itself. */
  lemma CalculateHomographyFixesEveryPoint(srcPoints: seq<Point>, dstPoints: seq<Point>, p: Point)
    ensures CalculateHomography(srcPoints, dstPoints).Thrown? <==> |srcPoints| < 4 || |dstPoints| < 4
    ensures CalculateHomography(srcPoints, dstPoints).Done? ==>
      |CalculateHomography(srcPoints, dstPoints).value| == 9 &&
      TransformPoint(CalculateHomography(srcPoints, dstPoints).value, p) == Some(p)
  {
    if |srcPoints| >= 4 && |dstPoints| >= 4 {
      IdentityFixesPoints(p);
    }
  }

  // ----- applyPerspectiveTransform -----

  /** Both branches of `applyPerspectiveTransform` evaluate the same forward formula;
      `None` when the denominator is zero. */
  function ApplyPerspectiveTransform(x: real, y: real, c: Coefficients, inverse: bool := false): (r: Option<Point>)
  {
    if inverse then
      var denominator := c.g * x + c.h * y + c.i;
      if denominator == 0.0 then None
      else Some(Point((c.a * x + c.b * y + c.c) / denominator, (c.d * x + c.e * y + c.f) / denominator))
    else
      var denominator := c.g * x + c.h * y + c.i;
      if denominator == 0.0 then None
      else Some(Point((c.a * x + c.b * y + c.c) / denominator, (c.d * x + c.e * y + c.f) / denominator))
  }

  /** The `inverse` flag changes nothing: both settings apply the forward map of the matrix
      the coefficients spell out. */
  lemma InverseFlagIgnored(x: real, y: real, c: Coefficients)
    ensures ApplyPerspectiveTransform(x, y, c, true) == ApplyPerspectiveTransform(x, y, c, false)
    ensures ApplyPerspectiveTransform(x, y, c, true) == TransformPoint(Matrix9(c), Point(x, y))
  {
    var m := Matrix9(c);
    var den := c.g * x + c.h * y + c.i;
    var nx := c.a * x + c.b * y + c.c;
    var ny := c.d * x + c.e * y + c.f;
    assert m[6] * x + m[7] * y + m[8] == den;
    assert m[0] * x + m[1] * y + m[2] == nx;
    assert m[3] * x + m[4] * y + m[5] == ny;
    if den != 0.0 {
      assert ApplyPerspectiveTransform(x, y, c, true).value.x == nx / den;
      assert ApplyPerspectiveTransform(x, y, c, true).value.y == ny / den;
      assert TransformPoint(m, Point(x, y)).value.x == nx / den;
      assert TransformPoint(m, Point(x, y)).value.y == ny / den;
    }
  }

  // ----- solveEquations -----

  /** A row as `solveEquations` widens it: its first eight entries, then entry 8 when the
      row is longer than eight, else 0. */
  function AugmentRow(row: seq<real>): (r: Row)
    requires |row| >= 8
    ensures |r| == 9
  {
    row[..8] + [if |row| > 8 then row[8] else 0.0]
  }

  /** The augmented system the solver eliminates on: the widened first eight rows. Later rows
      are widened too but never read. */
  function Augmented(matrix: seq<seq<real>>): (M: Matrix)
    requires |matrix| >= 8 && forall r :: 0 <= r < 8 ==> |matrix[r]| >= 8
    ensures IsAugmented(M, 8)
  {
    seq(8, r requires 0 <= r < 8 => AugmentRow(matrix[r]))
  }

  /** A nine-entry row is widened to itself, so eight nine-entry rows are their own
      augmented system. */
  lemma AugmentedOfNineWide(matrix: seq<seq<real>>)
    requires |matrix| == 8 && forall r :: 0 <= r < 8 ==> |matrix[r]| == 9
    ensures Augmented(matrix) == matrix
  {
    forall r | 0 <= r < 8 ensures Augmented(matrix)[r] == matrix[r] {
      assert matrix[r] == matrix[r][..8] + [matrix[r][8]];
    }
  }

  /** Solving the eight equations of `matrix`: Gaussian elimination with partial pivoting on
      the widened rows, then back substitution.
      - Fewer than eight rows: reading `augmented[j]` past the end throws.
      - A zero pivot: the source divides by zero and carries on with infinities and NaNs,
        ending with a non-finite last unknown; the model stops there.
      - Otherwise the result is the unique solution of the system. */
  method SolveEquations(matrix: seq<seq<real>>) returns (r: Outcome<seq<real>>)
    requires |matrix| >= 8 ==> forall k :: 0 <= k < 8 ==> |matrix[k]| >= 8
    ensures r.Thrown? <==> |matrix| < 8
    ensures r.NonFinite? <==> |matrix| >= 8 && Forward(Augmented(matrix), 8, 0).None?
    ensures r.Done? ==> Solves(Augmented(matrix), 8, r.value)
    ensures r.Done? ==> forall y :: Solves(Augmented(matrix), 8, y) ==> y == r.value
  {
    var n := 8;
    if |matrix| < n {
      return Thrown;
    }
    var augmented := Augmented(matrix);
    r := Eliminate(augmented, n);
    if r.Done? {
      forall y | Solves(augmented, n, y) ensures y == r.value {
        SolutionUnique(augmented, n, y, r.value);
      }
    }
  }

  /** Forward elimination and back substitution of `solveEquations` on an augmented system
      of any size n. */
  method Eliminate(M0: Matrix, n: nat) returns (r: Outcome<seq<real>>)
    requires IsAugmented(M0, n)
    ensures !r.Thrown?
    ensures r.NonFinite? <==> Forward(M0, n, 0).None?
    ensures r.Done? ==> Solves(M0, n, r.value)
  {
    var a := M0;
    // Forward elimination
    var i := 0;
    while i < n
      invariant 0 <= i <= n && IsAugmented(a, n)
      invariant ZeroBelow(a, n, i) && NonzeroDiagonal(a, n, i)
      invariant Forward(a, n, i) == Forward(M0, n, 0)
    {
      var maxRow := FindPivot(a, n, i);
      // Swap maximum row with current row
      ghost var before := a;
      ForwardUnfold(before, n, i);
      if maxRow != i {
        a := a[i := a[maxRow]][maxRow := a[i]];
      }
      assert a == SwapRows(before, n, i, maxRow);
      SwapKeepsShape(before, n, i, maxRow);
      if a[i][i] == 0.0 {
        return NonFinite;
      }
      ghost var S := a;
      a := EliminateColumn(a, n, i);
      EliminateExtendsShape(S, n, i);
      i := i + 1;
    }
    assert Forward(a, n, n) == Some(a);
    var solution := BackSubstitute(a, n);
    ForwardPreservesSolutions(M0, n, 0, solution);
    return Done(solution);
  }

  /** The pivot search of `solveEquations`: the running maximum of |a[j][i]| is replaced
      only by a strictly larger value. */
  method FindPivot(a: Matrix, n: nat, i: nat) returns (maxRow: nat)
    requires IsAugmented(a, n) && i < n
    ensures maxRow == Pivot(a, n, i)
    ensures i <= maxRow < n && forall k :: i <= k < n ==> Abs(a[k][i]) <= Abs(a[maxRow][i])
    ensures forall k :: i <= k < maxRow ==> Abs(a[k][i]) < Abs(a[maxRow][i])
  {
    maxRow := i;
    var maxVal := Abs(a[i][i]);
    var j := i + 1;
    while j < n
      invariant i + 1 <= j <= n && i <= maxRow < j
      invariant maxVal == Abs(a[maxRow][i])
      invariant PivotScan(a, n, i, j, maxRow) == Pivot(a, n, i)
    {
      var absVal := Abs(a[j][i]);
      if absVal > maxVal {
        maxVal := absVal;
        maxRow := j;
      }
      j := j + 1;
    }
    PivotIsFirstMax(a, n, i);
  }

  /** The elimination loop of `solveEquations` for column i: each row below i has factor
      times row i subtracted from its entries i..n. */
  method EliminateColumn(S: Matrix, n: nat, i: nat) returns (a: Matrix)
    requires IsAugmented(S, n) && i < n && S[i][i] != 0.0
    ensures a == EliminateBelow(S, n, i)
  {
    a := S;
    var j := i + 1;
    while j < n
      invariant i + 1 <= j <= n && |a| == n
      invariant forall r :: 0 <= r < n ==> a[r] == if i < r < j then ReduceRow(S[r], S[i], i) else S[r]
    {
      var factor := a[j][i] / a[i][i];
      var row := a[j];
      var k := i;
      while k <= n
        invariant i <= k <= n + 1 && |row| == n + 1
        invariant forall c :: 0 <= c <= n ==> row[c] == if i <= c < k then ReduceRow(S[j], S[i], i)[c] else S[j][c]
      {
        if k == i {
          FactorCancels(row[k], a[i][k]);
        }
        row := row[k := row[k] - factor * a[i][k]];
        k := k + 1;
      }
      a := a[j := row];
      j := j + 1;
    }
  }

  /** The back substitution of `solveEquations`: each unknown from the last up is its row's
      right-hand side, less the sum over the unknowns already found, divided by the
      diagonal entry. */
  method BackSubstitute(U: Matrix, n: nat) returns (solution: seq<real>)
    requires IsAugmented(U, n) && UpperTriangular(U, n)
    ensures Solves(U, n, solution)
  {
    solution := seq(n, _ => 0.0);
    var i := n;
    while i > 0
      invariant 0 <= i <= n && |solution| == n
      invariant RowsSolvedFrom(U, n, solution, i - 1)
    {
      i := i - 1;
      var sum := 0.0;
      var j := i + 1;
      while j < n
        invariant i + 1 <= j <= n
        invariant sum + DotRange(U[i], solution, j, n) == DotRange(U[i], solution, i + 1, n)
      {
        sum := sum + U[i][j] * solution[j];
        j := j + 1;
      }
      SolveNextRow(U, n, solution, i, sum);
      solution := solution[i := (U[i][n] - sum) / U[i][i]];
    }
    RowsSolvedSolve(U, n, solution);
  }

  /** Over the reals, subtracting (v / p) times p from v leaves exactly zero. */
  lemma FactorCancels(v: real, p: real)
    requires p != 0.0
    ensures v - (v / p) * p == 0.0
  {
  }

  // ----- getPerspectiveTransform -----

  /** The 16-entry row `getPerspectiveTransform` pushes for one correspondence: the
      coefficients of the x-equation and of the y-equation side by side, with no right-hand
      sides. */
  function PackedRow(s: Point, t: Point): (row: seq<real>)
    ensures |row| == 16
  {
    [s.x, s.y, 1.0, 0.0, 0.0, 0.0, -t.x * s.x, -t.x * s.y,
     0.0, 0.0, 0.0, s.x, s.y, 1.0, -t.y * s.x, -t.y * s.y]
  }

  /** `getPerspectiveTransform` as written: four 16-entry rows go to a solver that reads
      eight, so the call always throws, and the coefficient record is never built. */
  method GetPerspectiveTransform(sourcePoints: seq<Point>, targetPoints: seq<Point>) returns (r: Outcome<Coefficients>)
    ensures r.Thrown?
  {
    var matrix: seq<seq<real>> := [];
    var i := 0;
    while i < 4
      invariant 0 <= i <= 4 && |matrix| == i
    {
      if i >= |sourcePoints| || i >= |targetPoints| {
        return Thrown;
      }
      matrix := matrix + [PackedRow(sourcePoints[i], targetPoints[i])];
      i := i + 1;
    }
    var solution := SolveEquations(matrix);
    // |matrix| == 4, so the solver threw; the destructuring never runs.
    assert solution.Thrown?;
    return Thrown;
  }

  /** The coefficients of an 8-entry solution with the ninth entry fixed at 1. */
  function CoefficientsOf(h: seq<real>): (c: Coefficients)
    requires |h| == 8
    ensures Matrix9(c) == h + [1.0]
  {
    Coefficients(h[0], h[1], h[2], h[3], h[4], h[5], h[6], h[7], 1.0)
  }

  /** `getPerspectiveTransform` with the system laid out as the solver expects: one
      nine-entry row (coefficients, then the target coordinate) per equation, the x-row and
      the y-row of each correspondence in turn. The record it returns has i = 1 and maps
      every source corner onto its target corner. */
  method GetPerspectiveTransformCorrected(sourcePoints: seq<Point>, targetPoints: seq<Point>) returns (r: Outcome<Coefficients>)
    ensures r.Thrown? <==> |sourcePoints| < 4 || |targetPoints| < 4
    ensures r.NonFinite? <==> |sourcePoints| >= 4 && |targetPoints| >= 4 &&
                              Forward(Equations(sourcePoints, targetPoints), 8, 0).None?
    ensures r.Done? ==> r.value.i == 1.0
    ensures r.Done? ==> forall k :: 0 <= k < 4 ==>
                          Corresponds(Matrix9(r.value)[..8], sourcePoints[k], targetPoints[k])
  {
    var matrix: seq<seq<real>> := [];
    var i := 0;
    while i < 4
      invariant 0 <= i <= 4 && |matrix| == 2 * i
      invariant i <= |sourcePoints| && i <= |targetPoints|
      invariant forall k :: 0 <= k < i ==> matrix[2 * k] == XRow(sourcePoints[k], targetPoints[k]) &&
                                            matrix[2 * k + 1] == YRow(sourcePoints[k], targetPoints[k])
    {
      if i >= |sourcePoints| || i >= |targetPoints| {
        return Thrown;
      }
      matrix := matrix + [XRow(sourcePoints[i], targetPoints[i]), YRow(sourcePoints[i], targetPoints[i])];
      i := i + 1;
    }
    RowsAreEquations(matrix, sourcePoints, targetPoints);
    AugmentedOfNineWide(matrix);
    var solution := SolveEquations(matrix);
    match solution {
      case Thrown =>
        return Thrown;
      case NonFinite =>
        return NonFinite;
      case Done(h) =>
        EquationsMeanCorrespondence(sourcePoints, targetPoints, h);
        var c := CoefficientsOf(h);
        assert Matrix9(c)[..8] == h;
        return Done(c);
    }
  }

  /** Eight rows holding the x-row and y-row of each correspondence in turn are the
      equations of the four correspondences. */
  lemma RowsAreEquations(matrix: seq<seq<real>>, src: seq<Point>, dst: seq<Point>)
    requires |src| >= 4 && |dst| >= 4 && |matrix| == 8
    requires forall k :: 0 <= k < 4 ==> matrix[2 * k] == XRow(src[k], dst[k]) && matrix[2 * k + 1] == YRow(src[k], dst[k])
    ensures matrix == Equations(src, dst)
  {
    var E := Equations(src, dst);
    assert matrix[0] == E[0] && matrix[1] == E[1] && matrix[2] == E[2] && matrix[3] == E[3];
    assert matrix[4] == E[4] && matrix[5] == E[5] && matrix[6] == E[6] && matrix[7] == E[7];
  }

  // ----- pointInQuad -----

  /** Twice the signed area of the triangle (p1, p2, p3): which side of the line p3-p2 the
      point p1 lies on. */
  function Sign(p1: Point, p2: Point, p3: Point): real {
    (p1.x - p3.x) * (p2.y - p3.y) - (p2.x - p3.x) * (p1.y - p3.y)
  }

  /** The point is inside (or on the boundary of) the quadrilateral when its four edge signs
      are not of mixed strict sign; a zero sign counts for neither side. */
  function PointInQuad(x: real, y: real, quad: seq<Point>): bool
    requires |quad| >= 4
  {
    var point := Point(x, y);
    var d1 := Sign(point, quad[0], quad[1]);
    var d2 := Sign(point, quad[1], quad[2]);
    var d3 := Sign(point, quad[2], quad[3]);
    var d4 := Sign(point, quad[3], quad[0]);
    var hasNeg := d1 < 0.0 || d2 < 0.0 || d3 < 0.0 || d4 < 0.0;
    var hasPos := d1 > 0.0 || d2 > 0.0 || d3 > 0.0 || d4 > 0.0;
    !(hasNeg && hasPos)
  }

  /** The sign of the point against edge e, from corner e to the next corner. */
  function EdgeSign(p: Point, quad: seq<Point>, e: nat): real
    requires |quad| >= 4 && e < 4
  {
    Sign(p, quad[e], quad[if e == 3 then 0 else e + 1])
  }

  /** The test is true exactly when no edge sees the point strictly on one side while
      another sees it strictly on the other. */
  lemma PointInQuadMeaning(x: real, y: real, quad: seq<Point>)
    requires |quad| >= 4
    ensures PointInQuad(x, y, quad) <==>
      (forall e: nat :: e < 4 ==> EdgeSign(Point(x, y), quad, e) >= 0.0) ||
      (forall e: nat :: e < 4 ==> EdgeSign(Point(x, y), quad, e) <= 0.0)
  {
    var p := Point(x, y);
    var d := [EdgeSign(p, quad, 0), EdgeSign(p, quad, 1), EdgeSign(p, quad, 2), EdgeSign(p, quad, 3)];
    if !(forall e: nat :: e < 4 ==> EdgeSign(p, quad, e) >= 0.0) {
      var e: nat :| e < 4 && EdgeSign(p, quad, e) < 0.0;
      assert d[e] < 0.0;
    }
    if !(forall e: nat :: e < 4 ==> EdgeSign(p, quad, e) <= 0.0) {
      var e: nat :| e < 4 && EdgeSign(p, quad, e) > 0.0;
      assert d[e] > 0.0;
    }
  }

  /** Moving the point and the quadrilateral by the same offset does not change the answer. */
  lemma PointInQuadTranslation(x: real, y: real, quad: seq<Point>, dx: real, dy: real)
    requires |quad| >= 4
    ensures PointInQuad(x + dx, y + dy, Translated(quad, dx, dy)) == PointInQuad(x, y, quad)
  {
    var q := Translated(quad, dx, dy);
    var p := Point(x, y);
    var p' := Point(x + dx, y + dy);
    assert Sign(p', q[0], q[1]) == Sign(p, quad[0], quad[1]);
    assert Sign(p', q[1], q[2]) == Sign(p, quad[1], quad[2]);
    assert Sign(p', q[2], q[3]) == Sign(p, quad[2], quad[3]);
    assert Sign(p', q[3], q[0]) == Sign(p, quad[3], quad[0]);
  }

  /** Listing the corners in the opposite order flips every edge sign, so the answer is the
      same for either orientation. */
  lemma PointInQuadReversed(x: real, y: real, quad: seq<Point>)
    requires |quad| >= 4
    ensures PointInQuad(x, y, [quad[0], quad[3], quad[2], quad[1]]) == PointInQuad(x, y, quad)
  {
    var p := Point(x, y);
    var r := [quad[0], quad[3], quad[2], quad[1]];
    assert Sign(p, r[0], r[1]) == -Sign(p, quad[3], quad[0]);
    assert Sign(p, r[1], r[2]) == -Sign(p, quad[2], quad[3]);
    assert Sign(p, r[2], r[3]) == -Sign(p, quad[1], quad[2]);
    assert Sign(p, r[3], r[0]) == -Sign(p, quad[0], quad[1]);
  }

  /** Every corner lies on the non-negative side of every edge: a convex quadrilateral whose
      corners run in the orientation this sign convention calls positive. */
  predicate ConvexNonNegative(quad: seq<Point>)
    requires |quad| >= 4
  {
    forall v: nat, e: nat :: v < 4 && e < 4 ==> EdgeSign(quad[v], quad, e) >= 0.0
  }

  /** The point with barycentric weights w over the corners. */
  function Blend(quad: seq<Point>, w: seq<real>): Point
    requires |quad| >= 4 && |w| == 4
  {
    Point(w[0] * quad[0].x + w[1] * quad[1].x + w[2] * quad[2].x + w[3] * quad[3].x,
          w[0] * quad[0].y + w[1] * quad[1].y + w[2] * quad[2].y + w[3] * quad[3].y)
  }

  /** Weights summing to one: the blend of the corners, taken relative to b, is the blend of
      the corners relative to b. */
  lemma BlendRelative(w0: real, w1: real, w2: real, w3: real, u0: real, u1: real, u2: real, u3: real, b: real)
    requires w0 + w1 + w2 + w3 == 1.0
    ensures w0 * u0 + w1 * u1 + w2 * u2 + w3 * u3 - b
         == w0 * (u0 - b) + w1 * (u1 - b) + w2 * (u2 - b) + w3 * (u3 - b)
  {
    assert w0 * b + w1 * b + w2 * b + w3 * b == (w0 + w1 + w2 + w3) * b;
  }

  /** Scaling distributes over a weighted sum. */
  lemma ScaleBlend(A: real, w0: real, w1: real, w2: real, w3: real, u0: real, u1: real, u2: real, u3: real)
    ensures A * (w0 * u0 + w1 * u1 + w2 * u2 + w3 * u3)
         == w0 * (A * u0) + w1 * (A * u1) + w2 * (A * u2) + w3 * (A * u3)
  {
    assert A * (w0 * u0) == w0 * (A * u0);
    assert A * (w1 * u1) == w1 * (A * u1);
    assert A * (w2 * u2) == w2 * (A * u2);
    assert A * (w3 * u3) == w3 * (A * u3);
  }

  /** Sign is affine in its first point. */
  lemma SignOfBlend(quad: seq<Point>, w: seq<real>, a: Point, b: Point)
    requires |quad| >= 4 && |w| == 4 && w[0] + w[1] + w[2] + w[3] == 1.0
    ensures Sign(Blend(quad, w), a, b) ==
      w[0] * Sign(quad[0], a, b) + w[1] * Sign(quad[1], a, b) + w[2] * Sign(quad[2], a, b) + w[3] * Sign(quad[3], a, b)
  {
    var p := Blend(quad, w);
    var A := a.y - b.y;
    var B := a.x - b.x;
    var X0, X1, X2, X3 := quad[0].x - b.x, quad[1].x - b.x, quad[2].x - b.x, quad[3].x - b.x;
    var Y0, Y1, Y2, Y3 := quad[0].y - b.y, quad[1].y - b.y, quad[2].y - b.y, quad[3].y - b.y;
    BlendRelative(w[0], w[1], w[2], w[3], quad[0].x, quad[1].x, quad[2].x, quad[3].x, b.x);
    BlendRelative(w[0], w[1], w[2], w[3], quad[0].y, quad[1].y, quad[2].y, quad[3].y, b.y);
    ScaleBlend(A, w[0], w[1], w[2], w[3], X0, X1, X2, X3);
    ScaleBlend(B, w[0], w[1], w[2], w[3], Y0, Y1, Y2, Y3);
    assert Sign(p, a, b) == (p.x - b.x) * A - B * (p.y - b.y);
    assert Sign(quad[0], a, b) == X0 * A - B * Y0;
    assert Sign(quad[1], a, b) == X1 * A - B * Y1;
    assert Sign(quad[2], a, b) == X2 * A - B * Y2;
    assert Sign(quad[3], a, b) == X3 * A - B * Y3;
    assert w[0] * (X0 * A - B * Y0) == w[0] * (A * X0) - w[0] * (B * Y0);
    assert w[1] * (X1 * A - B * Y1) == w[1] * (A * X1) - w[1] * (B * Y1);
    assert w[2] * (X2 * A - B * Y2) == w[2] * (A * X2) - w[2] * (B * Y2);
    assert w[3] * (X3 * A - B * Y3) == w[3] * (A * X3) - w[3] * (B * Y3);
  }

  /** A blend of the corners of a convex quadrilateral is on the non-negative side of
      edge e. */
  lemma BlendOnInnerSide(quad: seq<Point>, w: seq<real>, e: nat)
    requires |quad| >= 4 && ConvexNonNegative(quad) && e < 4
    requires |w| == 4 && w[0] >= 0.0 && w[1] >= 0.0 && w[2] >= 0.0 && w[3] >= 0.0
    requires w[0] + w[1] + w[2] + w[3] == 1.0
    ensures EdgeSign(Blend(quad, w), quad, e) >= 0.0
  {
    var a, b := quad[e], quad[if e == 3 then 0 else e + 1];
    SignOfBlend(quad, w, a, b);
    assert EdgeSign(quad[0], quad, e) >= 0.0 && EdgeSign(quad[1], quad, e) >= 0.0;
    assert EdgeSign(quad[2], quad, e) >= 0.0 && EdgeSign(quad[3], quad, e) >= 0.0;
    NonNegProduct(w[0], Sign(quad[0], a, b));
    NonNegProduct(w[1], Sign(quad[1], a, b));
    NonNegProduct(w[2], Sign(quad[2], a, b));
    NonNegProduct(w[3], Sign(quad[3], a, b));
  }

  /** For a convex quadrilateral, every point of it - corners, edge points and interior
      points alike - passes the test. */
  lemma ConvexQuadContainsBlends(quad: seq<Point>, w: seq<real>)
    requires |quad| >= 4 && ConvexNonNegative(quad)
    requires |w| == 4 && w[0] >= 0.0 && w[1] >= 0.0 && w[2] >= 0.0 && w[3] >= 0.0
    requires w[0] + w[1] + w[2] + w[3] == 1.0
    ensures PointInQuad(Blend(quad, w).x, Blend(quad, w).y, quad)
  {
    var p := Blend(quad, w);
    assert Point(p.x, p.y) == p;
    forall e: nat | e < 4 ensures EdgeSign(Point(p.x, p.y), quad, e) >= 0.0 {
      BlendOnInnerSide(quad, w, e);
    }
    PointInQuadMeaning(p.x, p.y, quad);
  }

  lemma NonNegProduct(u: real, v: real)
    requires u >= 0.0 && v >= 0.0
    ensures u * v >= 0.0
  {
  }

  // ----- rotateCanvas -----

  /** `rotateCanvas` draws into a canvas with width and height exchanged, whichever way it
      turns. */
  function RotatedSize(width: int, height: int, clockwise: bool := true): (r: (int, int))
  {
    (height, width)
  }

  /** A quarter turn exchanges the sides, so two turns in either direction restore them. */
  lemma RotateTwiceRestoresSize(width: int, height: int, first: bool, second: bool)
    ensures RotatedSize(width, height, first).0 == height && RotatedSize(width, height, first).1 == width
    ensures var (w, h) := RotatedSize(width, height, first); RotatedSize(w, h, second) == (width, height)
  {
  }
}
