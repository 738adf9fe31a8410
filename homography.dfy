/** The projective map of a 3 x 3 matrix and the eight linear equations whose solution is a
    homography taking four source corners to four target corners. The TypeScript callers
    (src/utils/transform.ts `getPerspectiveTransform`, src/utils/texture.ts
    `getProjectiveTransform`) build exactly these equations, one x-row and one y-row per
    corner in corner order; the unknowns are h0..h7 with the ninth matrix entry fixed at 1. */
module Homography {
  import opened Types
  import opened Gauss

  /** The point (x, y) mapped by the row-major 3 x 3 matrix m, divided through by the third
      homogeneous coordinate; `None` when that coordinate is zero, where JavaScript would
      produce an infinite or NaN coordinate. */
  function TransformPoint(m: seq<real>, p: Point): (r: Option<Point>)
    requires |m| == 9
    ensures r.None? <==> m[6] * p.x + m[7] * p.y + m[8] == 0.0
    ensures r.Some? ==> var w := m[6] * p.x + m[7] * p.y + m[8];
      r.value.x * w == m[0] * p.x + m[1] * p.y + m[2] &&
      r.value.y * w == m[3] * p.x + m[4] * p.y + m[5]
  {
    var w := m[6] * p.x + m[7] * p.y + m[8];
    var nx := m[0] * p.x + m[1] * p.y + m[2];
    var ny := m[3] * p.x + m[4] * p.y + m[5];
    if w == 0.0 then None
    else
      MulDiv(nx, w);
      MulDiv(ny, w);
      Some(Point(nx / w, ny / w))
  }

  const Identity: seq<real> := [1.0, 0.0, 0.0, 0.0, 1.0, 0.0, 0.0, 0.0, 1.0]

  /** The identity matrix maps every point to itself. */
  lemma IdentityFixesPoints(p: Point)
    ensures TransformPoint(Identity, p) == Some(p)
  {
    var m := Identity;
    assert m[6] * p.x + m[7] * p.y + m[8] == 1.0;
    assert m[0] * p.x + m[1] * p.y + m[2] == p.x;
    assert m[3] * p.x + m[4] * p.y + m[5] == p.y;
    assert TransformPoint(m, p).value.x == p.x;
    assert TransformPoint(m, p).value.y == p.y;
  }

  /** The equation for the target x-coordinate of the correspondence s -> d, as an augmented
      row: h0*x + h1*y + h2 - X*x*h6 - X*y*h7 == X. */
  function XRow(s: Point, d: Point): Row {
    [s.x, s.y, 1.0, 0.0, 0.0, 0.0, -d.x * s.x, -d.x * s.y, d.x]
  }

  /** The equation for the target y-coordinate: h3*x + h4*y + h5 - Y*x*h6 - Y*y*h7 == Y. */
  function YRow(s: Point, d: Point): Row {
    [0.0, 0.0, 0.0, s.x, s.y, 1.0, -d.y * s.x, -d.y * s.y, d.y]
  }

  /** The 8 x 9 augmented system for the four correspondences src[k] -> dst[k]. */
  function Equations(src: seq<Point>, dst: seq<Point>): (M: Matrix)
    requires |src| >= 4 && |dst| >= 4
    ensures IsAugmented(M, 8)
    ensures forall k :: 0 <= k < 4 ==> M[2 * k] == XRow(src[k], dst[k]) && M[2 * k + 1] == YRow(src[k], dst[k])
  {
    [XRow(src[0], dst[0]), YRow(src[0], dst[0]),
     XRow(src[1], dst[1]), YRow(src[1], dst[1]),
     XRow(src[2], dst[2]), YRow(src[2], dst[2]),
     XRow(src[3], dst[3]), YRow(src[3], dst[3])]
  }

  /** The homography with entries h0..h7 and a ninth entry 1 sends s to d in homogeneous
      coordinates: both numerators equal the target coordinate times the denominator. */
  predicate Corresponds(h: seq<real>, s: Point, d: Point)
    requires |h| == 8
  {
    var w := h[6] * s.x + h[7] * s.y + 1.0;
    h[0] * s.x + h[1] * s.y + h[2] == d.x * w && h[3] * s.x + h[4] * s.y + h[5] == d.y * w
  }

  /** DotRange over eight unknowns written out. */
  lemma DotRange8(r: Row, x: seq<real>)
    requires |r| == 9 && |x| == 8
    ensures DotRange(r, x, 0, 8) == r[0] * x[0] + r[1] * x[1] + r[2] * x[2] + r[3] * x[3]
                                   + r[4] * x[4] + r[5] * x[5] + r[6] * x[6] + r[7] * x[7]
  {
    assert DotRange(r, x, 8, 8) == 0.0;
  }

  /** h solves the x-row and the y-row of a correspondence exactly when the homography it
      defines corresponds s with d. */
  lemma RowsMeanCorrespondence(h: seq<real>, s: Point, d: Point)
    requires |h| == 8
    ensures (DotRange(XRow(s, d), h, 0, 8) == d.x && DotRange(YRow(s, d), h, 0, 8) == d.y)
            <==> Corresponds(h, s, d)
  {
    assert Corresponds(h, s, d) <==>
      h[0] * s.x + h[1] * s.y + h[2] == d.x * (h[6] * s.x + h[7] * s.y + 1.0) &&
      h[3] * s.x + h[4] * s.y + h[5] == d.y * (h[6] * s.x + h[7] * s.y + 1.0);
    XRowMeaning(h, s, d);
    YRowMeaning(h, s, d);
  }

  /** The x-row's sum less X is the x-numerator less X times the denominator. */
  lemma XRowMeaning(h: seq<real>, s: Point, d: Point)
    requires |h| == 8
    ensures DotRange(XRow(s, d), h, 0, 8) - d.x == h[0] * s.x + h[1] * s.y + h[2] - d.x * (h[6] * s.x + h[7] * s.y + 1.0)
  {
    var r := XRow(s, d);
    DotRange8(r, h);
    EntryTimes(r[0], s.x, h[0]);
    EntryTimes(r[1], s.y, h[1]);
    EntryTimes(r[2], 1.0, h[2]);
    EntryTimes(r[3], 0.0, h[3]);
    EntryTimes(r[4], 0.0, h[4]);
    EntryTimes(r[5], 0.0, h[5]);
    EntryTimes(r[6], -d.x * s.x, h[6]);
    EntryTimes(r[7], -d.x * s.y, h[7]);
  }

  /** The y-row's sum less Y is the y-numerator less Y times the denominator. */
  lemma YRowMeaning(h: seq<real>, s: Point, d: Point)
    requires |h| == 8
    ensures DotRange(YRow(s, d), h, 0, 8) - d.y == h[3] * s.x + h[4] * s.y + h[5] - d.y * (h[6] * s.x + h[7] * s.y + 1.0)
  {
    var r := YRow(s, d);
    DotRange8(r, h);
    EntryTimes(r[0], 0.0, h[0]);
    EntryTimes(r[1], 0.0, h[1]);
    EntryTimes(r[2], 0.0, h[2]);
    EntryTimes(r[3], s.x, h[3]);
    EntryTimes(r[4], s.y, h[4]);
    EntryTimes(r[5], 1.0, h[5]);
    EntryTimes(r[6], -d.y * s.x, h[6]);
    EntryTimes(r[7], -d.y * s.y, h[7]);
  }

  /** Equal entries give equal products: lets the solver replace a coefficient inside a
      product by its value. */
  lemma EntryTimes(e: real, v: real, c: real)
    requires e == v
    ensures e * c == v * c
  {
  }

  /** Both equations of corner k, rows 2k and 2k + 1 of an eight-row system, hold for h. */
  predicate PairSolved(M: Matrix, h: seq<real>, k: nat)
    requires IsAugmented(M, 8) && |h| == 8 && k < 4
  {
    DotRange(M[2 * k], h, 0, 8) == M[2 * k][8] && DotRange(M[2 * k + 1], h, 0, 8) == M[2 * k + 1][8]
  }

  /** An eight-row system is solved exactly when each of its four row pairs is. */
  lemma SolvesByPairs(M: Matrix, h: seq<real>)
    requires IsAugmented(M, 8) && |h| == 8
    ensures Solves(M, 8, h) <==> forall k :: 0 <= k < 4 ==> PairSolved(M, h, k)
  {
    if forall k :: 0 <= k < 4 ==> PairSolved(M, h, k) {
      forall r | 0 <= r < 8 ensures DotRange(M[r], h, 0, 8) == M[r][8] {
        var k := r / 2;
        assert PairSolved(M, h, k);
        if r % 2 == 0 { assert r == 2 * k; } else { assert r == 2 * k + 1; }
      }
    }
  }

  /** A vector solves the equations exactly when the homography it defines corresponds each
      of the four source corners with its target corner. */
  lemma EquationsMeanCorrespondence(src: seq<Point>, dst: seq<Point>, h: seq<real>)
    requires |src| >= 4 && |dst| >= 4 && |h| == 8
    ensures Solves(Equations(src, dst), 8, h) <==> forall k :: 0 <= k < 4 ==> Corresponds(h, src[k], dst[k])
  {
    var M := Equations(src, dst);
    SolvesByPairs(M, h);
    forall k | 0 <= k < 4 ensures PairSolved(M, h, k) <==> Corresponds(h, src[k], dst[k]) {
      RowsMeanCorrespondence(h, src[k], dst[k]);
    }
  }

  /** A corresponding homography with a non-zero denominator at s maps s onto d. */
  lemma CorrespondenceMaps(h: seq<real>, s: Point, d: Point)
    requires |h| == 8 && Corresponds(h, s, d)
    requires h[6] * s.x + h[7] * s.y + 1.0 != 0.0
    ensures TransformPoint(h + [1.0], s) == Some(d)
  {
    var m := h + [1.0];
    var w := h[6] * s.x + h[7] * s.y + 1.0;
    assert m[6] * s.x + m[7] * s.y + m[8] == w;
    assert m[..8] == h;
    assert m[0] == h[0] && m[1] == h[1] && m[2] == h[2] && m[3] == h[3] && m[4] == h[4] && m[5] == h[5];
    DivideBack(d.x, w, h[0] * s.x + h[1] * s.y + h[2]);
    DivideBack(d.y, w, h[3] * s.x + h[4] * s.y + h[5]);
    assert TransformPoint(m, s).value.x == d.x;
    assert TransformPoint(m, s).value.y == d.y;
  }

  lemma DivideBack(a: real, w: real, n: real)
    requires w != 0.0 && n == a * w
    ensures n / w == a
  {
    var q := n / w;
    assert q * w == n;
    assert (q - a) * w == 0.0;
  }

  lemma MulDiv(n: real, w: real)
    requires w != 0.0
    ensures (n / w) * w == n
  {
  }
}
