/** The nearest-neighbour resampler of js/transform.js `extractTexture`: for every pixel of
    a width x height RGBA target buffer it maps the pixel through the coefficients, rounds,
    and copies the four source bytes when the rounded point lies inside the source image.
    Buffers are flat, row-major, four bytes per pixel; the source is a sequence and the
    target a zero-initialised array. */
module JsExtract {
  import opened Types
  import opened JsBuiltins
  import opened Gauss
  import opened Homography
  import opened JsTransform

  // ----- flat buffer layout -----

  /** Byte ch of pixel (x, y) in a buffer w pixels wide sits at (y * w + x) * 4 + ch, and
      that position decodes back to (x, y, ch). */
  lemma PixelIndex(w: int, x: int, y: int, ch: int)
    requires 0 <= x < w && 0 <= y && 0 <= ch < 4
    ensures ((y * w + x) * 4 + ch) / 4 == y * w + x
    ensures ((y * w + x) * 4 + ch) % 4 == ch
    ensures (y * w + x) % w == x && (y * w + x) / w == y
  {
    DivModUnique((y * w + x) * 4 + ch, 4, y * w + x, ch);
    DivModUnique(y * w + x, w, y, x);
  }

  /** Every byte of a pixel inside a w x h image lies inside its w * h * 4 buffer. */
  lemma PixelInBuffer(w: int, h: int, x: int, y: int, ch: int)
    requires 0 <= x < w && 0 <= y < h && 0 <= ch < 4
    ensures 0 <= (y * w + x) * 4 + ch < w * h * 4
  {
    MulLeq(y + 1, h, w);
    assert y * w + x < (y + 1) * w;
  }

  lemma MulLeq(a: int, b: int, w: int)
    requires 0 <= a <= b && 0 <= w
    ensures a * w <= b * w && 0 <= a * w
  {
    assert b * w == a * w + (b - a) * w;
    NonNegMul(b - a, w);
    NonNegMul(a, w);
  }

  lemma NonNegMul(a: int, b: int)
    requires 0 <= a && 0 <= b
    ensures 0 <= a * b
  {
  }

  // ----- what the loop computes -----

  /** The rounded point the loop samples for target pixel (x, y); `None` when the mapped
      point is not finite (its rounded coordinates then fail the bounds test in the
      source). The loop passes `inverse = true`, which the transform ignores. */
  function SourceCoords(x: int, y: int, c: Coefficients): Option<(int, int)> {
    match ApplyPerspectiveTransform(x as real, y as real, c, true)
    case None => None
    case Some(p) => Some((Round(p.x), Round(p.y)))
  }

  /** The byte the loop leaves at position k of the target buffer: the matching source byte
      when the sampled point is inside the sw x sh source, else the initial 0. */
  function TargetByte(src: seq<int>, sw: nat, sh: nat, c: Coefficients, w: nat, k: nat): int
    requires w > 0 && |src| == sw * sh * 4
  {
    var pixel := k / 4;
    match SourceCoords(pixel % w, pixel / w, c)
    case None => 0
    case Some((sx, sy)) =>
      if 0 <= sx < sw && 0 <= sy < sh then
        PixelInBuffer(sw, sh, sx, sy, k % 4);
        src[(sy * sw + sx) * 4 + k % 4]
      else 0
  }

  /** The whole target buffer the loop produces. */
  function Resampled(src: seq<int>, sw: nat, sh: nat, c: Coefficients, w: nat, h: nat): (t: seq<int>)
    requires |src| == sw * sh * 4
    ensures |t| == w * h * 4
  {
    if w == 0 then []
    else seq(w * h * 4, k requires 0 <= k < w * h * 4 => TargetByte(src, sw, sh, c, w, k))
  }

  /** Byte ch of target pixel (x, y) is byte ch of the sampled source pixel when the rounded
      point is inside the source, and 0 otherwise. */
  lemma ResampledPixel(src: seq<int>, sw: nat, sh: nat, c: Coefficients, w: nat, h: nat, x: nat, y: nat, ch: nat)
    requires |src| == sw * sh * 4 && x < w && y < h && ch < 4
    ensures 0 <= (y * w + x) * 4 + ch < w * h * 4
    ensures var t := Resampled(src, sw, sh, c, w, h)[(y * w + x) * 4 + ch];
      match SourceCoords(x, y, c)
      case None => t == 0
      case Some((sx, sy)) =>
        if 0 <= sx < sw && 0 <= sy < sh then 0 <= (sy * sw + sx) * 4 + ch < |src| && t == src[(sy * sw + sx) * 4 + ch]
        else t == 0
  {
    PixelInBuffer(w, h, x, y, ch);
    PixelIndex(w, x, y, ch);
    match SourceCoords(x, y, c) {
      case None =>
      case Some((sx, sy)) =>
        if 0 <= sx < sw && 0 <= sy < sh {
          PixelInBuffer(sw, sh, sx, sy, ch);
        }
    }
  }

  // ----- the loop -----

  /** The first `upto` bytes of the target hold what the loop leaves there, and the rest
      are still 0. */
  ghost predicate Filled(target: array<int>, src: seq<int>, sw: nat, sh: nat, c: Coefficients, width: nat, upto: nat)
    reads target
    requires |src| == sw * sh * 4
  {
    upto <= target.Length && (upto > 0 ==> width > 0) &&
    (forall k :: 0 <= k < upto ==> target[k] == TargetByte(src, sw, sh, c, width, k)) &&
    (forall k :: upto <= k < target.Length ==> target[k] == 0)
  }

  /** The double loop of `extractTexture` over a zero-initialised width x height RGBA
      buffer. */
  method ExtractPixels(src: seq<int>, sw: nat, sh: nat, c: Coefficients, width: nat, height: nat)
    returns (target: array<int>)
    requires |src| == sw * sh * 4
    ensures fresh(target)
    ensures target[..] == Resampled(src, sw, sh, c, width, height)
  {
    target := new int[width * height * 4](_ => 0);
    var y := 0;
    while y < height
      invariant 0 <= y <= height && target.Length == width * height * 4
      invariant Filled(target, src, sw, sh, c, width, y * width * 4)
    {
      ExtractRow(target, src, sw, sh, c, width, height, y);
      y := y + 1;
    }
    assert height * width * 4 == target.Length;
    assert target[..] == Resampled(src, sw, sh, c, width, height) by {
      if width == 0 {
        assert target.Length == 0;
      } else {
        forall k | 0 <= k < target.Length ensures target[k] == Resampled(src, sw, sh, c, width, height)[k] { }
      }
    }
  }

  /** The inner loop of `extractTexture` for target row y: each pixel of the row in turn. */
  method ExtractRow(target: array<int>, src: seq<int>, sw: nat, sh: nat, c: Coefficients, width: nat, height: nat, y: nat)
    requires |src| == sw * sh * 4 && y < height && target.Length == width * height * 4
    requires Filled(target, src, sw, sh, c, width, y * width * 4)
    modifies target
    ensures Filled(target, src, sw, sh, c, width, (y + 1) * width * 4)
  {
    var x := 0;
    while x < width
      invariant 0 <= x <= width
      invariant Filled(target, src, sw, sh, c, width, (y * width + x) * 4)
    {
      var targetIndex := (y * width + x) * 4;
      PixelInBuffer(width, height, x, y, 3);
      CopyPixel(target, src, sw, sh, c, width, height, x, y, targetIndex);
      assert (y * width + (x + 1)) * 4 == targetIndex + 4;
      x := x + 1;
    }
    assert (y * width + width) * 4 == (y + 1) * width * 4;
  }

  /** The loop body for target pixel (x, y), whose four bytes from targetIndex on are
      still 0: map, round, bounds-test, and copy four bytes. The rest of the buffer is
      untouched. */
  method CopyPixel(target: array<int>, src: seq<int>, sw: nat, sh: nat, c: Coefficients,
                   width: nat, height: nat, x: nat, y: nat, targetIndex: nat)
    requires |src| == sw * sh * 4 && x < width && y < height && target.Length == width * height * 4
    requires targetIndex == (y * width + x) * 4 && targetIndex + 4 <= target.Length
    requires target[targetIndex] == 0 && target[targetIndex + 1] == 0
    requires target[targetIndex + 2] == 0 && target[targetIndex + 3] == 0
    modifies target
    ensures forall k :: 0 <= k < target.Length && !(targetIndex <= k < targetIndex + 4) ==> target[k] == old(target[k])
    ensures forall k :: targetIndex <= k < targetIndex + 4 ==> target[k] == TargetByte(src, sw, sh, c, width, k)
  {
    PixelIndex(width, x, y, 0);
    PixelIndex(width, x, y, 1);
    PixelIndex(width, x, y, 2);
    PixelIndex(width, x, y, 3);
    var srcPoint := ApplyPerspectiveTransform(x as real, y as real, c, true);
    if srcPoint.Some? {
      var srcX := Round(srcPoint.value.x);
      var srcY := Round(srcPoint.value.y);
      if srcX >= 0 && srcX < sw && srcY >= 0 && srcY < sh {
        var sourceIndex := (srcY * sw + srcX) * 4;
        PixelInBuffer(sw, sh, srcX, srcY, 3);
        target[targetIndex] := src[sourceIndex];
        target[targetIndex + 1] := src[sourceIndex + 1];
        target[targetIndex + 2] := src[sourceIndex + 2];
        target[targetIndex + 3] := src[sourceIndex + 3];
      }
    }
    forall k | targetIndex <= k < targetIndex + 4 ensures target[k] == TargetByte(src, sw, sh, c, width, k) {
      assert k == targetIndex + 0 || k == targetIndex + 1 || k == targetIndex + 2 || k == targetIndex + 3;
    }
  }

  /** `extractTexture` as written: the coefficients come from `getPerspectiveTransform`,
      which always throws, so the pixel loop is never reached. */
  method ExtractTexture(src: seq<int>, sw: nat, sh: nat, points: seq<Point>, width: nat, height: nat)
    returns (r: Outcome<array<int>>)
    ensures r.Thrown?
  {
    var targetPoints := TargetRect(width, height);
    var coefficients := GetPerspectiveTransform(points, targetPoints);
    assert coefficients.Thrown?;
    return Thrown;
  }

  /** The target rectangle, corners in the order top-left, top-right, bottom-right,
      bottom-left. */
  function TargetRect(width: nat, height: nat): (rect: seq<Point>)
    ensures |rect| == 4
  {
    [Point(0.0, 0.0), Point(width as real, 0.0), Point(width as real, height as real), Point(0.0, height as real)]
  }

  /** `extractTexture` with the coefficients solved from the target rectangle to the quad,
      so that mapping a target pixel gives the source point to sample. The buffer is the
      resampling through coefficients that take each rectangle corner onto its quad
      corner. */
  method ExtractTextureCorrected(src: seq<int>, sw: nat, sh: nat, points: seq<Point>, width: nat, height: nat)
    returns (r: Outcome<array<int>>)
    requires |src| == sw * sh * 4
    ensures r.Thrown? <==> |points| < 4
    ensures r.NonFinite? <==> |points| >= 4 && Forward(Equations(TargetRect(width, height), points), 8, 0).None?
    ensures r.Done? ==> exists c: Coefficients :: c.i == 1.0 && CornersOnto(c, TargetRect(width, height), points) &&
                                    r.value[..] == Resampled(src, sw, sh, c, width, height)
  {
    var targetPoints := TargetRect(width, height);
    var coefficients := GetPerspectiveTransformCorrected(targetPoints, points);
    match coefficients {
      case Thrown =>
        return Thrown;
      case NonFinite =>
        return NonFinite;
      case Done(c) =>
        var target := ExtractPixels(src, sw, sh, c, width, height);
        return Done(target);
    }
  }

  /** The coefficients take each of the four `from` corners onto the matching `to` corner. */
  predicate CornersOnto(c: Coefficients, from: seq<Point>, to: seq<Point>)
    requires |from| >= 4 && |to| >= 4
  {
    forall k :: 0 <= k < 4 ==> Corresponds(Matrix9(c)[..8], from[k], to[k])
  }

  /** With coefficients that take (0, 0) onto the quad's first corner, the first target
      pixel copies the source pixel nearest that corner (when it lies inside the source). */
  lemma CorrectedFirstPixel(src: seq<int>, sw: nat, sh: nat, c: Coefficients, w: nat, h: nat, corner: Point, ch: nat)
    requires |src| == sw * sh * 4 && 0 < w && 0 < h && ch < 4
    requires c.i == 1.0 && Corresponds(Matrix9(c)[..8], Point(0.0, 0.0), corner)
    requires 0 <= Round(corner.x) < sw && 0 <= Round(corner.y) < sh
    ensures 0 <= (Round(corner.y) * sw + Round(corner.x)) * 4 + ch < |src|
    ensures Resampled(src, sw, sh, c, w, h)[ch] == src[(Round(corner.y) * sw + Round(corner.x)) * 4 + ch]
  {
    var m := Matrix9(c)[..8];
    assert m[2] == c.c && m[5] == c.f && m[6] == c.g && m[7] == c.h;
    assert c.c == corner.x && c.f == corner.y;
    assert ApplyPerspectiveTransform(0.0, 0.0, c, true).value.x == corner.x;
    assert ApplyPerspectiveTransform(0.0, 0.0, c, true).value.y == corner.y;
    assert SourceCoords(0, 0, c) == Some((Round(corner.x), Round(corner.y)));
    ResampledPixel(src, sw, sh, c, w, h, 0, 0, ch);
  }

  // ----- the ignored inverse flag -----

  /** A 10 x 10 square whose top-left corner is (10, 0). */
  const Square: seq<Point> := [Point(10.0, 0.0), Point(20.0, 0.0), Point(20.0, 10.0), Point(10.0, 10.0)]

  /** The only coefficients taking the square onto the 10 x 10 target rectangle translate by
      (-10, 0). */
  lemma SquareToRectIsTranslation(c: Coefficients)
    requires c.i == 1.0 && CornersOnto(c, Square, TargetRect(10, 10))
    ensures c.a == 1.0 && c.b == 0.0 && c.c == -10.0 && c.d == 0.0 && c.e == 1.0 && c.f == 0.0
    ensures c.g == 0.0 && c.h == 0.0
  {
    var m := Matrix9(c)[..8];
    assert m == [c.a, c.b, c.c, c.d, c.e, c.f, c.g, c.h];
    var R := TargetRect(10, 10);
    assert Corresponds(m, Square[0], R[0]) && Corresponds(m, Square[1], R[1]);
    assert Corresponds(m, Square[2], R[2]) && Corresponds(m, Square[3], R[3]);
  }

  /** The loop as written, given the coefficients for the square onto the rectangle (the
      source-to-target map the caller asks for), samples (-10, 0) for the first pixel -
      outside a 30 x 30 image - and leaves it zero, although the square's corner (10, 0)
      lies inside the image. */
  lemma InverseIgnoredLeavesCornerBlank(src: seq<int>, c: Coefficients, ch: nat)
    requires |src| == 30 * 30 * 4 && ch < 4
    requires c.i == 1.0 && CornersOnto(c, Square, TargetRect(10, 10))
    ensures Resampled(src, 30, 30, c, 10, 10)[ch] == 0
  {
    SquareToRectIsTranslation(c);
    assert ApplyPerspectiveTransform(0.0, 0.0, c, true).value.x == -10.0;
    assert Round(-10.0) == -10;
    ResampledPixel(src, 30, 30, c, 10, 10, 0, 0, ch);
  }

  /** Solved the other way round, from the rectangle to the square, the coefficients make
      the first pixel copy source pixel (10, 0). */
  lemma CorrectedSamplesCorner(src: seq<int>, c: Coefficients, ch: nat)
    requires |src| == 30 * 30 * 4 && ch < 4
    requires c.i == 1.0 && CornersOnto(c, TargetRect(10, 10), Square)
    ensures Resampled(src, 30, 30, c, 10, 10)[ch] == src[40 + ch]
  {
    assert Corresponds(Matrix9(c)[..8], TargetRect(10, 10)[0], Square[0]);
    assert Round(10.0) == 10 && Round(0.0) == 0;
    CorrectedFirstPixel(src, 30, 30, c, 10, 10, Square[0], ch);
  }
}
