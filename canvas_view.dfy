/** src/components/Canvas.tsx: the editor's view state and the pure parts of its event
    handlers. Each handler hands `setState` a new value (`[...points, p]`,
    `{ ...transform, rotation }`, a clamped density), so each is a function from the old view
    to the new one. The mouse, wheel and toolbar handlers are recreated on every render and
    read the current state; the window keydown listener is registered again only when one of
    its effect dependencies changes, and reads the transform of the render that registered it
    (`KeyDownAsWritten`, `Press`). */
module CanvasView {
  import opened Types
  import opened Utils
  import opened JsBuiltins

  /** The component state the modelled handlers read and write. `dragStart` is `null`
      (`None`) while no pan is in progress. */
  datatype View = View(
    points: seq<Point>,
    transform: TransformOptions,
    scale: real,
    position: Point,
    isDragging: bool,
    dragStart: Option<Point>,
    showGrid: bool,
    gridDensity: int,
    showHelp: bool)

  /** The rotations the handlers produce from the initial rotation 0. */
  predicate QuarterTurn(rotation: int) {
    rotation == 0 || rotation == 90 || rotation == 180 || rotation == 270
  }

  /** The invariant the editor keeps: a non-zero zoom, at most four corners, a quarter-turn
      rotation and a grid density within [4, 20]. */
  predicate Valid(v: View) {
    v.scale > 0.0 && |v.points| <= 4 && QuarterTurn(v.transform.rotation) && 4 <= v.gridDensity <= 20
  }

  /** The state the component mounts with. */
  function Initial(): (v: View)
    ensures Valid(v) && v.points == [] && v.scale == 1.0 && !v.isDragging && v.dragStart == None
  {
    View([], TransformOptions(0, false, false), 1.0, Point(0.0, 0.0), false, None, true, 10, true)
  }

  // ----- coordinate conversion -----

  /** `stageToImageCoords`: undoes the stage's zoom and pan. */
  function StageToImage(v: View, p: Point): (q: Point)
    requires v.scale != 0.0
    ensures q.x * v.scale + v.position.x == p.x && q.y * v.scale + v.position.y == p.y
  {
    Point((p.x - v.position.x) / v.scale, (p.y - v.position.y) / v.scale)
  }

  /** `imageToStageCoords`: applies the stage's zoom and then its pan. */
  function ImageToStage(v: View, p: Point): (q: Point)
    ensures v.scale != 0.0 ==> (q.x - v.position.x) / v.scale == p.x && (q.y - v.position.y) / v.scale == p.y
  {
    Point(p.x * v.scale + v.position.x, p.y * v.scale + v.position.y)
  }

  /** Converting an image point to the stage and back gives the point again. */
  lemma ImageStageRoundTrip(v: View, p: Point)
    requires v.scale != 0.0
    ensures StageToImage(v, ImageToStage(v, p)) == p
  {
    var q := ImageToStage(v, p);
    assert (q.x - v.position.x) / v.scale == p.x;
    assert (q.y - v.position.y) / v.scale == p.y;
  }

  /** Converting a stage point to the image and back gives the point again. */
  lemma StageImageRoundTrip(v: View, p: Point)
    requires v.scale != 0.0
    ensures ImageToStage(v, StageToImage(v, p)) == p
  {
    var q := StageToImage(v, p);
    assert q.x * v.scale + v.position.x == p.x;
    assert q.y * v.scale + v.position.y == p.y;
  }

  /** Centring an image that loads: the zoom fits the image into 80% of the container and
      the pan puts the image's centre at the container's centre. */
  function CenterImage(v: View, containerWidth: real, containerHeight: real, imageWidth: real, imageHeight: real): (w: View)
    requires imageWidth > 0.0 && imageHeight > 0.0
    ensures w == v.(scale := w.scale, position := w.position)
    ensures w.scale * imageWidth <= 0.8 * containerWidth && w.scale * imageHeight <= 0.8 * containerHeight
    ensures w.scale * imageWidth == 0.8 * containerWidth || w.scale * imageHeight == 0.8 * containerHeight
    ensures ImageToStage(w, Point(imageWidth / 2.0, imageHeight / 2.0)) == Point(containerWidth / 2.0, containerHeight / 2.0)
  {
    var scaleX := containerWidth / imageWidth;
    var scaleY := containerHeight / imageHeight;
    var newScale := Min(scaleX, scaleY) * 0.8;
    FitScale(scaleX, imageWidth, containerWidth, newScale);
    FitScale(scaleY, imageHeight, containerHeight, newScale);
    v.(scale := newScale,
       position := Point((containerWidth - imageWidth * newScale) / 2.0, (containerHeight - imageHeight * newScale) / 2.0))
  }

  /** A zoom of at most 0.8 times c / i covers at most 0.8 c with i pixels, and exactly
      0.8 c at that zoom. */
  lemma FitScale(ratio: real, i: real, c: real, s: real)
    requires i > 0.0 && ratio == c / i
    ensures s <= ratio * 0.8 ==> s * i <= 0.8 * c
    ensures s == ratio * 0.8 ==> s * i == 0.8 * c
  {
    assert ratio * i == c;
    assert (ratio * 0.8 - s) * i == 0.8 * c - s * i;
    assert s <= ratio * 0.8 ==> (ratio * 0.8 - s) * i >= 0.0;
  }

  /** A load with a non-empty container keeps the view valid. */
  lemma CenterImageKeepsValid(v: View, containerWidth: real, containerHeight: real, imageWidth: real, imageHeight: real)
    requires Valid(v) && imageWidth > 0.0 && imageHeight > 0.0 && containerWidth > 0.0 && containerHeight > 0.0
    ensures Valid(CenterImage(v, containerWidth, containerHeight, imageWidth, imageHeight))
  {
    var w := CenterImage(v, containerWidth, containerHeight, imageWidth, imageHeight);
    assert containerWidth / imageWidth > 0.0 && containerHeight / imageHeight > 0.0;
    assert w.scale == Min(containerWidth / imageWidth, containerHeight / imageHeight) * 0.8;
  }

  // ----- calculatePreviewSize -----

  const MaxPreview: real := 1024.0

  /** The unrounded preview sides for the average edge lengths. The ratio avgWidth /
      avgHeight is `Infinity` for a zero height, which exceeds 1 and then divides the width
      to 0; for two zero averages it is `NaN`, the comparison fails and the width becomes
      `NaN` (`None`). */
  function PreviewSides(avgWidth: real, avgHeight: real): (sides: Option<(real, real)>)
    requires avgWidth >= 0.0 && avgHeight >= 0.0
    ensures sides.None? <==> avgWidth == 0.0 && avgHeight == 0.0
    ensures sides.Some? ==> Fitted(sides.value, avgWidth, avgHeight)
  {
    if avgHeight == 0.0 then
      if avgWidth > 0.0 then
        var flat := (Min(MaxPreview, avgWidth), 0.0);
        assert Fitted(flat, avgWidth, avgHeight);
        Some(flat)
      else None
    else
      var ratio := avgWidth / avgHeight;
      QuotientTimes(avgWidth, avgHeight);
      if ratio > 1.0 then
        var width := Min(MaxPreview, avgWidth);
        var wide := (width, width / ratio);
        WideSides(avgWidth, avgHeight, ratio, wide);
        Some(wide)
      else
        var height := Min(MaxPreview, avgHeight);
        var tall := (height * ratio, height);
        TallSides(avgWidth, avgHeight, ratio, tall);
        Some(tall)
  }

  /** What a preview size promises about the average edge lengths it was fitted to: both
      sides in [0, 1024], the aspect ratio kept, and the longer side the longer average capped
      at 1024. */
  predicate Fitted(sides: (real, real), avgWidth: real, avgHeight: real) {
    0.0 <= sides.0 <= MaxPreview && 0.0 <= sides.1 <= MaxPreview &&
    sides.0 * avgHeight == sides.1 * avgWidth &&
    Max(sides.0, sides.1) == Min(MaxPreview, Max(avgWidth, avgHeight)) &&
    (avgWidth > avgHeight ==> sides.0 == Min(MaxPreview, avgWidth)) &&
    (avgWidth <= avgHeight ==> sides.1 == Min(MaxPreview, avgHeight))
  }

  /** A quotient times its divisor gives back the dividend. */
  lemma QuotientTimes(a: real, b: real)
    requires b != 0.0
    ensures (a / b) * b == a
  {
  }

  /** Scaling a positive number by a factor above 1 makes it larger. */
  lemma ScaleAbove(r: real, x: real)
    requires r > 1.0 && x > 0.0
    ensures r * x > x
  {
    assert (r - 1.0) * x > 0.0;
  }

  /** The wide case: dividing by a ratio above 1 keeps the aspect and shrinks the side, so
      the longer side is the capped width. */
  lemma WideSides(avgWidth: real, avgHeight: real, ratio: real, sides: (real, real))
    requires avgHeight > 0.0 && ratio * avgHeight == avgWidth && ratio > 1.0
    requires sides.0 == Min(MaxPreview, avgWidth) && sides.1 == sides.0 / ratio
    ensures avgWidth > avgHeight && Fitted(sides, avgWidth, avgHeight)
  {
    Wider(avgWidth, avgHeight, ratio);
    assert sides.0 > 0.0;
    ShorterSide(sides.0, ratio, sides.1);
    SameProportion(avgWidth, avgHeight, ratio, sides.0, sides.1);
    assert Max(sides.0, sides.1) == sides.0;
    assert Max(avgWidth, avgHeight) == avgWidth;
  }

  /** A ratio above 1 means the width is the larger average. */
  lemma Wider(avgWidth: real, avgHeight: real, ratio: real)
    requires avgHeight > 0.0 && ratio * avgHeight == avgWidth && ratio > 1.0
    ensures avgWidth > avgHeight
  {
    ScaleAbove(ratio, avgHeight);
  }

  /** Dividing a positive side by a ratio above 1 leaves a positive, shorter side. */
  lemma ShorterSide(width: real, ratio: real, h: real)
    requires width > 0.0 && ratio > 1.0 && h == width / ratio
    ensures 0.0 < h < width
  {
    QuotientTimes(width, ratio);
    assert h * ratio == width;
    assert h > 0.0;
    ScaleAbove(ratio, h);
    assert ratio * h > h;
  }

  /** Dividing a side by the ratio of two averages gives the other side in their proportion. */
  lemma SameProportion(avgWidth: real, avgHeight: real, ratio: real, width: real, h: real)
    requires ratio * avgHeight == avgWidth && ratio != 0.0 && h == width / ratio
    ensures width * avgHeight == h * avgWidth
  {
    QuotientTimes(width, ratio);
    assert h * avgWidth == h * (ratio * avgHeight);
    assert h * (ratio * avgHeight) == (h * ratio) * avgHeight;
  }

  /** The tall case: multiplying by a ratio of at most 1 keeps the aspect and does not grow
      the side, so the longer side is the capped height. */
  lemma TallSides(avgWidth: real, avgHeight: real, ratio: real, sides: (real, real))
    requires avgHeight > 0.0 && ratio * avgHeight == avgWidth && 0.0 <= ratio <= 1.0
    requires sides.1 == Min(MaxPreview, avgHeight) && sides.0 == sides.1 * ratio
    ensures avgWidth <= avgHeight && Fitted(sides, avgWidth, avgHeight)
  {
    Narrower(avgWidth, avgHeight, ratio);
    NoLongerSide(sides.1, ratio, sides.0);
    ScaledProportion(avgWidth, avgHeight, ratio, sides.1, sides.0);
    assert Max(sides.0, sides.1) == sides.1;
    assert Max(avgWidth, avgHeight) == avgHeight;
  }

  /** A ratio of at most 1 means the width is not the larger average. */
  lemma Narrower(avgWidth: real, avgHeight: real, ratio: real)
    requires avgHeight > 0.0 && ratio * avgHeight == avgWidth && ratio <= 1.0
    ensures avgWidth <= avgHeight
  {
    assert (1.0 - ratio) * avgHeight >= 0.0;
  }

  /** Multiplying a side by a ratio in [0, 1] does not make it longer or negative. */
  lemma NoLongerSide(height: real, ratio: real, w: real)
    requires height >= 0.0 && 0.0 <= ratio <= 1.0 && w == height * ratio
    ensures 0.0 <= w <= height
  {
    assert height * ratio >= 0.0;
    assert (1.0 - ratio) * height >= 0.0;
    assert (1.0 - ratio) * height == height - w;
  }

  /** Multiplying a side by the ratio of two averages gives the other side in their
      proportion. */
  lemma ScaledProportion(avgWidth: real, avgHeight: real, ratio: real, height: real, w: real)
    requires ratio * avgHeight == avgWidth && w == height * ratio
    ensures w * avgHeight == height * avgWidth
  {
    assert w * avgHeight == height * (ratio * avgHeight);
  }

  /** `calculatePreviewSize`: 512 by 512 unless exactly four corners are placed; otherwise
      the rounded sides fitted to the average of the top and bottom edges by the average of
      the left and right edges. The edge lengths are the values `Math.sqrt` returns for the
      four sides. */
  function CalculatePreviewSize(points: seq<Point>, top: real, bottom: real, left: real, right: real): (size: Option<(int, int)>)
    requires |points| == 4 ==> IsLength(top, points[0], points[1]) && IsLength(bottom, points[3], points[2])
    requires |points| == 4 ==> IsLength(left, points[0], points[3]) && IsLength(right, points[1], points[2])
    ensures |points| != 4 ==> size == Some((512, 512))
    ensures |points| == 4 ==> (size.None? <==> top + bottom == 0.0 && left + right == 0.0)
    ensures |points| == 4 && size.Some? ==>
      var sides := PreviewSides((top + bottom) / 2.0, (left + right) / 2.0);
      sides.Some? && size.value == (Round(sides.value.0), Round(sides.value.1))
    ensures size.Some? ==> 0 <= size.value.0 <= 1024 && 0 <= size.value.1 <= 1024
  {
    if |points| != 4 then Some((512, 512))
    else
      var sides := PreviewSides((top + bottom) / 2.0, (left + right) / 2.0);
      if sides.None? then None else Some((Round(sides.value.0), Round(sides.value.1)))
  }

  // ----- handleWheel -----

  const ScaleBy: real := 1.1
  const MinScale: real := 0.1
  const MaxScale: real := 10.0

  /** `handleWheel`: scrolling down zooms out by 1.1 down to 0.1, scrolling up zooms in by
      1.1 up to 10, and the pan is adjusted around the pointer. Without a pointer position
      nothing changes. */
  function Wheel(v: View, pointer: Option<Point>, deltaY: real): (w: View)
    requires v.scale != 0.0
    ensures pointer.None? ==> w == v
    ensures w == v.(scale := w.scale, position := w.position)
    ensures pointer.Some? && deltaY > 0.0 ==> w.scale >= MinScale && (w.scale == MinScale || w.scale * ScaleBy == v.scale)
    ensures pointer.Some? && deltaY <= 0.0 ==> w.scale <= MaxScale && (w.scale == MaxScale || w.scale == v.scale * ScaleBy)
    ensures v.scale > 0.0 ==> w.scale > 0.0
  {
    if pointer.None? then v
    else
      var p := pointer.value;
      var mousePointTo := StageToImage(v, p);
      var newScale := if deltaY > 0.0 then Max(MinScale, v.scale / ScaleBy) else Min(MaxScale, v.scale * ScaleBy);
      assert v.scale > 0.0 ==> v.scale / ScaleBy > 0.0;
      v.(scale := newScale,
         position := Point(p.x - mousePointTo.x * newScale, p.y - mousePointTo.y * newScale))
  }

  /** Zooming keeps the image point under the pointer where it was. */
  lemma WheelKeepsPointUnderPointer(v: View, pointer: Point, deltaY: real)
    requires v.scale > 0.0
    ensures var w := Wheel(v, Some(pointer), deltaY);
      w.scale != 0.0 && StageToImage(w, pointer) == StageToImage(v, pointer)
  {
    var w := Wheel(v, Some(pointer), deltaY);
    var m := StageToImage(v, pointer);
    assert w.position == Point(pointer.x - m.x * w.scale, pointer.y - m.y * w.scale);
    assert (pointer.x - w.position.x) / w.scale == m.x by {
      assert pointer.x - w.position.x == m.x * w.scale;
    }
    assert (pointer.y - w.position.y) / w.scale == m.y by {
      assert pointer.y - w.position.y == m.y * w.scale;
    }
  }

  /** A zoom that starts within [0.1, 10] stays there. */
  lemma WheelKeepsScaleRange(v: View, pointer: Option<Point>, deltaY: real)
    requires MinScale <= v.scale <= MaxScale
    ensures MinScale <= Wheel(v, pointer, deltaY).scale <= MaxScale
  {
    var w := Wheel(v, pointer, deltaY);
    if pointer.Some? {
      if deltaY > 0.0 {
        assert w.scale == Max(MinScale, v.scale / ScaleBy);
        assert v.scale / ScaleBy <= v.scale;
      } else {
        assert w.scale == Min(MaxScale, v.scale * ScaleBy);
      }
    }
  }

  // ----- mouse handlers -----

  /** `handleMouseDown` for a given button, whether the press hit the stage itself (not a
      corner marker), and the pointer position. The middle and right buttons start a pan; the
      left button on the stage places a corner, in image coordinates, while fewer than four
      exist. */
  function MouseDown(v: View, button: int, onStage: bool, pointer: Option<Point>): (w: View)
    requires v.scale != 0.0
    ensures button == 1 || button == 2 ==>
      w == v.(isDragging := true, dragStart := if pointer.Some? then pointer else v.dragStart)
    ensures button != 1 && button != 2 ==> w == v.(points := w.points)
    ensures |w.points| > |v.points| <==> button == 0 && onStage && |v.points| < 4 && pointer.Some?
    ensures |w.points| > |v.points| ==>
      w.points == v.points + [StageToImage(v, pointer.value)] && ImageToStage(w, w.points[|v.points|]) == pointer.value
    ensures |w.points| <= |v.points| ==> w.points == v.points
    ensures Valid(v) ==> Valid(w)
  {
    if button == 1 || button == 2 then
      v.(isDragging := true, dragStart := if pointer.Some? then pointer else v.dragStart)
    else if button == 0 && onStage && |v.points| < 4 && pointer.Some? then
      var imagePoint := StageToImage(v, pointer.value);
      StageImageRoundTrip(v, pointer.value);
      v.(points := v.points + [imagePoint])
    else v
  }

  /** `handleMouseMove`: during a pan, the stage follows the pointer by the distance moved
      since the last event, which becomes the new drag start. */
  function MouseMove(v: View, pointer: Option<Point>): (w: View)
    ensures !(v.isDragging && v.dragStart.Some? && pointer.Some?) ==> w == v
    ensures v.isDragging && v.dragStart.Some? && pointer.Some? ==>
      w == v.(position := w.position, dragStart := pointer) &&
      w.position.x - v.position.x == pointer.value.x - v.dragStart.value.x &&
      w.position.y - v.position.y == pointer.value.y - v.dragStart.value.y
  {
    if v.isDragging && v.dragStart.Some? && pointer.Some? then
      var pos := pointer.value;
      var start := v.dragStart.value;
      v.(position := Point(v.position.x + (pos.x - start.x), v.position.y + (pos.y - start.y)), dragStart := pointer)
    else v
  }

  /** Panning keeps the image point grabbed at the drag start under the pointer. */
  lemma PanKeepsGrabbedPoint(v: View, pointer: Point)
    requires v.scale != 0.0 && v.isDragging && v.dragStart.Some?
    ensures var w := MouseMove(v, Some(pointer));
      w.scale == v.scale && StageToImage(w, pointer) == StageToImage(v, v.dragStart.value)
  {
    var w := MouseMove(v, Some(pointer));
    var s := v.dragStart.value;
    assert pointer.x - w.position.x == s.x - v.position.x;
    assert pointer.y - w.position.y == s.y - v.position.y;
  }

  /** `handleMouseUp`: ends any pan. */
  function MouseUp(v: View): (w: View)
    ensures !w.isDragging && w.dragStart == None
    ensures w.(isDragging := v.isDragging, dragStart := v.dragStart) == v
  {
    v.(isDragging := false, dragStart := None)
  }

  /** A pan never moves the corners or changes the zoom, so it keeps the view valid. */
  lemma PanKeepsValid(v: View, pointer: Option<Point>)
    requires Valid(v)
    ensures Valid(MouseMove(v, pointer)) && Valid(MouseUp(v))
    ensures MouseMove(v, pointer).points == MouseUp(v).points == v.points
  {
  }

  /** `handlePointDragMove`: a dragged marker moves corner `index` (in image coordinates) to
      the marker's stage position; a drag event without a position changes nothing. The
      index is that of a rendered marker, hence of an existing corner. */
  function PointDragMove(v: View, index: int, pos: Option<Point>): (w: View)
    requires v.scale != 0.0 && 0 <= index < |v.points|
    ensures w == v.(points := w.points)
    ensures |w.points| == |v.points|
    ensures forall k :: 0 <= k < |v.points| && k != index ==> w.points[k] == v.points[k]
    ensures pos.None? ==> w.points[index] == v.points[index]
    ensures pos.Some? ==> ImageToStage(w, w.points[index]) == pos.value
    ensures Valid(v) ==> Valid(w)
  {
    if pos.None? then v
    else
      StageImageRoundTrip(v, pos.value);
      v.(points := v.points[index := StageToImage(v, pos.value)])
  }

  // ----- rotation and flips -----

  /** `handleRotate`: a quarter turn left (-90) or right (+90), kept in degrees by adding 360
      and taking the remainder. */
  function Rotate(t: TransformOptions, left: bool): (u: TransformOptions)
    ensures u.flipX == t.flipX && u.flipY == t.flipY
    ensures t.rotation >= -270 ==> 0 <= u.rotation < 360
    ensures 0 <= t.rotation < 360 ==> (u.rotation - t.rotation) % 360 == (if left then 270 else 90)
  {
    var newRotation := Rem(t.rotation + (if left then -90 else 90) + 360, 360);
    t.(rotation := newRotation)
  }

  /** A rotation in {0, 90, 180, 270} stays there. */
  lemma RotateKeepsQuarterTurn(t: TransformOptions, left: bool)
    requires QuarterTurn(t.rotation)
    ensures QuarterTurn(Rotate(t, left).rotation)
  {
    var u := Rotate(t, left);
    assert u.rotation == (t.rotation + (if left then -90 else 90) + 360) % 360;
  }

  /** A left turn followed by a right turn, or the other way round, restores any rotation in
      [0, 360). */
  lemma RotateRoundTrip(t: TransformOptions)
    requires 0 <= t.rotation < 360
    ensures Rotate(Rotate(t, true), false) == t
    ensures Rotate(Rotate(t, false), true) == t
  {
    var l := Rotate(t, true);
    assert l.rotation == (t.rotation + 270) % 360;
    var r := Rotate(t, false);
    assert r.rotation == (t.rotation + 450) % 360;
    if t.rotation < 90 {
      assert l.rotation == t.rotation + 270;
    } else {
      assert l.rotation == t.rotation - 90;
    }
    if t.rotation < 270 {
      assert r.rotation == t.rotation + 90;
    } else {
      assert r.rotation == t.rotation - 270;
    }
  }

  /** The two axes `handleFlip` knows. */
  datatype Axis = X | Y

  /** `handleFlip`: toggles the flag of the named axis. */
  function Flip(t: TransformOptions, axis: Axis): (u: TransformOptions)
    ensures u.rotation == t.rotation
    ensures u.flipX == (if axis == X then !t.flipX else t.flipX)
    ensures u.flipY == (if axis == Y then !t.flipY else t.flipY)
  {
    t.(flipX := if axis == X then !t.flipX else t.flipX, flipY := if axis == Y then !t.flipY else t.flipY)
  }

  /** Flipping an axis twice restores the transform, and flips of the two axes commute. */
  lemma FlipInvolution(t: TransformOptions, axis: Axis, other: Axis)
    ensures Flip(Flip(t, axis), axis) == t
    ensures Flip(Flip(t, axis), other) == Flip(Flip(t, other), axis)
  {
    var once := Flip(t, axis);
    assert once.flipX == !t.flipX || once.flipY == !t.flipY;
  }

  // ----- keyboard shortcuts -----

  const MinGridDensity: int := 4
  const MaxGridDensity: int := 20

  /** `handleKeyDown` for the lower-cased key and the shift flag: shortcuts act only while
      four corners are placed. */
  function KeyDown(v: View, key: string, shift: bool): (w: View)
    ensures |v.points| != 4 ==> w == v
    ensures w == v.(transform := w.transform, showGrid := w.showGrid, gridDensity := w.gridDensity, showHelp := w.showHelp)
    ensures key == "[" && |v.points| == 4 ==> w.gridDensity == MaxInt(MinGridDensity, v.gridDensity - 1)
    ensures key == "]" && |v.points| == 4 ==> w.gridDensity == MinInt(MaxGridDensity, v.gridDensity + 1)
    ensures key != "[" && key != "]" ==> w.gridDensity == v.gridDensity
    ensures key != "r" && key != "h" && key != "v" ==> w.transform == v.transform
    ensures key == "g" && |v.points| == 4 ==> w.showGrid == !v.showGrid
    ensures key != "g" ==> w.showGrid == v.showGrid
    ensures key == "?" && |v.points| == 4 ==> w.showHelp == !v.showHelp
    ensures key != "?" ==> w.showHelp == v.showHelp
    ensures key == "r" && |v.points| == 4 ==> w.transform == Rotate(v.transform, shift)
    ensures key == "h" && |v.points| == 4 ==> w.transform == Flip(v.transform, X)
    ensures key == "v" && |v.points| == 4 ==> w.transform == Flip(v.transform, Y)
  {
    if |v.points| != 4 then v
    else if key == "g" then v.(showGrid := !v.showGrid)
    else if key == "r" then v.(transform := Rotate(v.transform, shift))
    else if key == "h" then v.(transform := Flip(v.transform, X))
    else if key == "v" then v.(transform := Flip(v.transform, Y))
    else if key == "[" then v.(gridDensity := MaxInt(MinGridDensity, v.gridDensity - 1))
    else if key == "]" then v.(gridDensity := MinInt(MaxGridDensity, v.gridDensity + 1))
    else if key == "?" then v.(showHelp := !v.showHelp)
    else v
  }

  /** The bracket keys keep a density that starts in [4, 20] within [4, 20], and every
      shortcut keeps the view valid. */
  lemma KeyDownKeepsValid(v: View, key: string, shift: bool)
    requires Valid(v)
    ensures MinGridDensity <= KeyDown(v, key, shift).gridDensity <= MaxGridDensity
    ensures Valid(KeyDown(v, key, shift))
  {
    if |v.points| == 4 && key == "r" {
      RotateKeepsQuarterTurn(v.transform, shift);
    }
  }

  // ----- the keydown listener as registered -----

  /** The dependency list of the keydown effect: `showGrid`, `gridDensity`, `points.length`
      and `showHelp`. The transform is not among them. */
  function Dependencies(v: View): (bool, int, int, bool) {
    (v.showGrid, v.gridDensity, |v.points|, v.showHelp)
  }

  /** The listener as written: its `handleRotate` and `handleFlip` read `captured`, the
      transform of the render that registered it, instead of the current one; every other
      shortcut reads state that is in the dependency list and so is current. */
  function KeyDownAsWritten(v: View, captured: TransformOptions, key: string, shift: bool): (w: View)
    ensures (key == "r" || key == "h" || key == "v") && |v.points| == 4 ==> w == KeyDown(v.(transform := captured), key, shift)
    ensures key != "r" && key != "h" && key != "v" ==> w == KeyDown(v, key, shift)
    ensures |v.points| != 4 ==> w == v
  {
    if |v.points| != 4 then v
    else if key == "r" then v.(transform := Rotate(captured, shift))
    else if key == "h" then v.(transform := Flip(captured, X))
    else if key == "v" then v.(transform := Flip(captured, Y))
    else KeyDown(v, key, shift)
  }

  /** One key press as written: the listener updates the view, and React registers a new
      listener, capturing the new transform, only if a dependency changed. Returns the new
      view and the transform the next listener reads. */
  function Press(v: View, captured: TransformOptions, key: string, shift: bool): (r: (View, TransformOptions))
    ensures r.0 == KeyDownAsWritten(v, captured, key, shift)
    ensures Dependencies(r.0) != Dependencies(v) ==> r.1 == r.0.transform
    ensures Dependencies(r.0) == Dependencies(v) ==> r.1 == captured
    ensures key == "r" || key == "h" || key == "v" ==> Dependencies(r.0) == Dependencies(v) && r.1 == captured
  {
    var w := KeyDownAsWritten(v, captured, key, shift);
    (w, if Dependencies(w) != Dependencies(v) then w.transform else captured)
  }

  /** A freshly registered listener agrees with the corrected handler. */
  lemma FreshListenerAgrees(v: View, key: string, shift: bool)
    ensures KeyDownAsWritten(v, v.transform, key, shift) == KeyDown(v, key, shift)
  {
    assert v.(transform := v.transform) == v;
  }

  /** As written, a second `r` press repeats the first one's result: with four corners and a
      fresh listener, two presses leave the rotation of one press, where the corrected
      handler turns twice; the two differ for every quarter-turn rotation. */
  lemma SecondRotationIsLost(v: View, shift: bool)
    requires |v.points| == 4 && QuarterTurn(v.transform.rotation)
    ensures var (v1, c1) := Press(v, v.transform, "r", shift);
      Press(v1, c1, "r", shift).0.transform == Rotate(v.transform, shift)
    ensures KeyDown(KeyDown(v, "r", shift), "r", shift).transform == Rotate(Rotate(v.transform, shift), shift)
    ensures Rotate(Rotate(v.transform, shift), shift) != Rotate(v.transform, shift)
  {
    var once := Rotate(v.transform, shift);
    RotateKeepsQuarterTurn(v.transform, shift);
    var twice := Rotate(once, shift);
    assert twice.rotation == (once.rotation + (if shift then -90 else 90) + 360) % 360;
  }

  /** The concrete run: four corners, transform (0, no flip, no flip). Pressing `r` twice
      ends at 90 degrees as written and 180 corrected; `r` then `h` ends at (0, flipX) as
      written and (90, flipX) corrected. */
  lemma StaleTransformExample(v: View)
    requires |v.points| == 4 && v.transform == TransformOptions(0, false, false)
    ensures var (v1, c1) := Press(v, v.transform, "r", false);
      Press(v1, c1, "r", false).0.transform == TransformOptions(90, false, false) &&
      Press(v1, c1, "h", false).0.transform == TransformOptions(0, true, false)
    ensures KeyDown(KeyDown(v, "r", false), "r", false).transform == TransformOptions(180, false, false)
    ensures KeyDown(KeyDown(v, "r", false), "h", false).transform == TransformOptions(90, true, false)
  {
    var (v1, c1) := Press(v, v.transform, "r", false);
    assert c1 == v.transform;
  }

  /** The Reset button: clears the corners and the view transform, keeping zoom, pan and the
      overlay settings. */
  function Reset(v: View): (w: View)
    ensures w.points == [] && w.transform == TransformOptions(0, false, false)
    ensures w.(points := v.points, transform := v.transform) == v
    ensures Valid(v) ==> Valid(w)
  {
    v.(points := [], transform := TransformOptions(0, false, false))
  }
}
