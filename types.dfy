/** Shared value types of the system: the two-coordinate `Point` record that src/types.ts
    declares (and js/ code writes as `[x, y]` pairs), and an option type standing for a
    value that may be `null`. */
module Types {

  /** A point in image (or stage) pixel coordinates. */
  datatype Point = Point(x: real, y: real)

  /** `None` is the source's `null`. */
  datatype Option<T> = None | Some(value: T)

  /** What a computation that may throw or go non-finite produces: a value, a thrown
      JavaScript exception (a TypeError from reading past the end of an array), or a result
      holding an infinite or NaN number because a division by zero went unchecked. */
  datatype Outcome<T> = Done(value: T) | Thrown | NonFinite

  /** The user's view transform of the extracted texture (`TransformOptions` of
      src/components/Canvas.tsx): a rotation in degrees and a flip per axis. */
  datatype TransformOptions = TransformOptions(rotation: int, flipX: bool, flipY: bool)

  /** Translates a point by (dx, dy). */
  function Offset(p: Point, dx: real, dy: real): (q: Point)
    ensures q.x - p.x == dx && q.y - p.y == dy
  {
    Point(p.x + dx, p.y + dy)
  }

  /** Every point of the list translated by (dx, dy), in the same order. */
  function Translated(points: seq<Point>, dx: real, dy: real): (moved: seq<Point>)
    ensures |moved| == |points| && forall k :: 0 <= k < |points| ==> moved[k] == Offset(points[k], dx, dy)
  {
    seq(|points|, k requires 0 <= k < |points| => Offset(points[k], dx, dy))
  }
}
