/** js/utils.js `distance` and `isNearPoint`. The Euclidean distance is a square root,
    which this model never computes: it works with the squared distance, and where the
    source compares or returns a real length that length is a parameter `d` tied to the two
    points by `IsLength(d, p, q)`. */
module Utils {
  import opened Types

  /** The square of `utils.distance(p.x, p.y, q.x, q.y)`. */
  function DistSq(p: Point, q: Point): (d: real)
    ensures d >= 0.0
  {
    (q.x - p.x) * (q.x - p.x) + (q.y - p.y) * (q.y - p.y)
  }

  /** d is the value `utils.distance` returns for p and q: the non-negative square root of
      the squared distance. */
  ghost predicate IsLength(d: real, p: Point, q: Point) {
    d >= 0.0 && d * d == DistSq(p, q)
  }

  /** `utils.isNearPoint` with the default threshold 5: the distance is strictly below the
      threshold, decided on squares (a negative threshold is never reached by a length). */
  predicate IsNearPoint(p: Point, q: Point, threshold: real := 5.0) {
    threshold > 0.0 && DistSq(p, q) < threshold * threshold
  }

  /** The distance is symmetric in its two points. */
  lemma DistSqSymmetric(p: Point, q: Point)
    ensures DistSq(p, q) == DistSq(q, p)
  {
  }

  /** The distance from a point to itself is zero. */
  lemma DistSqSelf(p: Point)
    ensures DistSq(p, p) == 0.0
  {
  }

  /** Translating both points by the same offset keeps their distance. */
  lemma DistSqTranslation(p: Point, q: Point, dx: real, dy: real)
    ensures DistSq(Offset(p, dx, dy), Offset(q, dx, dy)) == DistSq(p, q)
  {
    var p', q' := Offset(p, dx, dy), Offset(q, dx, dy);
    assert q'.x - p'.x == q.x - p.x;
    assert q'.y - p'.y == q.y - p.y;
  }

  /** A length is determined by its points, and is the same in both directions. */
  lemma LengthUnique(d: real, e: real, p: Point, q: Point)
    requires IsLength(d, p, q) && IsLength(e, q, p)
    ensures d == e
  {
    DistSqSymmetric(p, q);
    if d < e { SquareMonotone(d, e); } else if e < d { SquareMonotone(e, d); }
  }

  /** Comparing two lengths is comparing their squared distances, so a loop that keeps the
      smallest `distance` keeps the smallest `DistSq`. */
  lemma LengthOrder(d: real, e: real, p: Point, q: Point, r: Point)
    requires IsLength(d, p, q) && IsLength(e, p, r)
    ensures d < e <==> DistSq(p, q) < DistSq(p, r)
  {
    if d < e { SquareMonotone(d, e); } else if e < d { SquareMonotone(e, d); }
  }

  /** `isNearPoint(p, q, t)` holds exactly when the distance is strictly below t: a point at
      distance exactly t is not near. */
  lemma IsNearPointMeaning(d: real, p: Point, q: Point, threshold: real)
    requires IsLength(d, p, q)
    ensures IsNearPoint(p, q, threshold) <==> d < threshold
  {
    if threshold > 0.0 {
      if d < threshold { SquareMonotone(d, threshold); } else if threshold < d { SquareMonotone(threshold, d); }
    }
  }

  /** With no threshold given, near means closer than 5 pixels. */
  lemma DefaultThreshold(d: real, p: Point, q: Point)
    requires IsLength(d, p, q)
    ensures IsNearPoint(p, q) <==> d < 5.0
  {
    IsNearPointMeaning(d, p, q, 5.0);
  }

  lemma SquareMonotone(a: real, b: real)
    requires 0.0 <= a < b
    ensures a * a < b * b
  {
    PositiveProduct(b - a, b + a);
    assert b * b - a * a == (b - a) * (b + a);
  }

  lemma PositiveProduct(a: real, b: real)
    requires a > 0.0 && b > 0.0
    ensures a * b > 0.0
  {
  }
}
