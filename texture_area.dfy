/** js/textureArea.js: a selected quadrilateral of the source image together with its
    interaction flags. The four corners are kept as a sequence value: the class stores its own
    list, and `clone` hands the new area a copy, so no two areas share a list. */
module TextureAreas {
  import opened Types
  import opened Utils
  import opened JsBuiltins

  // ----- the even-odd test of containsPoint -----

  /** The vertex paired with vertex i in the `containsPoint` loop: j starts at the last vertex
      and then trails i by one. */
  function Prev(n: nat, i: nat): (j: nat)
    requires i < n
    ensures j < n && (i == 0 <==> j == n - 1 || n == 1) && (i > 0 ==> j + 1 == i)
  {
    if i == 0 then n - 1 else i - 1
  }

  /** The edge from a to b crosses the horizontal ray going right from p: one end is strictly
      above the ray's height and the other is not, and the crossing lies right of p. The first
      conjunct makes the two heights differ, so the division is defined. */
  predicate EdgeCrosses(a: Point, b: Point, p: Point) {
    ((a.y > p.y) != (b.y > p.y)) && p.x < (b.x - a.x) * (p.y - a.y) / (b.y - a.y) + a.x
  }

  /** How many of the first n edges (points[i], points[Prev(i)]) the ray from p crosses. */
  function Crossings(points: seq<Point>, p: Point, n: nat): nat
    requires n <= |points|
  {
    if n == 0 then 0
    else Crossings(points, p, n - 1) + (if EdgeCrosses(points[n - 1], points[Prev(|points|, n - 1)], p) then 1 else 0)
  }

  /** The even-odd rule: inside when the ray crosses the outline an odd number of times. */
  predicate InsideEvenOdd(points: seq<Point>, p: Point) {
    Crossings(points, p, |points|) % 2 == 1
  }

  /** A horizontal edge never counts as a crossing. */
  lemma HorizontalEdgeNeverCrosses(a: Point, b: Point, p: Point)
    requires a.y == b.y
    ensures !EdgeCrosses(a, b, p)
  {
  }

  /** Each edge's crossing test is unchanged when the edge and the point move together. */
  lemma EdgeCrossesTranslation(a: Point, b: Point, p: Point, dx: real, dy: real)
    ensures EdgeCrosses(Offset(a, dx, dy), Offset(b, dx, dy), Offset(p, dx, dy)) == EdgeCrosses(a, b, p)
  {
    var a', b', p' := Offset(a, dx, dy), Offset(b, dx, dy), Offset(p, dx, dy);
    assert (a'.y > p'.y) == (a.y > p.y) && (b'.y > p'.y) == (b.y > p.y);
    if (a.y > p.y) != (b.y > p.y) {
      assert b'.x - a'.x == b.x - a.x && p'.y - a'.y == p.y - a.y && b'.y - a'.y == b.y - a.y;
    }
  }

  /** Moving the outline and the point by the same offset keeps every crossing. */
  lemma {:induction false} CrossingsTranslation(points: seq<Point>, p: Point, dx: real, dy: real, n: nat)
    requires n <= |points|
    ensures Crossings(Translated(points, dx, dy), Offset(p, dx, dy), n) == Crossings(points, p, n)
  {
    if n > 0 {
      CrossingsTranslation(points, p, dx, dy, n - 1);
      var j := Prev(|points|, n - 1);
      EdgeCrossesTranslation(points[n - 1], points[j], p, dx, dy);
    }
  }

  /** A point at or above (in image coordinates: at or below) every vertex's height meets no
      edge that straddles its ray, so it is outside. */
  lemma {:induction false} NoCrossingsBeyondAllVertices(points: seq<Point>, p: Point, n: nat)
    requires n <= |points|
    requires forall k :: 0 <= k < |points| ==> points[k].y <= p.y
    ensures Crossings(points, p, n) == 0
  {
    if n > 0 {
      NoCrossingsBeyondAllVertices(points, p, n - 1);
    }
  }

  /** The unit square contains its centre: exactly one of its edges crosses the centre's ray. */
  lemma UnitSquareContainsCentre()
    ensures InsideEvenOdd([Point(0.0, 0.0), Point(1.0, 0.0), Point(1.0, 1.0), Point(0.0, 1.0)], Point(0.5, 0.5))
  {
    var sq := [Point(0.0, 0.0), Point(1.0, 0.0), Point(1.0, 1.0), Point(0.0, 1.0)];
    var c := Point(0.5, 0.5);
    assert !EdgeCrosses(sq[0], sq[3], c);
    assert !EdgeCrosses(sq[1], sq[0], c);
    assert EdgeCrosses(sq[2], sq[1], c);
    assert !EdgeCrosses(sq[3], sq[2], c);
    assert Crossings(sq, c, 4) == 1;
  }

  // ----- the extent used by extractTexture -----

  /** The output size `extractTexture` computes from the corners: the longer of the top and
      bottom edges by the longer of the right and left edges. The four side lengths are the
      values `utils.distance` returns for them. */
  function Extent(points: seq<Point>, d01: real, d23: real, d12: real, d30: real): (size: (real, real))
    requires |points| >= 4
    requires IsLength(d01, points[0], points[1]) && IsLength(d23, points[2], points[3])
    requires IsLength(d12, points[1], points[2]) && IsLength(d30, points[3], points[0])
    ensures size.0 >= d01 && size.0 >= d23 && size.1 >= d12 && size.1 >= d30
    ensures size.0 >= 0.0 && size.1 >= 0.0
    ensures IsLength(size.0, points[0], points[1]) || IsLength(size.0, points[2], points[3])
    ensures IsLength(size.1, points[1], points[2]) || IsLength(size.1, points[3], points[0])
  {
    (Max(d01, d23), Max(d12, d30))
  }

  // ----- translating the corners -----

  /** `moveArea(-dx, -dy)` after `moveArea(dx, dy)` gives back the original corners. */
  lemma TranslatedRoundTrip(points: seq<Point>, dx: real, dy: real)
    ensures Translated(Translated(points, dx, dy), -dx, -dy) == points
  {
    var back := Translated(Translated(points, dx, dy), -dx, -dy);
    forall k | 0 <= k < |points| ensures back[k] == points[k] {
      assert back[k].x == points[k].x && back[k].y == points[k].y;
    }
  }

  /** Translation keeps the distance between every two corners, so the extent of a moved area
      is the extent of the original. */
  lemma TranslatedKeepsDistances(points: seq<Point>, dx: real, dy: real, i: nat, j: nat)
    requires i < |points| && j < |points|
    ensures DistSq(Translated(points, dx, dy)[i], Translated(points, dx, dy)[j]) == DistSq(points[i], points[j])
  {
    DistSqTranslation(points[i], points[j], dx, dy);
  }

  // ----- the class -----

  class TextureArea {
    var points: seq<Point>
    var selected: bool
    var hovering: bool
    var dragging: bool
    var activePoint: Option<int>
    var localTransform: bool

    /** The interaction state a new area starts in: nothing selected, hovered or dragged. */
    predicate AtRest()
      reads this
    {
      !selected && !hovering && !dragging && activePoint == None && !localTransform
    }

    /** A new area over the given corners, in its rest state. */
    constructor (points: seq<Point>)
      ensures this.points == points && AtRest()
    {
      this.points := points;
      selected := false;
      hovering := false;
      dragging := false;
      activePoint := None;
      localTransform := false;
    }

    /** `containsPoint`: the even-odd rule over the outline, one parity flip per crossed edge. */
    method ContainsPoint(x: real, y: real) returns (inside: bool)
      ensures inside == InsideEvenOdd(points, Point(x, y))
    {
      inside := false;
      var n := |points|;
      var i := 0;
      var j := n - 1;
      while i < n
        invariant 0 <= i <= n
        invariant i < n ==> j == Prev(n, i)
        invariant inside == (Crossings(points, Point(x, y), i) % 2 == 1)
      {
        var intersect := EdgeCrosses(points[i], points[j], Point(x, y));
        if intersect {
          inside := !inside;
        }
        j := i;
        i := i + 1;
      }
    }

    /** `getNearestPoint`: the index of a corner at the smallest distance, the lowest such
      index on a tie, and that (squared) distance; index -1 and an infinite distance (`None`)
      when there are no corners. */
    method GetNearestPoint(x: real, y: real) returns (index: int, distSq: Option<real>)
      ensures |points| == 0 ==> index == -1 && distSq == None
      ensures |points| > 0 ==> 0 <= index < |points| && distSq == Some(DistSq(Point(x, y), points[index]))
      ensures |points| > 0 ==> forall k :: 0 <= k < |points| ==> DistSq(Point(x, y), points[index]) <= DistSq(Point(x, y), points[k])
      ensures |points| > 0 ==> forall k :: 0 <= k < index ==> DistSq(Point(x, y), points[index]) < DistSq(Point(x, y), points[k])
    {
      var p := Point(x, y);
      distSq := None;
      index := -1;
      var i := 0;
      while i < |points|
        invariant 0 <= i <= |points|
        invariant i == 0 <==> index == -1
        invariant i == 0 ==> distSq == None
        invariant i > 0 ==> 0 <= index < i && distSq == Some(DistSq(p, points[index]))
        invariant forall k :: 0 <= k < i ==> DistSq(p, points[index]) <= DistSq(p, points[k])
        invariant forall k :: 0 <= k < index ==> DistSq(p, points[index]) < DistSq(p, points[k])
      {
        var dist := DistSq(p, points[i]);
        if distSq.None? || dist < distSq.value {
          distSq := Some(dist);
          index := i;
        }
        i := i + 1;
      }
    }

    /** `movePoint`: replaces the corner at a valid index and changes nothing otherwise. */
    method MovePoint(index: int, x: real, y: real)
      modifies this`points
      ensures |points| == |old(points)|
      ensures points == if 0 <= index < |old(points)| then old(points)[index := Point(x, y)] else old(points)
    {
      if index >= 0 && index < |points| {
        points := points[index := Point(x, y)];
      }
    }

    /** `moveArea`: translates every corner by (dx, dy). */
    method MoveArea(dx: real, dy: real)
      modifies this`points
      ensures points == Translated(old(points), dx, dy)
    {
      points := Translated(points, dx, dy);
    }

    /** `clone`: a new area with equal corners in its own list, back in the rest state
      whatever this area's flags are. */
    method Clone() returns (copy: TextureArea)
      ensures fresh(copy) && copy.points == points && copy.AtRest()
    {
      copy := new TextureArea(points);
    }
  }
}
