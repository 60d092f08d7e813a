/** Points, the point-in-circle test of the hotspot scripts and Python's `int()` on a float. */
module Geometry {

  /** A point in the plane (pixels or normalised camera coordinates, depending on the caller). */
  datatype Point = Point(x: real, y: real)

  /** The squared Euclidean distance between two points. */
  function SquaredDistance(a: Point, b: Point): (d: real)
    ensures d >= 0.0
    ensures a == b ==> d == 0.0
  {
    (a.x - b.x) * (a.x - b.x) + (a.y - b.y) * (a.y - b.y)
  }

  /**
   * A point is inside a hotspot iff its squared distance to the centre is at
   * most the squared radius. The centre itself is inside, and a point inside
   * lies within the radius of the centre along each axis.
   */
  predicate IsPointInside(center: Point, radius: real, p: Point)
    ensures p == center ==> IsPointInside(center, radius, p)
    ensures IsPointInside(center, radius, p) ==>
              (p.x - center.x) * (p.x - center.x) <= radius * radius
              && (p.y - center.y) * (p.y - center.y) <= radius * radius
  {
    SquaredDistance(center, p) <= radius * radius
  }

  /** Some point of `points` lies inside the circle. */
  predicate AnyInside(center: Point, radius: real, points: seq<Point>)
  {
    exists k :: 0 <= k < |points| && IsPointInside(center, radius, points[k])
  }

  /** The centre is always inside, the test is symmetric in centre and point, and only |radius| matters. */
  lemma InsideFacts(center: Point, radius: real, p: Point)
    ensures IsPointInside(center, radius, center)
    ensures IsPointInside(center, radius, p) <==> IsPointInside(p, radius, center)
    ensures IsPointInside(center, radius, p) <==> IsPointInside(center, -radius, p)
  {
    assert SquaredDistance(center, p) == SquaredDistance(p, center);
  }

  /** Python's `int()` on a float: truncation toward zero. */
  function Trunc(x: real): (r: int)
    ensures x >= 0.0 ==> 0 <= r && r as real <= x < r as real + 1.0
    ensures x < 0.0 ==> r <= 0 && r as real - 1.0 < x <= r as real
  {
    if x >= 0.0 then x.Floor else -((-x).Floor)
  }
}
