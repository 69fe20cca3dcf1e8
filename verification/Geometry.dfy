/**
 The planar predicates of the triangulator, over exact reals.
 A fused multiply-add is exact here, two points are coincident when they are equal,
 and the smallest positive double is zero.
 */
module Geometry {
  datatype Point = Point(x: real, y: real)

  /** Positive when a, b, c turn left, and then the area of the parallelogram they span. */
  function Cross(a: Point, b: Point, c: Point): real {
    (b.x - a.x) * (c.y - a.y) - (b.y - a.y) * (c.x - a.x)
  }

  /** Inside or on the triangle, whichever way it winds. */
  predicate InsideTriangle(a: Point, b: Point, c: Point, p: Point) {
    var (first, second, third) := (Cross(a, b, p), Cross(b, c, p), Cross(c, a, p));
    || (first >= 0.0 && second >= 0.0 && third >= 0.0)
    || (first <= 0.0 && second <= 0.0 && third <= 0.0)
  }

  function Squared(d: real): real {
    d * d
  }

  function SumOfSquares(dx: real, dy: real): real {
    Squared(dx) + Squared(dy)
  }

  function Distance2(a: Point, b: Point): real {
    SumOfSquares(a.x - b.x, a.y - b.y)
  }

  function Midpoint(a: Point, b: Point): Point {
    Point((a.x + b.x) / 2.0, (a.y + b.y) / 2.0)
  }

  function Abs(r: real): real {
    if r < 0.0 then -r else r
  }

  function Min(a: real, b: real): real {
    if a <= b then a else b
  }

  function Max(a: real, b: real): real {
    if a <= b then b else a
  }

  /** The bounding box test, which for a p collinear with a and b decides betweenness. */
  predicate OnSegment(a: Point, b: Point, p: Point) {
    Min(a.x, b.x) <= p.x <= Max(a.x, b.x) && Min(a.y, b.y) <= p.y <= Max(a.y, b.y)
  }

  /** The triangulator's segment test; what it decides is a law of the segments. */
  predicate Crosses(a: Point, b: Point, c: Point, d: Point) {
    var (first, second) := (Cross(a, b, c), Cross(a, b, d));
    var (third, fourth) := (Cross(c, d, a), Cross(c, d, b));
    if a == c || a == d || b == c || b == d then false
    else if first == 0.0 && OnSegment(a, b, c) then true
    else if second == 0.0 && OnSegment(a, b, d) then true
    else if third == 0.0 && OnSegment(c, d, a) then true
    else if fourth == 0.0 && OnSegment(c, d, b) then true
    else (first > 0.0) != (second > 0.0) && (third > 0.0) != (fourth > 0.0)
  }
}
