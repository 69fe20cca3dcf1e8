/**
 The triangle between a point, where a ray from it comes to an edge, and an end of that edge, with the loop's vertices
 in it told by the angle at which they are seen.
 */
module Fans {
  import opened Geometry
  import opened EdgeSums
  import opened RingMeasures
  import opened SegmentCrossing
  import opened SimpleLoops
  import opened SegmentWinding
  import opened Nearby
  import opened EarWinding
  import opened LowestVertex
  import opened CornerCuts
  import opened CornerSectors
  import opened Bridging
  import opened RaySight

  /** Positive on the left of the line from a to b, or on its right. */
  function Side(left: bool, a: Point, b: Point, p: Point): real {
    if left then Cross(a, b, p) else -Cross(a, b, p)
  }

  lemma SideAlong(left: bool, a: Point, b: Point, p: Point, q: Point, r: real)
    ensures Side(left, a, b, Along(p, q, r)) == Mean(Side(left, a, b, p), Side(left, a, b, q), r)
  {
    SidesAlong(a, b, p, q, r);
    hide Cross, Along;
    NegatedMean(Cross(a, b, p), Cross(a, b, q), r);
  }

  lemma NegatedMean(x: real, y: real, r: real)
    ensures Mean(-x, -y, r) == -Mean(x, y, r)
  {
  }

  lemma SideTurns(left: bool, a: Point, b: Point, c: Point)
    ensures Side(left, a, b, a) == 0.0 && Side(left, a, b, b) == 0.0
    ensures Side(left, b, c, a) == Side(left, a, b, c) == Side(left, c, a, b)
    ensures Side(left, a, c, b) == -Side(left, a, b, c)
  {
  }

  /** In the triangle or on it. */
  predicate InFan(left: bool, o: Point, x: Point, c: Point, p: Point) {
    Side(left, o, x, p) >= 0.0 && Side(left, x, c, p) >= 0.0 && Side(left, c, o, p) >= 0.0
  }

  lemma FanIsTriangle(left: bool, o: Point, x: Point, c: Point, p: Point)
    requires Side(left, o, x, c) > 0.0
    ensures InFan(left, o, x, c, p) <==> InsideTriangle(o, x, c, p)
  {
    HeightsBalance(p, o, x, c);
  }

  /** Four directions from o. */
  lemma FourDirections(left: bool, o: Point, x: Point, a: Point, q: Point, c: Point)
    ensures Side(left, o, x, q) * Side(left, o, a, c)
         == Side(left, o, x, a) * Side(left, o, q, c) + Side(left, o, x, c) * Side(left, o, a, q)
  {
    var (x1, x2, a1, a2) := (x.x - o.x, x.y - o.y, a.x - o.x, a.y - o.y);
    var (q1, q2, c1, c2) := (q.x - o.x, q.y - o.y, c.x - o.x, c.y - o.y);
    ByCoordinates(x1, x2, a1, a2, q1, q2, c1, c2);
    assert Cross(o, x, q) == x1 * q2 - x2 * q1 && Cross(o, a, c) == a1 * c2 - a2 * c1;
    assert Cross(o, x, a) == x1 * a2 - x2 * a1 && Cross(o, q, c) == q1 * c2 - q2 * c1;
    assert Cross(o, x, c) == x1 * c2 - x2 * c1 && Cross(o, a, q) == a1 * q2 - a2 * q1;
    hide Cross;
    SignsCancel(Cross(o, x, q), Cross(o, a, c));
    SignsCancel(Cross(o, x, a), Cross(o, q, c));
    SignsCancel(Cross(o, x, c), Cross(o, a, q));
  }

  lemma ByCoordinates(x1: real, x2: real, a1: real, a2: real, q1: real, q2: real, c1: real, c2: real)
    ensures (x1 * q2 - x2 * q1) * (a1 * c2 - a2 * c1)
         == (x1 * a2 - x2 * a1) * (q1 * c2 - q2 * c1) + (x1 * c2 - x2 * c1) * (a1 * q2 - a2 * q1)
  {
  }

  lemma SignsCancel(x: real, y: real)
    ensures -x * -y == x * y
  {
  }

  /** What is seen between x and q is seen before c. */
  lemma WithinCone(left: bool, o: Point, x: Point, a: Point, q: Point, c: Point)
    requires Side(left, o, x, q) > 0.0 && Side(left, o, x, c) > 0.0
    requires Side(left, o, x, a) >= 0.0 && Side(left, o, q, a) <= 0.0 && Side(left, o, q, c) >= 0.0
    ensures Side(left, c, o, a) >= 0.0
    ensures Side(left, o, q, a) < 0.0 ==> Side(left, c, o, a) > 0.0
  {
    FourDirections(left, o, x, a, q, c);
    SideTurns(left, o, q, a);
    SideTurns(left, o, a, c);
    hide Side;
    var (k, b) := (Side(left, o, x, q), Side(left, o, a, c));
    SignOfTerm(Side(left, o, x, a), Side(left, o, q, c));
    SignOfTerm(Side(left, o, x, c), Side(left, o, a, q));
    SignOfProduct(b, k);
    Commuted(b, k);
  }

  // ----- the loop, a point off it, and the edge its ray comes to first -----

  ghost predicate Joined(ring: seq<Point>, u: Point, v: Point) {
    IsEdge(ring, u, v) || IsEdge(ring, v, u)
  }

  /** The edge with one end above the height of o and the other not above meets the ray at x or past it. */
  ghost predicate Past(o: Point, x: Point, u: Point, v: Point) {
    v.y > o.y >= u.y ==> forall s: real :: 0.0 <= s < 1.0 ==> !OnEdge(u, v, Along(o, x, s))
  }

  /** The ray from o comes to x first, on the edge between c and w, of which c is the end further right. */
  ghost predicate IsFan(left: bool, ring: seq<Point>, o: Point, x: Point, c: Point, w: Point) {
    && Simple(ring) && OffRing(ring, o)
    && x.y == o.y && x.x > o.x && c.x >= x.x && Side(left, o, x, c) > 0.0
    && Joined(ring, c, w) && OnEdge(c, w, x) && (c.y > o.y) != (w.y > o.y)
    && forall u, v :: Joined(ring, u, v) ==> Past(o, x, u, v)
  }

  /** Two edges are one, or have only an end of both in common. */
  lemma JoinedApart(ring: seq<Point>, a: Point, b: Point, u: Point, v: Point, z: Point)
    requires Simple(ring) && Joined(ring, a, b) && Joined(ring, u, v) && OnEdge(a, b, z) && OnEdge(u, v, z)
    ensures (a == u && b == v) || (a == v && b == u) || (IsEnd(z, a, b) && IsEnd(z, u, v))
  {
    hide EdgesApart, IsEdge, OnEdge, Simple;
    SimpleIsTame(ring);
    OnEdgeBack(a, b, z);
    OnEdgeBack(u, v, z);
    var (p, q) := if IsEdge(ring, a, b) then (a, b) else (b, a);
    var (r, s) := if IsEdge(ring, u, v) then (u, v) else (v, u);
    assert IsEdge(ring, p, q) && IsEdge(ring, r, s) && OnEdge(p, q, z) && OnEdge(r, s, z);
    if (p, q) != (r, s) && (p, q) != (s, r) {
      ApartShare(p, q, r, s, z);
    }
  }

  lemma JoinedIsProper(ring: seq<Point>, u: Point, v: Point)
    requires Simple(ring) && Joined(ring, u, v)
    ensures u != v && u in ring && v in ring
  {
    hide EdgesApart;
    if IsEdge(ring, u, v) {
      EndsAreVertices(ring, u, v);
    } else {
      EndsAreVertices(ring, v, u);
    }
  }

  lemma HeightOfSide(o: Point, a: Point, p: Point)
    requires a.y == o.y && a.x > o.x
    ensures Cross(o, a, p) > 0.0 <==> p.y > o.y
    ensures Cross(o, a, p) < 0.0 <==> p.y < o.y
  {
    var w := a.x - o.x;
    assert Cross(o, a, p) == (p.y - o.y) * w;
    SignOfProduct(p.y - o.y, w);
  }

  /** Which heights are on the fan's side of the ray. */
  lemma HeightsBySide(left: bool, o: Point, x: Point, c: Point, p: Point)
    requires x.y == o.y && x.x > o.x && Side(left, o, x, c) > 0.0
    ensures left <==> c.y > o.y
    ensures Side(left, o, x, p) > 0.0 <==> if left then p.y > o.y else p.y < o.y
    ensures Side(left, o, x, p) == 0.0 <==> p.y == o.y
  {
    HeightOfSide(o, x, p);
    HeightOfSide(o, x, c);
    hide Cross;
  }

  // ----- an edge that goes in under a line of sight ends in the triangle -----

  /** Part of the way from a point of an edge to its end a. */
  lemma OnTheWay(a: Point, b: Point, q: Point, r: real)
    requires a != b && OnEdge(a, b, q) && q != a && 0.0 < r < 1.0
    ensures var y := Along(q, a, r); OnEdge(a, b, y) && y != a && y != b
  {
    var t := FractionOn(a, b, q);
    hide Along, OnSegment, Cross;
    EndsAlong(a, b);
    AlongAlong(a, b, t, r);
    SignOfProduct(1.0 - r, t);
    Commuted(1.0 - r, t);
    var w := (1.0 - r) * t;
    assert w < 1.0 by { SignOfProduct(t, 1.0 - r); SignOfProduct(r, t); assert w == t - r * t; }
    PointsAreOn(a, b, w);
    WhereAlong(a, b, w, 0.0);
    WhereAlong(a, b, w, 1.0);
  }

  /** From a point of the edge on the one side of a line, with its end a on the other, b is on the one. */
  lemma OtherEnd(left: bool, p: Point, z: Point, a: Point, b: Point, q: Point)
    requires a != b && OnEdge(a, b, q) && Side(left, p, z, q) > 0.0 && Side(left, p, z, a) < 0.0
    ensures Side(left, p, z, b) > 0.0
  {
    var t := FractionOn(a, b, q);
    SideAlong(left, p, z, a, b, t);
    hide Side;
    SignOfTerm(1.0 - t, Side(left, p, z, a));
    SignOfTerm(t, Side(left, p, z, b));
  }

  /** A point of the ray's line within the triangle is on the ray before x, or is x. */
  lemma OnTheRay(left: bool, o: Point, x: Point, c: Point, q: Point, y: Point) returns (s: real)
    requires Side(left, o, x, c) > 0.0 && Side(left, o, x, y) == 0.0 && Side(left, x, c, y) >= 0.0
    requires Side(left, o, x, q) > 0.0 && Side(left, o, q, y) < 0.0
    ensures 0.0 < s <= 1.0 && y == Along(o, x, s)
  {
    SideTurns(left, o, x, c);
    SideTurns(left, x, c, o);
    assert o != x;
    s := FractionOf(o, x, y);
    SideAlong(left, x, c, o, x, s);
    SideAlong(left, o, q, o, x, s);
    SideTurns(left, x, c, x);
    SideTurns(left, o, q, x);
    SideTurns(left, o, x, q);
    hide Side, Cross;
    ToAndFromZero(Side(left, x, c, o), s);
    ToAndFromZero(Side(left, o, q, x), s);
    SignOfProduct(1.0 - s, Side(left, x, c, o));
    SignOfProduct(s, Side(left, o, q, x));
  }

  /** A point of the far side's line within the triangle is on the far side. */
  lemma OnTheFarSide(left: bool, o: Point, x: Point, c: Point, y: Point)
    requires Side(left, o, x, c) > 0.0 && Side(left, x, c, y) == 0.0
    requires Side(left, o, x, y) >= 0.0 && Side(left, c, o, y) >= 0.0
    ensures OnEdge(x, c, y)
  {
    if left {
      CornerSides(o, x, c);
      var m := OnTheEdge(x, c, o, y);
      PointsAreOn(x, c, m);
    } else {
      Opposite(c, x, y);
      Opposite(o, x, y);
      Opposite(o, c, y);
      Opposite(o, x, c);
      CornerSides(x, o, c);
      var m := OnTheEdge(c, x, o, y);
      PointsAreOn(c, x, m);
      OnEdgeBack(c, x, y);
    }
  }

  lemma PartOfEdge(c: Point, w: Point, x: Point, y: Point)
    requires c != w && x != c && OnEdge(c, w, x) && OnEdge(x, c, y)
    ensures OnEdge(c, w, y)
  {
    var s := FractionOn(c, w, x);
    var t := FractionOn(x, c, y);
    hide Cross, OnSegment, Along;
    AlongAlong(c, w, s, t);
    SignOfTerm(1.0 - t, s);
    SignOfTerm(t, s);
    assert (1.0 - t) * s == s - t * s;
    PointsAreOn(c, w, (1.0 - t) * s);
  }

  /** The edge does not leave the triangle across the ray. */
  lemma NotAcrossTheRay(left: bool, ring: seq<Point>, o: Point, x: Point, c: Point, w: Point, a: Point, b: Point,
      q: Point, y: Point)
    requires IsFan(left, ring, o, x, c, w) && Joined(ring, a, b) && OnEdge(a, b, q) && OnEdge(a, b, y)
    requires Side(left, o, x, q) > 0.0 && Side(left, x, c, q) > 0.0 && Side(left, o, q, y) < 0.0
    requires Side(left, o, x, y) == 0.0 && Side(left, x, c, y) >= 0.0
    ensures Side(left, o, x, a) >= 0.0
  {
    hide Side, OnEdge, Simple, IsEdge, OffRing;
    assert Past(o, x, a, b) && Past(o, x, b, a);
    if Side(left, o, x, a) < 0.0 {
      JoinedIsProper(ring, a, b);
      OtherEnd(left, o, x, a, b, q);
      HeightsBySide(left, o, x, c, a);
      HeightsBySide(left, o, x, c, b);
      var s := OnTheRay(left, o, x, c, q, y);
      OnEdgeBack(a, b, y);
      if s == 1.0 {
        EndsAlong(o, x);
        HeightsBySide(left, o, x, c, y);
        JoinedApart(ring, a, b, c, w, x);
        OnEdgeBack(a, b, q);
        OnTheFansEdge(left, x, c, w, q);
      }
    }
  }

  /** What is on the fan's edge is not within. */
  lemma OnTheFansEdge(left: bool, x: Point, c: Point, w: Point, q: Point)
    requires c != w && x != c && OnEdge(c, w, x) && OnEdge(c, w, q)
    ensures Side(left, x, c, q) == 0.0
  {
    var s := FractionOn(c, w, x);
    var t := FractionOn(c, w, q);
    SideAlong(left, x, c, c, w, t);
    SideAlong(left, x, c, c, w, s);
    SideTurns(left, x, c, x);
    EndsAlong(c, w);
    hide Side, Along, Cross;
    ToAndFromZero(Side(left, x, c, w), s);
    NoZeroFactor(Side(left, x, c, w), s);
    Commuted(s, Side(left, x, c, w));
  }

  /** Nor across the far side. */
  lemma NotAcrossTheFarSide(left: bool, ring: seq<Point>, o: Point, x: Point, c: Point, w: Point, a: Point, b: Point,
      q: Point, y: Point)
    requires IsFan(left, ring, o, x, c, w) && Joined(ring, a, b) && OnEdge(a, b, q) && OnEdge(a, b, y)
    requires Side(left, x, c, q) > 0.0 && y != a && y != b
    requires Side(left, o, x, y) >= 0.0 && Side(left, c, o, y) >= 0.0
    ensures Side(left, x, c, y) != 0.0
  {
    SideTurns(left, o, x, c);
    SideTurns(left, o, x, x);
    hide Side, OnEdge, Simple, IsEdge, OffRing, Past;
    JoinedIsProper(ring, c, w);
    if Side(left, x, c, y) == 0.0 {
      OnTheFarSide(left, o, x, c, y);
      PartOfEdge(c, w, x, y);
      JoinedApart(ring, a, b, c, w, y);
      OnEdgeBack(a, b, q);
      OnTheFansEdge(left, x, c, w, q);
    }
  }

  /** An edge from within the triangle to below the line of sight to where it sets out ends in the triangle. */
  lemma Enters(left: bool, ring: seq<Point>, o: Point, x: Point, c: Point, w: Point, a: Point, b: Point, q: Point)
    requires IsFan(left, ring, o, x, c, w) && Joined(ring, a, b) && OnEdge(a, b, q) && q != a
    requires InFan(left, o, x, c, q) && Side(left, o, x, q) > 0.0 && Side(left, x, c, q) > 0.0
    requires Side(left, o, q, a) < 0.0
    ensures InFan(left, o, x, c, a)
  {
    hide Side, OnEdge, Simple, IsEdge, OffRing, Past, Along, Mean;
    var (p, z) := (Side(left, o, x, a), Side(left, x, c, a));
    JoinedIsProper(ring, a, b);
    SideTurns(left, o, q, c);
    if p < 0.0 || z < 0.0 {
      var r := FirstToVanish(Side(left, o, x, q), Side(left, x, c, q), p, z);
      var y := Along(q, a, r);
      OnTheWay(a, b, q, r);
      SideAlong(left, o, x, q, a, r);
      SideAlong(left, x, c, q, a, r);
      SideAlong(left, o, q, q, a, r);
      SideTurns(left, o, q, q);
      Downwards(Side(left, o, q, a), r);
      WithinCone(left, o, x, y, q, c);
      if Side(left, x, c, y) == 0.0 {
        NotAcrossTheFarSide(left, ring, o, x, c, w, a, b, q, y);
      } else {
        NotAcrossTheRay(left, ring, o, x, c, w, a, b, q, y);
        NotNegative(Side(left, o, x, q), p, r);
      }
    } else {
      WithinCone(left, o, x, a, q, c);
    }
  }

  lemma Downwards(z: real, r: real)
    requires z < 0.0 && 0.0 < r < 1.0
    ensures Mean(0.0, z, r) < 0.0
  {
    SignOfProduct(z, r);
    Commuted(z, r);
  }

  // ----- the order of the angles -----

  /** Points of the triangle other than o are to the right of it. */
  lemma RightOfTip(left: bool, o: Point, x: Point, c: Point, p: Point)
    requires x.y == o.y && x.x > o.x && c.x >= x.x && Side(left, o, x, c) > 0.0
    requires InFan(left, o, x, c, p) && p != o
    ensures p.x > o.x && (if left then p.y >= o.y else p.y <= o.y)
  {
    HeightsBySide(left, o, x, c, p);
    TipWeights(left, o, x, c, p);
    SideTurns(left, o, x, c);
    hide Side;
    WeightsArePositive(Side(left, o, x, c), Side(left, c, o, p), Side(left, o, x, p), p.x - o.x, x.x - o.x, c.x - o.x);
  }

  lemma WeightsArePositive(area: real, h: real, g: real, across: real, near: real, far: real)
    requires area > 0.0 && h >= 0.0 && g >= 0.0 && near > 0.0 && far > 0.0 && area * across == h * near + g * far
    ensures across >= 0.0 && (across == 0.0 ==> h == 0.0 && g == 0.0)
  {
    SignOfTerm(h, near);
    SignOfTerm(g, far);
    SignOfProduct(across, area);
    Commuted(across, area);
  }

  lemma TipWeights(left: bool, o: Point, x: Point, c: Point, p: Point)
    ensures var (area, h, g) := (Side(left, o, x, c), Side(left, c, o, p), Side(left, o, x, p));
      area * (p.x - o.x) == h * (x.x - o.x) + g * (c.x - o.x)
  {
    var (ux, uy, vx, vy) := (x.x - o.x, x.y - o.y, c.x - o.x, c.y - o.y);
    var (sx, sy) := (p.x - o.x, p.y - o.y);
    assert Cross(o, x, c) == ux * vy - uy * vx && Cross(o, x, p) == ux * sy - uy * sx;
    assert Cross(c, o, p) == vy * sx - vx * sy;
    hide Cross;
    ByCramer(ux, uy, vx, vy, sx, sy);
    if !left {
      NegatedTerms(Cross(o, x, c), Cross(c, o, p), Cross(o, x, p), sx, ux, vx);
    }
  }

  lemma ByCramer(ux: real, uy: real, vx: real, vy: real, sx: real, sy: real)
    ensures (ux * vy - uy * vx) * sx == (vy * sx - vx * sy) * ux + (ux * sy - uy * sx) * vx
  {
  }

  lemma NegatedTerms(area: real, h: real, g: real, s: real, u: real, v: real)
    requires area * s == h * u + g * v
    ensures -area * s == -h * u + -g * v
  {
  }

  /** Of two slopes in one quadrant the less steep has the lesser share of the square of the distance. */
  lemma SlopesBySquares(x: real, y: real, p: real, q: real, d: real, e: real)
    requires x > 0.0 && y >= 0.0 && p > 0.0 && q >= 0.0
    requires d == SumOfSquares(x, y) > 0.0 && e == SumOfSquares(p, q) > 0.0
    ensures y * y / d < q * q / e <==> y * p < q * x
  {
    var (a, b) := (y * p, q * x);
    SharesBySquares(x, y, p, q);
    hide SumOfSquares;
    RatiosCompare(y * y, d, q * q, e);
    SignOfTerm(y, p);
    SignOfTerm(q, x);
    SquaresCompare(a, b);
  }

  lemma RatiosCompare(m: real, d: real, n: real, e: real)
    requires d > 0.0 && e > 0.0
    ensures m / d < n / e <==> m * e < n * d
  {
    var (s, t) := (m / d, n / e);
    assert s * d == m && t * e == n;
    SignOfProduct(t - s, d * e);
    SignOfTerm(d, e);
    assert (t - s) * (d * e) == (t * e) * d - (s * d) * e;
  }

  lemma SharesBySquares(x: real, y: real, p: real, q: real)
    ensures y * y * SumOfSquares(p, q) - q * q * SumOfSquares(x, y) == (y * p) * (y * p) - (q * x) * (q * x)
  {
  }

  lemma SquaresCompare(a: real, b: real)
    requires a >= 0.0 && b >= 0.0
    ensures a * a < b * b <==> a < b
  {
    var (sum, gap) := (a + b, b - a);
    assert b * b - a * a == gap * sum;
    if sum > 0.0 {
      SignOfProduct(gap, sum);
    }
  }

  /** In the triangle a lesser angle is what is on the ray's side of the line of sight. */
  lemma AnglesBySide(left: bool, o: Point, x: Point, c: Point, p: Point, q: Point)
    requires x.y == o.y && x.x > o.x && c.x >= x.x && Side(left, o, x, c) > 0.0
    requires InFan(left, o, x, c, p) && InFan(left, o, x, c, q) && p != o && q != o
    ensures SquaredAngle(o, q) < SquaredAngle(o, p) <==> Side(left, o, p, q) < 0.0
  {
    RightOfTip(left, o, x, c, p);
    RightOfTip(left, o, x, c, q);
    var (px, py, qx, qy) := (p.x - o.x, Rise(left, o, p), q.x - o.x, Rise(left, o, q));
    SideByRise(left, o, p, q, px, py, qx, qy);
    var d := AngleByRise(left, o, p, px, py);
    var e := AngleByRise(left, o, q, qx, qy);
    hide SquaredAngle, Side, Rise, SumOfSquares, InFan;
    SlopesBySquares(qx, qy, px, py, e, d);
  }

  function Rise(left: bool, o: Point, p: Point): real {
    if left then p.y - o.y else o.y - p.y
  }

  lemma SideByRise(left: bool, o: Point, p: Point, q: Point, px: real, py: real, qx: real, qy: real)
    requires px == p.x - o.x && py == Rise(left, o, p) && qx == q.x - o.x && qy == Rise(left, o, q)
    ensures Side(left, o, p, q) == qy * px - py * qx
  {
  }

  lemma AngleByRise(left: bool, o: Point, p: Point, px: real, py: real) returns (d: real)
    requires px == p.x - o.x > 0.0 && py == Rise(left, o, p)
    ensures d == SumOfSquares(px, py) && d > 0.0
    ensures SquaredAngle(o, p) == py * py / d
  {
    var up := p.y - o.y;
    SignsCancel(up, up);
    DistanceZero(p, o);
    d := Distance2(p, o);
    assert d == SumOfSquares(px, up) == SumOfSquares(px, py);
  }
}
