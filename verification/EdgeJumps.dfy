/** The winding number beside an edge: the same all along it, and one more on its left than on its right. */
module EdgeJumps {
  import opened Geometry
  import opened EdgeSums
  import opened RingMeasures
  import opened SegmentCrossing
  import opened SimpleLoops
  import opened SegmentWinding
  import opened Nearby
  import opened EarWinding
  import opened LowestVertex

  // ----- along an edge that keeps apart -----

  ghost predicate ApartFrom(ring: seq<Point>, p: Point, q: Point) {
    forall u, v :: IsEdge(ring, u, v) ==> u != v && EdgesApart(p, q, u, v)
  }

  /** A point of the segment that is no vertex of the ring is off the ring. */
  lemma ApartIsOff(ring: seq<Point>, p: Point, q: Point, t: real)
    requires p != q && ApartFrom(ring, p, q) && IsFraction(t)
    requires (p in ring ==> t > 0.0) && (q in ring ==> t < 1.0)
    ensures OffRing(ring, Along(p, q, t))
  {
    hide IsEdge, EdgesApart, OnEdge, Along;
    var x := Along(p, q, t);
    PointsAreOn(p, q, t);
    EndsAlong(p, q);
    WhereAlong(p, q, t, 0.0);
    WhereAlong(p, q, t, 1.0);
    forall u, v | IsEdge(ring, u, v) ensures !OnEdge(u, v, x) {
      EndsAreVertices(ring, u, v);
      if OnEdge(u, v, x) {
        ApartShare(p, q, u, v, x);
      }
    }
  }

  lemma BetweenFractions(p: Point, q: Point, s: real, t: real, r: real)
    requires IsFraction(s) && IsFraction(t) && IsFraction(r)
    ensures Along(Along(p, q, s), Along(p, q, t), r) == Along(p, q, Mean(s, t, r)) && IsFraction(Mean(s, t, r))
    ensures s > 0.0 && t > 0.0 ==> Mean(s, t, r) > 0.0
    ensures s < 1.0 && t < 1.0 ==> Mean(s, t, r) < 1.0
  {
    MixOf(p.x, q.x - p.x, s, t, r);
    MixOf(p.y, q.y - p.y, s, t, r);
    MeanIsBetween(s, t, r);
  }

  lemma MeanIsBetween(s: real, t: real, r: real)
    requires IsFraction(r)
    ensures Min(s, t) <= Mean(s, t, r) <= Max(s, t)
  {
    if s <= t {
      MeanBetween(s, t, r);
    } else {
      MeanBetween(t, s, 1.0 - r);
      assert Mean(t, s, 1.0 - r) == Mean(s, t, r);
    }
  }

  lemma MixOf(p: real, d: real, s: real, t: real, r: real)
    ensures (p + s * d) + r * ((p + t * d) - (p + s * d)) == p + ((1.0 - r) * s + r * t) * d
  {
  }

  /** All along a segment that keeps apart from the ring's edges, but for ends that are vertices of the ring. */
  lemma WindingOnEdge(ring: seq<Point>, p: Point, q: Point, s: real, t: real)
    requires p != q && ApartFrom(ring, p, q) && IsFraction(s) && IsFraction(t)
    requires (p in ring ==> s > 0.0 && t > 0.0) && (q in ring ==> s < 1.0 && t < 1.0)
    ensures Winding(ring, Along(p, q, s)) == Winding(ring, Along(p, q, t))
  {
    hide Winding, IsEdge, EdgesApart, OnEdge, Along, Mean, OffRing, ApartFrom;
    var (x, y) := (Along(p, q, s), Along(p, q, t));
    forall r: real | IsFraction(r) ensures OffRing(ring, Along(x, y, r)) {
      BetweenFractions(p, q, s, t, r);
      ApartIsOff(ring, p, q, Mean(s, t, r));
    }
    MissesWhenOff(x, y, ring);
    WindingAlong(ring, x, y);
  }

  lemma StepOutside(ring: seq<Point>, p: Point, q: Point)
    requires p !in ring && q !in ring && p != q && ApartFrom(ring, p, q)
    ensures Winding(ring, p) == Winding(ring, q)
  {
    hide Winding, Along, ApartFrom;
    EndsAlong(p, q);
    WindingOnEdge(ring, p, q, 0.0, 1.0);
  }

  /** The way from a vertex outside, along an edge to a vertex of the ring, up to a point close to it. */
  lemma StepUpTo(ring: seq<Point>, b: Point, d: Point, t: real)
    requires b != d && d !in ring && 0.0 < t <= 1.0 && ApartFrom(ring, b, d)
    ensures Winding(ring, d) == Winding(ring, Along(b, d, t))
  {
    hide Winding, Along, ApartFrom;
    EndsAlong(b, d);
    WindingOnEdge(ring, b, d, 1.0, t);
  }

  // ----- across an edge -----

  /** Points on either side of the edge from u to v. */
  function RightSide(u: Point, v: Point): Point {
    Point(u.x + (v.y - u.y), u.y - (v.x - u.x))
  }

  function LeftSide(u: Point, v: Point): Point {
    Point(u.x - (v.y - u.y), u.y + (v.x - u.x))
  }

  lemma SidesAreBeside(u: Point, v: Point)
    requires u != v
    ensures Cross(u, v, RightSide(u, v)) < 0.0 < Cross(u, v, LeftSide(u, v))
  {
    hide Cross, RightSide, LeftSide;
    var (dx, dy) := (v.x - u.x, v.y - u.y);
    assert dx != 0.0 || dy != 0.0;
    var size := SquareSum(dx, dy);
    SidesByOffset(u, v, dx, dy, size);
  }

  lemma SquareSum(x: real, y: real) returns (size: real)
    requires x != 0.0 || y != 0.0
    ensures size == x * x + y * y && size > 0.0
  {
    var first := SquareOf(x);
    var second := SquareOf(y);
    size := first + second;
  }

  lemma SquareOf(x: real) returns (square: real)
    ensures square == x * x && square >= 0.0 && (x != 0.0 ==> square > 0.0)
  {
    SignOfProduct(x, x);
    square := x * x;
    if x != 0.0 && square == 0.0 {
      NoZeroFactor(x, x);
    }
  }

  lemma SidesByOffset(u: Point, v: Point, dx: real, dy: real, size: real)
    requires dx == v.x - u.x && dy == v.y - u.y && size == dx * dx + dy * dy
    ensures Cross(u, v, RightSide(u, v)) == -size && Cross(u, v, LeftSide(u, v)) == size
  {
  }

  lemma EdgesInserted(ring: seq<Point>, k: nat, z: Point, p: Point, q: Point)
    requires k < |ring| && Distinct(ring) && IsEdge(ring[..k + 1] + [z] + ring[k + 1..], p, q)
    ensures var (u, v) := (ring[k], ring[After(k, |ring|)]);
      (p == u && q == z) || (p == z && q == v) || (IsEdge(ring, p, q) && (p, q) != (u, v))
  {
    var wide := ring[..k + 1] + [z] + ring[k + 1..];
    var i: nat :| EdgeAt(wide, i, p, q);
    if i != k && i != k + 1 {
      var j := if i < k then i else i - 1;
      assert EdgeAt(ring, j, p, q);
    }
  }

  /** The corner z put on the right of the edge at k adds the triangle over it. */
  lemma WindingInserted(ring: seq<Point>, k: nat, z: Point, p: Point)
    requires k < |ring| && |ring| > 2
    ensures Winding(ring[..k + 1] + [z] + ring[k + 1..], p) as real
         == Winding(ring, p) as real + TriangleSum(WindingTerm(p), ring[k], z, ring[After(k, |ring|)])
  {
    var wide := ring[..k + 1] + [z] + ring[k + 1..];
    assert Without(wide, k + 1) == ring;
    WindingWithout(wide, k + 1, p);
  }

  /**
   From a point m within an edge of a simple loop, towards any point z on its right and any point w on its left:
   close enough to m the loop winds once more on the left, and edges that m is not on are not met on the way.
   */
  lemma JumpAt(ring: seq<Point>, k: nat, m: Point, z: Point, w: Point, others: seq<(Point, Point)>)
      returns (r: real, l: real)
    requires k < |ring| && Simple(ring)
    requires var (u, v) := (ring[k], ring[After(k, |ring|)]);
      && Cross(u, v, z) < 0.0 < Cross(u, v, w) && exists s: real :: 0.0 < s < 1.0 && m == Along(u, v, s)
    requires forall e :: e in others ==> !OnEdge(e.0, e.1, m)
    ensures 0.0 < r < 1.0 && 0.0 < l <= 1.0
    ensures Winding(ring, Along(m, w, l)) == Winding(ring, Along(m, z, r)) + 1
    ensures forall e :: e in others ==>
              !SegmentsMeet(m, Along(m, z, r), e.0, e.1) && !SegmentsMeet(m, Along(m, w, l), e.0, e.1)
  {
    hide Winding, IsEdge, EdgesApart, OnEdge, Along, SegmentsMeet, Cross, WindingTerm, TriangleSum;
    var (u, v) := (ring[k], ring[After(k, |ring|)]);
    var s: real :| 0.0 < s < 1.0 && m == Along(u, v, s);
    EdgesOfCorner(ring, k);
    EdgesAreProper(ring, u, v);
    SidesOfWithin(u, z, v, s);
    var wide := ring[..k + 1] + [z] + ring[k + 1..];
    var edges := EdgesOf(wide) + others;
    WithinIsOff(ring, k, z, s);
    forall e | e in edges ensures !OnEdge(e.0, e.1, m) {
      assert e in EdgesOf(wide) ==> IsEdge(wide, e.0, e.1);
    }
    var near := Along(m, z, 0.5);
    var half := LeavesEdges(edges, m, near);
    l := LeavesEdges(edges, m, w);
    r := half * 0.5;
    PartWay(m, z, 0.5, half);
    var (right, left) := (Along(m, z, r), Along(m, w, l));
    forall p, q | IsEdge(wide, p, q) ensures !SegmentsMeet(m, right, p, q) && !SegmentsMeet(m, left, p, q) {
      assert (p, q) in edges;
    }
    WindingAlong(wide, m, right);
    WindingAlong(wide, m, left);
    WindingInserted(ring, k, z, right);
    WindingInserted(ring, k, z, left);
    RightIsInside(u, z, v, s, r);
    LeftIsOutside(u, z, v, s, w, l);
  }

  lemma SidesOfWithin(u: Point, z: Point, v: Point, s: real)
    requires Cross(u, v, z) < 0.0 && 0.0 < s < 1.0
    ensures var m := Along(u, v, s);
      Cross(u, z, v) > 0.0 && Cross(u, z, m) > 0.0 && Cross(z, v, m) > 0.0 && Cross(v, u, m) == 0.0
  {
    CornerSides(u, z, v);
    CornerSides(u, v, z);
    SideStarts(u, z, v, s);
  }

  lemma WithinIsOff(ring: seq<Point>, k: nat, z: Point, s: real)
    requires k < |ring| && Simple(ring) && 0.0 < s < 1.0
    requires var (u, v) := (ring[k], ring[After(k, |ring|)]);
      u != v && Cross(u, z, Along(u, v, s)) > 0.0 && Cross(z, v, Along(u, v, s)) > 0.0
    ensures OffRing(ring[..k + 1] + [z] + ring[k + 1..], Along(ring[k], ring[After(k, |ring|)], s))
  {
    hide IsEdge, EdgesApart, OnSegment, Along, Cross;
    var (u, v) := (ring[k], ring[After(k, |ring|)]);
    var (m, wide) := (Along(u, v, s), ring[..k + 1] + [z] + ring[k + 1..]);
    EdgesOfCorner(ring, k);
    PointsAreOn(u, v, s);
    EndsAlong(u, v);
    WhereAlong(u, v, s, 0.0);
    WhereAlong(u, v, s, 1.0);
    forall p, q | IsEdge(wide, p, q) ensures !OnEdge(p, q, m) {
      EdgesInserted(ring, k, z, p, q);
      if IsEdge(ring, p, q) && (p, q) != (u, v) {
        EdgesAreProper(ring, p, q);
        if OnEdge(p, q, m) {
          ApartShare(u, v, p, q, m);
        }
      }
    }
  }

  lemma RightIsInside(u: Point, z: Point, v: Point, s: real, r: real)
    requires Cross(u, v, z) < 0.0 && 0.0 < s < 1.0 && 0.0 < r < 1.0
    ensures TriangleSum(WindingTerm(Along(Along(u, v, s), z, r)), u, z, v) == 1.0
  {
    hide Cross, Along, Mean, TriangleSum, WindingTerm;
    var m := Along(u, v, s);
    var x := Along(m, z, r);
    SidesOfWithin(u, z, v, s);
    SidesAlong(u, z, m, z, r);
    SidesAlong(z, v, m, z, r);
    SidesAlong(v, u, m, z, r);
    CornerSides(u, z, v);
    CornerSides(z, v, u);
    PartsArePositive(Cross(u, z, m), r);
    PartsArePositive(Cross(z, v, m), r);
    PartsArePositive(Cross(u, z, v), r);
    WindingInside(x, u, z, v);
  }

  lemma LeftIsOutside(u: Point, z: Point, v: Point, s: real, w: Point, l: real)
    requires Cross(u, v, z) < 0.0 < Cross(u, v, w) && 0.0 < l <= 1.0
    ensures TriangleSum(WindingTerm(Along(Along(u, v, s), w, l)), u, z, v) == 0.0
  {
    hide Cross, Along, Mean, TriangleSum, WindingTerm;
    var m := Along(u, v, s);
    var x := Along(m, w, l);
    OnItsOwnLine(u, v, s);
    SidesAlong(u, v, m, w, l);
    ToAndFromZero(Cross(u, v, w), l);
    SignOfProduct(l, Cross(u, v, w));
    Opposite(u, v, x);
    CornerSides(u, z, v);
    CornerSides(u, v, z);
    WindingInside(x, u, z, v);
    WindingOfTriangle(x, u, z, v);
  }

  /** Right and left of its middle, and as close as one likes, a simple loop winds n and n + 1 times. */
  lemma JumpAcross(ring: seq<Point>, k: nat, others: seq<(Point, Point)>) returns (right: Point, left: Point)
    requires k < |ring| && Simple(ring)
    requires forall e :: e in others ==> !OnEdge(e.0, e.1, Along(ring[k], ring[After(k, |ring|)], 0.5))
    ensures Winding(ring, left) == Winding(ring, right) + 1
    ensures var m := Along(ring[k], ring[After(k, |ring|)], 0.5);
      forall e :: e in others ==> !SegmentsMeet(m, right, e.0, e.1) && !SegmentsMeet(m, left, e.0, e.1)
  {
    hide Winding, IsEdge, EdgesApart, OnEdge, Along, SegmentsMeet, Cross, RightSide, LeftSide;
    var (u, v) := (ring[k], ring[After(k, |ring|)]);
    var m := Along(u, v, 0.5);
    EdgesOfCorner(ring, k);
    EdgesAreProper(ring, u, v);
    SidesAreBeside(u, v);
    var r, l := JumpAt(ring, k, m, RightSide(u, v), LeftSide(u, v), others);
    right, left := Along(m, RightSide(u, v), r), Along(m, LeftSide(u, v), l);
  }

  // ----- vertices of one ring outside another -----

  /** Both sides of an edge of d are as far as a winds like the vertex the edge starts from, if that is not on a. */
  lemma BothSides(a: seq<Point>, d: seq<Point>, k: nat) returns (right: Point, left: Point)
    requires k < |d| && Simple(d) && d[k] !in a && ApartFrom(a, d[k], d[After(k, |d|)])
    ensures Winding(a, right) == Winding(a, left) == Winding(a, d[k])
    ensures Winding(d, left) == Winding(d, right) + 1
  {
    hide Winding, IsEdge, EdgesApart, OnEdge, Along, SegmentsMeet;
    var (x, y) := (d[k], d[After(k, |d|)]);
    var m := Along(x, y, 0.5);
    EdgesOfCorner(d, k);
    EdgesAreProper(d, x, y);
    EndsAlong(x, y);
    WindingOnEdge(a, x, y, 0.0, 0.5);
    ApartIsOff(a, x, y, 0.5);
    var edges := EdgesOf(a);
    forall e | e in edges ensures !OnEdge(e.0, e.1, m) {
      assert IsEdge(a, e.0, e.1);
    }
    right, left := JumpAcross(d, k, edges);
    forall u, v | IsEdge(a, u, v) ensures !SegmentsMeet(m, right, u, v) && !SegmentsMeet(m, left, u, v) {
      assert (u, v) in edges;
    }
    WindingAlong(a, m, right);
    WindingAlong(a, m, left);
  }
}
