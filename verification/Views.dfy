/** What is in the way of seeing a vertex of a loop, and how the loop turns where a vertex is seen past it. */
module Views {
  import opened Geometry
  import opened EdgeSums
  import opened RingMeasures
  import opened SegmentCrossing
  import opened SimpleLoops
  import opened SegmentWinding
  import opened Nearby
  import opened EarWinding
  import opened LowestVertex
  import opened CornerCuts
  import opened EdgeJumps
  import opened CornerSectors
  import opened TwoEars

  /** Strictly between o and a. */
  ghost predicate OnWay(o: Point, a: Point, z: Point) {
    exists t: real :: 0.0 < t < 1.0 && z == Along(o, a, t)
  }

  predicate OppositeSides(a: Point, b: Point, p: Point, q: Point) {
    || (Cross(a, b, p) < 0.0 && Cross(a, b, q) > 0.0)
    || (Cross(a, b, p) > 0.0 && Cross(a, b, q) < 0.0)
  }

  /** The segments cross at a point within both, where they do not run along each other. */
  predicate CrossProperly(a: Point, b: Point, c: Point, d: Point) {
    OppositeSides(a, b, c, d) && OppositeSides(c, d, a, b)
  }

  /** The edge goes through the way from o to a, from the one side to the other. */
  ghost predicate GoesThrough(o: Point, a: Point, u: Point, v: Point) {
    OppositeSides(o, a, u, v) && exists z :: OnWay(o, a, z) && OnEdge(u, v, z)
  }

  lemma ThroughIsProper(o: Point, a: Point, u: Point, v: Point)
    ensures CrossProperly(o, a, u, v) <==> GoesThrough(o, a, u, v)
  {
    hide Along;
    if CrossProperly(o, a, u, v) {
      StraddlingMeets(o, a, u, v);
      var s: real, t: real :| MeetAt(o, a, u, v, s, t);
      hide Cross;
      EndsAlong(o, a);
      if s == 0.0 || s == 1.0 {
        OnItsOwnLine(u, v, t);
      }
      MeansOn(o, a, u, v, s, t);
      assert OnWay(o, a, Along(o, a, s));
    }
    if GoesThrough(o, a, u, v) {
      var z :| OnWay(o, a, z) && OnEdge(u, v, z);
      var t: real :| 0.0 < t < 1.0 && z == Along(o, a, t);
      SidesAlong(u, v, o, a, t);
      ExtentsAgree(o, a, u, v);
      hide Cross;
      ZeroMean(t, Cross(u, v, o), Cross(u, v, a));
    }
  }

  ghost predicate IsBlocked(ring: seq<Point>, o: Point, a: Point) {
    exists u, v :: IsEdge(ring, u, v) && GoesThrough(o, a, u, v)
  }

  ghost predicate PassesVertex(ring: seq<Point>, o: Point, a: Point) {
    exists z :: z in ring && OnWay(o, a, z)
  }

  /** An edge that is met on the way goes through, or has an end there. */
  lemma MetOnWay(ring: seq<Point>, o: Point, a: Point, u: Point, v: Point, s: real)
    requires OffRing(ring, o) && o != a && IsEdge(ring, u, v) && u != v && 0.0 < s < 1.0
    requires OnEdge(u, v, Along(o, a, s))
    ensures OppositeSides(o, a, u, v) || OnWay(o, a, u) || OnWay(o, a, v)
  {
    hide OnSegment, Along, IsEdge, Cross;
    var z := Along(o, a, s);
    var t := FractionOn(u, v, z);
    SidesAlong(o, a, u, v, t);
    OnItsOwnLine(o, a, s);
    EndsAlong(u, v);
    ZeroMean(t, Cross(o, a, u), Cross(o, a, v));
    if Cross(o, a, u) == 0.0 && Cross(o, a, v) == 0.0 {
      var x := FractionOf(o, a, u);
      var y := FractionOf(o, a, v);
      SameFraction(o, a, x, y, s, t);
      if !(0.0 < x < 1.0) && !(0.0 < y < 1.0) {
        Straddles01(x, y, s, t);
        CoversTheTip(o, a, u, v, x, y);
      }
    }
  }

  lemma CoversTheTip(o: Point, a: Point, u: Point, v: Point, x: real, y: real)
    requires u == Along(o, a, x) && v == Along(o, a, y) && ((x <= 0.0 && y >= 1.0) || (y <= 0.0 && x >= 1.0))
    ensures OnEdge(u, v, o)
  {
    hide Along, Cross, OnSegment;
    OriginAlong(o, a, x, y);
    Ratio(-x, y - x);
    PointsAreOn(u, v, -x / (y - x));
  }

  /** With nothing in the way the vertex is seen: the segment has nothing in common with the loop but its end. */
  lemma SeenIsCut(ring: seq<Point>, k: nat, o: Point)
    requires Simple(ring) && k < |ring| && OffRing(ring, o) && o != ring[k]
    requires !IsBlocked(ring, o, ring[k]) && !PassesVertex(ring, o, ring[k])
    ensures IsCut(ring, o, ring[k])
  {
    hide IsEdge, EdgesApart, OnEdge, Along, OnWay, OppositeSides;
    var a := ring[k];
    SimpleIsTame(ring);
    EndsAlong(o, a);
    forall u, v | IsEdge(ring, u, v) ensures EdgesApart(o, a, u, v) {
      forall s: real, t: real | MeetAt(o, a, u, v, s, t)
        ensures IsEnd(Along(o, a, s), o, a) && IsEnd(Along(o, a, s), u, v)
      {
        MeansOn(o, a, u, v, s, t);
        if s == 1.0 {
          VertexOnEdge(ring, k, u, v);
        } else if s > 0.0 {
          NothingMet(ring, o, a, u, v, s);
        }
      }
      ApartBy(o, a, u, v);
    }
  }

  lemma NothingMet(ring: seq<Point>, o: Point, a: Point, u: Point, v: Point, s: real)
    requires OffRing(ring, o) && o != a && IsEdge(ring, u, v) && u != v && 0.0 < s < 1.0
    requires !IsBlocked(ring, o, a) && !PassesVertex(ring, o, a)
    ensures !OnEdge(u, v, Along(o, a, s))
  {
    hide IsEdge, OnEdge, Along, OppositeSides;
    if OnEdge(u, v, Along(o, a, s)) {
      assert OnWay(o, a, Along(o, a, s));
      MetOnWay(ring, o, a, u, v, s);
      EndsAreVertices(ring, u, v);
    }
  }

  /** A vertex that is seen has no other on the way. */
  lemma CutPassesNoVertex(ring: seq<Point>, o: Point, a: Point)
    requires Simple(ring) && IsCut(ring, o, a) && o != a
    ensures !PassesVertex(ring, o, a)
  {
    hide IsEdge, EdgesApart, OnEdge, Along;
    if PassesVertex(ring, o, a) {
      var z :| z in ring && OnWay(o, a, z);
      var t: real :| 0.0 < t < 1.0 && z == Along(o, a, t);
      var k: nat :| k < |ring| && ring[k] == z;
      var n := ring[After(k, |ring|)];
      EdgesOfCorner(ring, k);
      EdgesAreProper(ring, z, n);
      EndsAlong(o, a);
      PointsAreOn(o, a, t);
      WhereAlong(o, a, t, 0.0);
      WhereAlong(o, a, t, 1.0);
      EndIsOn(n, z);
      OnEdgeBack(z, n, z);
      assert OnEdge(o, a, z) by { OnEdgeBy(o, a, z); }
      ApartShare(o, a, z, n, z);
    }
  }

  lemma OnEdgeBy(u: Point, v: Point, z: Point)
    requires Cross(u, v, z) == 0.0 && OnSegment(u, v, z)
    ensures OnEdge(u, v, z)
  {
  }

  // ----- how the loop turns at a vertex seen past it -----

  /** The next vertex is not back on the way: it is beyond, or off the line. */
  lemma BeyondOnly(o: Point, v: Point, c: Point) returns (k: real)
    requires o != v && v != c && Cross(o, v, c) == 0.0 && EdgesApart(o, v, v, c) && !OnEdge(v, c, o)
    ensures k > 0.0 && c == Along(o, v, 1.0 + k)
  {
    hide OnSegment, Along, Cross;
    var t := FractionOf(o, v, c);
    EndsAlong(o, v);
    WhereAlong(o, v, t, 1.0);
    if t < 1.0 {
      if t <= 0.0 {
        PointsAreOn(o, v, 1.0);
        CoversTheTip(o, v, v, c, 1.0, t);
      } else {
        PointsAreOn(o, v, t);
        EndIsOn(v, c);
        WhereAlong(o, v, t, 0.0);
        ApartShare(o, v, v, c, c);
      }
    }
    k := t - 1.0;
  }

  lemma TurnBeyond(a: Point, o: Point, v: Point, k: real)
    ensures Cross(a, v, Along(o, v, 1.0 + k)) == k * Cross(o, v, a)
  {
    var (dx, dy, ax, ay) := (v.x - o.x, v.y - o.y, a.x - v.x, a.y - v.y);
    assert Cross(o, v, a) == dx * ay - dy * ax;
    var c := Along(o, v, 1.0 + k);
    assert c.x - v.x == k * dx && c.y - v.y == k * dy;
    assert Cross(a, v, c) == (-ax) * (k * dy) - (-ay) * (k * dx) by {
      ByTip(ax, ay, c.x - v.x, c.y - v.y, a, v, c);
    }
  }

  lemma ByTip(ax: real, ay: real, cx: real, cy: real, a: Point, v: Point, c: Point)
    requires ax == a.x - v.x && ay == a.y - v.y && cx == c.x - v.x && cy == c.y - v.y
    ensures Cross(a, v, c) == (-ax) * cy - (-ay) * cx
  {
  }

  /** Seen from inside past both its edges on the right, a vertex does not turn left. */
  lemma TurnsBackOnRight(ring: seq<Point>, k: nat, o: Point)
    requires Simple(ring) && OnceAtMost(ring) && k < |ring| && OffRing(ring, o) && o !in ring && Winding(ring, o) == 1
    requires IsCut(ring, o, ring[k])
    requires Cross(o, ring[k], ring[Before(k, |ring|)]) <= 0.0 && Cross(o, ring[k], ring[After(k, |ring|)]) <= 0.0
    ensures Cross(ring[Before(k, |ring|)], ring[k], ring[After(k, |ring|)]) <= 0.0
  {
    hide IsEdge, EdgesApart, Winding, Simple, OnEdge;
    var (a, v, c) := (ring[Before(k, |ring|)], ring[k], ring[After(k, |ring|)]);
    if Cross(a, v, c) > 0.0 {
      EdgesOfCorner(ring, k);
      Proper(a, v, c);
      ApartBack(ring, o, v);
      CornerSides(o, v, c);
      if Cross(o, v, c) == 0.0 {
        var m := BeyondOnly(o, v, c);
        TurnBeyond(a, o, v, m);
        SignOfTerm(m, Cross(o, v, a));
      }
      CrossTurned(v, a, c);
      CornerSides(a, v, c);
      var q := BesideEdge(ring, k, o);
    }
  }

  lemma ApartBack(ring: seq<Point>, o: Point, v: Point)
    requires Simple(ring) && IsCut(ring, o, v)
    ensures ApartFrom(ring, v, o)
  {
    hide IsEdge, EdgesApart;
    forall p, q | IsEdge(ring, p, q) ensures p != q && EdgesApart(v, o, p, q) {
      EdgesAreProper(ring, p, q);
      ApartTurned(o, v, p, q);
    }
  }

  /** And the same on the left. */
  lemma TurnsBackOnLeft(ring: seq<Point>, k: nat, o: Point)
    requires Simple(ring) && OnceAtMost(ring) && k < |ring| && OffRing(ring, o) && o !in ring && Winding(ring, o) == 1
    requires IsCut(ring, o, ring[k])
    requires Cross(o, ring[k], ring[Before(k, |ring|)]) >= 0.0 && Cross(o, ring[k], ring[After(k, |ring|)]) >= 0.0
    ensures Cross(ring[Before(k, |ring|)], ring[k], ring[After(k, |ring|)]) <= 0.0
  {
    hide IsEdge, EdgesApart, Winding, Simple, OnEdge;
    var (n, back) := (|ring|, Reversed(ring));
    var (a, v, c) := (ring[Before(k, n)], ring[k], ring[After(k, n)]);
    if Cross(a, v, c) > 0.0 {
      var j := n - 1 - k;
      assert back[j] == v && back[Before(j, n)] == c && back[After(j, n)] == a;
      EdgesOfCorner(ring, k);
      Proper(a, v, c);
      SimpleReversed(ring);
      CutOfReversed(ring, o, v);
      ApartBack(back, o, v);
      CornerSides(o, v, a);
      if Cross(o, v, a) == 0.0 {
        EdgesOfCorner(back, j);
        OnEdgeBack(a, v, o);
        var m := BeyondOnly(o, v, a);
        TurnBeyond(c, o, v, m);
        CrossBack(a, v, c);
        SignOfTerm(m, Cross(o, v, c));
      }
      CornerSides(a, v, c);
      CrossTurned(v, a, c);
      SameVertices(ring, 0, o);
      var q := BesideEdge(back, j, o);
      WindingReversed(ring, q);
      WindingReversed(ring, o);
    }
  }

  lemma CutOfReversed(ring: seq<Point>, o: Point, v: Point)
    requires IsCut(ring, o, v)
    ensures IsCut(Reversed(ring), o, v)
  {
    hide EdgesApart, IsEdge;
    forall p, q | IsEdge(Reversed(ring), p, q) ensures EdgesApart(o, v, p, q) {
      EdgesReversed(ring, p, q);
      ApartTurned(o, v, q, p);
    }
  }
}
