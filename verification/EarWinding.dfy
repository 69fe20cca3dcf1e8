/** A loop that does not touch itself winds nowhere otherwise than what a clipped ear leaves of it. */
module EarWinding {
  import opened Geometry
  import opened EdgeSums
  import opened RingMeasures
  import opened SegmentCrossing
  import opened SimpleLoops
  import opened SegmentWinding
  import opened Nearby

  // ----- the inside of a corner -----

  lemma FractionOn(u: Point, v: Point, x: Point) returns (t: real)
    requires u != v && OnEdge(u, v, x)
    ensures IsFraction(t) && x == Along(u, v, t)
  {
    t := FractionOf(u, v, x);
    hide Cross, OnSegment;
    BoxIsBetween(u, v, t);
  }

  lemma ShrunkSides(a: Point, b: Point, c: Point, x: Point, r: real)
    ensures var (d, e) := (Along(b, a, r), Along(b, c, r));
      && Cross(d, b, x) == r * Cross(a, b, x) && Cross(b, e, x) == r * Cross(b, c, x)
      && Cross(e, d, x) == r * (Cross(c, a, x) - (1.0 - r) * Cross(a, b, c))
  {
    ShrunkSide(a, b, c, x, r);
    SideThroughTip(a, b, x, r);
    SideThroughTip(c, b, x, r);
    CrossSwaps(c, b, x);
    CrossSwaps(Along(b, c, r), b, x);
    hide Cross, Along;
    assert r * -Cross(c, b, x) == -(r * Cross(c, b, x));
  }

  lemma SideThroughTip(a: Point, b: Point, x: Point, r: real)
    ensures Cross(Along(b, a, r), b, x) == r * Cross(a, b, x)
  {
    var (ux, uy, px, py) := (a.x - b.x, a.y - b.y, x.x - b.x, x.y - b.y);
    assert Cross(a, b, x) == uy * px - ux * py;
    var d := Along(b, a, r);
    assert d.x == b.x + r * ux && d.y == b.y + r * uy;
    ThroughTip(r * ux, r * uy, px, py);
    Factored(r, ux, uy, px, py);
  }

  lemma ThroughTip(dx: real, dy: real, px: real, py: real)
    ensures (0.0 - dx) * (py - dy) - (0.0 - dy) * (px - dx) == dy * px - dx * py
  {
  }

  lemma Factored(r: real, ux: real, uy: real, px: real, py: real)
    ensures (r * uy) * px - (r * ux) * py == r * (uy * px - ux * py)
  {
  }

  lemma ShrunkSide(a: Point, b: Point, c: Point, x: Point, r: real)
    ensures Cross(Along(b, c, r), Along(b, a, r), x) == r * (Cross(c, a, x) - (1.0 - r) * Cross(a, b, c))
  {
    hide Cross, Along;
    var (m, k) := ShrunkBefore(a, b, c, x);
    ShrunkAfter(a, b, c, x, r);
    Assembled(r, m, k, Cross(a, b, c), Cross(c, a, x), Cross(Along(b, c, r), Along(b, a, r), x));
  }

  /** The sides of x and of the tip against the line from c to a, seen from the tip. */
  function ShrunkBefore(a: Point, b: Point, c: Point, x: Point): (r: (real, real))
    ensures Cross(c, a, x) == r.0 - r.1 && Cross(a, b, c) == -r.1
  {
    var (ax, ay, cx, cy, px, py) := (a.x - b.x, a.y - b.y, c.x - b.x, c.y - b.y, x.x - b.x, x.y - b.y);
    var (dx, dy) := (ax - cx, ay - cy);
    CrossByOffsets(c, a, x, dx, dy, px - cx, py - cy);
    CrossByOffsets(a, b, c, -ax, -ay, cx - ax, cy - ay);
    OutOfTheTip(ax, ay, cx, cy);
    ShrunkProduct(dx, dy, cx, cy, px, py, 1.0);
    (dx * py - dy * px, dx * cy - dy * cx)
  }

  lemma ShrunkAfter(a: Point, b: Point, c: Point, x: Point, r: real)
    ensures var (m, k) := ShrunkBefore(a, b, c, x);
      Cross(Along(b, c, r), Along(b, a, r), x) == r * (m - r * k)
  {
    hide Cross, Along;
    var (ax, ay, cx, cy, px, py) := (a.x - b.x, a.y - b.y, c.x - b.x, c.y - b.y, x.x - b.x, x.y - b.y);
    var (dx, dy) := (ax - cx, ay - cy);
    ShrunkOffsets(a, b, c, r);
    CrossByOffsets(Along(b, c, r), Along(b, a, r), x, r * dx, r * dy, px - r * cx, py - r * cy);
    ShrunkProduct(dx, dy, cx, cy, px, py, r);
  }

  lemma Assembled(r: real, m: real, k: real, area: real, far: real, near: real)
    requires far == m - k && area == -k && near == r * (m - r * k)
    ensures near == r * (far - (1.0 - r) * area)
  {
    assert (1.0 - r) * area == r * k - k;
    assert far - (1.0 - r) * area == m - r * k;
  }

  lemma ShrunkOffsets(a: Point, b: Point, c: Point, r: real)
    ensures var (e, d) := (Along(b, c, r), Along(b, a, r));
      && e.x == b.x + r * (c.x - b.x) && e.y == b.y + r * (c.y - b.y)
      && d.x - e.x == r * ((a.x - b.x) - (c.x - b.x)) && d.y - e.y == r * ((a.y - b.y) - (c.y - b.y))
  {
  }

  lemma CrossByOffsets(a: Point, b: Point, c: Point, ux: real, uy: real, px: real, py: real)
    requires b.x - a.x == ux && b.y - a.y == uy && c.x - a.x == px && c.y - a.y == py
    ensures Cross(a, b, c) == ux * py - uy * px
  {
  }

  lemma OutOfTheTip(ax: real, ay: real, cx: real, cy: real)
    ensures -ax * (cy - ay) - -ay * (cx - ax) == -((ax - cx) * cy - (ay - cy) * cx)
  {
  }

  lemma ShrunkProduct(dx: real, dy: real, cx: real, cy: real, px: real, py: real, r: real)
    ensures var (m, k) := (dx * py - dy * px, dx * cy - dy * cx);
      && r * dx * (py - r * cy) - r * dy * (px - r * cx) == r * (m - r * k)
      && dx * (py - cy) - dy * (px - cx) == m - k
  {
  }

  /** A part of a side touches an edge only where the whole side does. */
  lemma PartIsApart(u: Point, v: Point, a: Point, b: Point, r: real)
    requires a != b && 0.0 < r < 1.0 && EdgesApart(u, v, a, b)
    ensures EdgesApart(u, v, Along(b, a, r), b) && EdgesApart(u, v, b, Along(b, a, r))
  {
    hide Along, IsFraction, IsEnd;
    var d := Along(b, a, r);
    forall s: real, t: real | MeetAt(u, v, b, d, s, t)
      ensures IsEnd(Along(u, v, s), u, v) && IsEnd(Along(u, v, s), b, d)
    {
      PartWay(b, a, r, t);
      NotTheFarEnd(r, t);
      Backwards(a, b, 1.0 - t * r);
      assert MeetAt(u, v, a, b, s, 1.0 - t * r);
      EndsAlong(b, a);
      WhereAlong(b, a, t * r, 1.0);
      OneEnd(Along(u, v, s), a, b, d);
    }
    ApartTurned(u, v, b, d);
  }

  lemma OneEnd(x: Point, a: Point, b: Point, d: Point)
    requires IsEnd(x, a, b) && x != a
    ensures IsEnd(x, b, d)
  {
  }

  lemma NotTheFarEnd(r: real, t: real)
    requires 0.0 < r < 1.0 && IsFraction(t)
    ensures IsFraction(1.0 - t * r) && t * r != 1.0
  {
    PartIsFraction(r, t);
  }

  /** The corner's triangle, from its tip down to the level of x. */
  predicate InTip(a: Point, b: Point, c: Point, level: real, p: Point) {
    InsideTriangle(a, b, c, p) && Cross(c, a, p) >= level
  }

  /** An edge that keeps apart from both sides of a corner and does not end in its tip does not enter the tip. */
  lemma TipIsClear(a: Point, b: Point, c: Point, u: Point, v: Point, x: Point)
    requires Cross(a, b, x) > 0.0 && Cross(b, c, x) > 0.0 && Cross(c, a, x) > 0.0
    requires u != v && EdgesApart(u, v, a, b) && EdgesApart(u, v, b, c)
    requires !InTip(a, b, c, Cross(c, a, x), u) && !InTip(a, b, c, Cross(c, a, x), v)
    ensures !OnEdge(u, v, x)
  {
    hide Cross, InTip, OnEdge, Along, EdgesApart;
    HeightsBalance(x, a, b, c);
    if OnEdge(u, v, x) {
      var t := FractionOn(u, v, x);
      var r := TipRatio(a, b, c, x);
      var (d, e) := (Along(b, a, r), Along(b, c, r));
      Proper(a, b, c);
      PartIsApart(u, v, a, b, r);
      ApartTurned(u, v, b, c);
      PartIsApart(u, v, c, b, r);
      TipTriangle(a, b, c, x, r);
      var s := AcrossTheTip(d, b, e, x);
      TipIsOutside(a, b, c, x, r, u);
      TipIsOutside(a, b, c, x, r, v);
      MeetsInside(d, b, e, u, v, s, t);
    }
  }

  lemma TipRatio(a: Point, b: Point, c: Point, x: Point) returns (r: real)
    requires Cross(a, b, x) > 0.0 && Cross(b, c, x) > 0.0 && Cross(c, a, x) > 0.0
    ensures Cross(a, b, c) > 0.0 && 0.0 < r < 1.0 && (1.0 - r) * Cross(a, b, c) == Cross(c, a, x)
  {
    HeightsBalance(x, a, b, c);
    hide Cross;
    var (area, level) := (Cross(a, b, c), Cross(c, a, x));
    var q := level / area;
    r := 1.0 - q;
    assert q * area == level;
    SignOfProduct(q, area);
    SignOfProduct(1.0 - q, area);
    assert (1.0 - q) * area == area - level;
  }

  lemma TipTriangle(a: Point, b: Point, c: Point, x: Point, r: real)
    requires Cross(a, b, x) > 0.0 && Cross(b, c, x) > 0.0
    requires 0.0 < r < 1.0 && (1.0 - r) * Cross(a, b, c) == Cross(c, a, x) && Cross(a, b, c) > 0.0
    ensures var (d, e) := (Along(b, a, r), Along(b, c, r));
      Cross(d, b, x) > 0.0 && Cross(b, e, x) > 0.0 && Cross(e, d, x) == 0.0
  {
    ShrunkSides(a, b, c, x, r);
    hide Cross, Along;
    SignOfProduct(Cross(a, b, x), r);
    SignOfProduct(Cross(b, c, x), r);
  }

  lemma AcrossTheTip(d: Point, b: Point, e: Point, x: Point) returns (s: real)
    requires Cross(d, b, x) > 0.0 && Cross(b, e, x) > 0.0 && Cross(e, d, x) == 0.0
    ensures Cross(d, b, e) > 0.0 && 0.0 < s < 1.0 && x == Along(d, e, s)
  {
    hide Cross, Mean, Along;
    HeightsBalance(x, d, b, e);
    var area := Cross(d, b, e);
    assert area == Cross(d, b, x) + Cross(b, e, x) > 0.0;
    Proper(d, b, e);
    Opposite(d, e, x);
    s := FractionOf(d, e, x);
    SidesAlong(d, b, d, e, s);
    SidesAlong(b, e, d, e, s);
    CornerSides(d, b, e);
    CornerSides(b, e, d);
    ToAndFromZero(area, s);
    assert Cross(d, b, x) == s * area;
    assert Cross(b, e, x) == (1.0 - s) * area;
    SignOfProduct(s, area);
    SignOfProduct(1.0 - s, area);
  }

  lemma TipIsOutside(a: Point, b: Point, c: Point, x: Point, r: real, u: Point)
    requires Cross(a, b, c) > 0.0 && 0.0 < r < 1.0 && (1.0 - r) * Cross(a, b, c) == Cross(c, a, x) > 0.0
    requires var (d, e) := (Along(b, a, r), Along(b, c, r)); Cross(d, b, e) > 0.0
    requires !InTip(a, b, c, Cross(c, a, x), u)
    ensures var (d, e) := (Along(b, a, r), Along(b, c, r));
      IsClearOf(d, b, e, u) && u != d && u != e
  {
    hide Cross, Along, InTip;
    var (d, e) := (Along(b, a, r), Along(b, c, r));
    CornersAreInside(d, b, e);
    if InsideTriangle(d, b, e, u) {
      InsideTheShrunk(a, b, c, x, r, u);
    }
  }

  lemma InsideTheShrunk(a: Point, b: Point, c: Point, x: Point, r: real, u: Point)
    requires 0.0 < r < 1.0 && (1.0 - r) * Cross(a, b, c) == Cross(c, a, x) > 0.0
    requires var (d, e) := (Along(b, a, r), Along(b, c, r)); Cross(d, b, e) > 0.0 && InsideTriangle(d, b, e, u)
    ensures InTip(a, b, c, Cross(c, a, x), u)
  {
    var (d, e) := (Along(b, a, r), Along(b, c, r));
    ShrunkSides(a, b, c, u, r);
    HeightsBalance(u, d, b, e);
    hide Cross, Along;
    NotNegativeFactor(r, Cross(a, b, u));
    NotNegativeFactor(r, Cross(b, c, u));
    NotNegativeFactor(r, Cross(c, a, u) - (1.0 - r) * Cross(a, b, c));
  }

  lemma NotNegativeFactor(r: real, x: real)
    requires r > 0.0 && r * x >= 0.0
    ensures x >= 0.0
  {
    SignOfProduct(x, r);
  }

  lemma CornersAreInside(a: Point, b: Point, c: Point)
    requires Cross(a, b, c) > 0.0
    ensures InsideTriangle(a, b, c, a) && InsideTriangle(a, b, c, b) && InsideTriangle(a, b, c, c)
  {
  }

  // ----- the inside of an ear -----

  ghost predicate MetOnce(ring: seq<Point>, k: nat)
    requires k < |ring|
  {
    forall i :: 0 <= i < |ring| && i != k ==> ring[i] != ring[k]
  }

  lemma EdgesAtCorner(ring: seq<Point>, k: nat, u: Point, v: Point)
    requires k < |ring| && MetOnce(ring, k) && IsEdge(ring, u, v)
    ensures u == ring[k] ==> v == ring[After(k, |ring|)]
    ensures v == ring[k] ==> u == ring[Before(k, |ring|)]
  {
    var i: nat :| EdgeAt(ring, i, u, v);
    if v == ring[k] {
      assert After(i, |ring|) == k;
    }
  }

  lemma EdgesAreProper(ring: seq<Point>, u: Point, v: Point)
    requires |ring| > 1 && Distinct(ring) && IsEdge(ring, u, v)
    ensures u != v
  {
  }

  /** No edge enters an ear, not even to touch the cut. */
  lemma EarIsClear(ring: seq<Point>, k: nat, x: Point)
    requires k < |ring| && |ring| > 3 && Simple(ring) && IsEarOf(ring, k)
    requires var (a, b, c) := (ring[Before(k, |ring|)], ring[k], ring[After(k, |ring|)]);
      Cross(a, b, x) > 0.0 && Cross(b, c, x) > 0.0 && Cross(c, a, x) >= 0.0
    ensures OffRing(ring, x)
  {
    var (a, b, c) := (ring[Before(k, |ring|)], ring[k], ring[After(k, |ring|)]);
    hide EdgesApart, IsEdge, IsClearOf, Cross, OnSegment;
    EdgesOfCorner(ring, k);
    NoEdgeBack(ring, k);
    NoEdgeAcross(ring, k);
    forall u, v | IsEdge(ring, u, v) ensures !OnEdge(u, v, x) {
      EdgesAtCorner(ring, k, u, v);
      EdgesAreProper(ring, u, v);
      EndsAreVertices(ring, u, v);
      if u != b && v != b {
        EarMissesEdge(a, b, c, u, v, x);
      }
    }
  }

  lemma NoEdgeAcross(ring: seq<Point>, k: nat)
    requires k < |ring| && |ring| > 3 && Distinct(ring)
    ensures !IsEdge(ring, ring[Before(k, |ring|)], ring[After(k, |ring|)])
  {
    var (a, c) := (ring[Before(k, |ring|)], ring[After(k, |ring|)]);
    forall i: nat ensures !EdgeAt(ring, i, a, c) {
      if i < |ring| && i != Before(k, |ring|) {
        assert ring[i] != a;
      }
    }
  }

  lemma EarMissesEdge(a: Point, b: Point, c: Point, u: Point, v: Point, x: Point)
    requires Cross(a, b, c) > 0.0 && Cross(a, b, x) > 0.0 && Cross(b, c, x) > 0.0 && Cross(c, a, x) >= 0.0
    requires u != v && EdgesApart(u, v, a, b) && EdgesApart(u, v, b, c)
    requires IsClearOf(a, b, c, u) && IsClearOf(a, b, c, v) && !(u == a && v == c) && !(u == c && v == a)
    ensures !OnEdge(u, v, x)
  {
    hide EdgesApart, Cross, InsideTriangle, OnSegment;
    if Cross(c, a, x) > 0.0 {
      CornerSides(c, a, a);
      CornerSides(c, a, c);
      TipIsClear(a, b, c, u, v, x);
    } else if OnEdge(u, v, x) {
      var s := AcrossTheTip(a, b, c, x);
      var t := FractionOn(u, v, x);
      MeetsInside(a, b, c, u, v, s, t);
    }
  }

  // ----- winding -----

  /** Strictly inside a triangle that turns left. */
  predicate Interior(a: Point, b: Point, c: Point, p: Point) {
    Cross(a, b, p) > 0.0 && Cross(b, c, p) > 0.0 && Cross(c, a, p) > 0.0
  }

  lemma AroundLoneCorner(p: Point, a: Point, b: Point, c: Point)
    requires (a.y > p.y) != (b.y > p.y) && (b.y > p.y) == (c.y > p.y) && Cross(a, b, c) > 0.0
    ensures TriangleSum(WindingTerm(p), a, b, c) == 1.0
        ==> Cross(a, b, p) >= 0.0 && Cross(b, c, p) >= 0.0 && Cross(c, a, p) >= 0.0
    ensures Interior(a, b, c, p) ==> TriangleSum(WindingTerm(p), a, b, c) == 1.0
  {
    WindingTermBySide(p, a, b);
    WindingTermBySide(p, b, c);
    WindingTermBySide(p, c, a);
    HeightsBalance(p, a, b, c);
    hide Cross, WindingTerm;
    LoneCorner(a.y - p.y, b.y - p.y, c.y - p.y, Cross(b, c, p), Cross(c, a, p), Cross(a, b, p));
  }

  lemma InsideAtSomeHeight(p: Point, a: Point, b: Point, c: Point)
    requires Interior(a, b, c, p)
    ensures !((a.y > p.y) == (b.y > p.y) && (b.y > p.y) == (c.y > p.y))
  {
    HeightsBalance(p, a, b, c);
    hide Cross;
    SignOfTerm(a.y - p.y, Cross(b, c, p));
    SignOfTerm(b.y - p.y, Cross(c, a, p));
    SignOfTerm(c.y - p.y, Cross(a, b, p));
    if a.y <= p.y && b.y <= p.y && c.y <= p.y {
      NoZeroProduct(a.y - p.y, Cross(b, c, p));
      NoZeroProduct(b.y - p.y, Cross(c, a, p));
      NoZeroProduct(c.y - p.y, Cross(a, b, p));
      assert a.y == p.y && b.y == p.y && c.y == p.y;
      LevelIsFlat(a, b, p);
    }
  }

  lemma NoZeroProduct(h: real, r: real)
    requires r > 0.0 && h * r == 0.0
    ensures h == 0.0
  {
  }

  lemma LevelIsFlat(a: Point, b: Point, p: Point)
    requires a.y == b.y == p.y
    ensures Cross(a, b, p) == 0.0
  {
  }

  /** A left turn winds once around its interior, and around nothing outside. */
  lemma WindingInside(p: Point, a: Point, b: Point, c: Point)
    requires Cross(a, b, c) > 0.0
    ensures TriangleSum(WindingTerm(p), a, b, c) == 1.0
        ==> Cross(a, b, p) >= 0.0 && Cross(b, c, p) >= 0.0 && Cross(c, a, p) >= 0.0
    ensures Interior(a, b, c, p) ==> TriangleSum(WindingTerm(p), a, b, c) == 1.0
  {
    CornerSides(a, b, c);
    if Interior(a, b, c, p) {
      InsideAtSomeHeight(p, a, b, c);
    }
    hide Cross;
    if (b.y > p.y) == (c.y > p.y) {
      if (a.y > p.y) != (b.y > p.y) {
        AroundLoneCorner(p, a, b, c);
      }
    } else if (c.y > p.y) == (a.y > p.y) {
      AroundLoneCorner(p, b, c, a);
    } else {
      AroundLoneCorner(p, c, a, b);
    }
  }

  /** From inside an ear one comes out across the cut, and meets nothing on the way. */
  lemma OutAcrossTheCut(ring: seq<Point>, k: nat, p: Point) returns (q: Point)
    requires k < |ring| && |ring| > 3 && Simple(ring) && IsEarOf(ring, k)
    requires Interior(ring[Before(k, |ring|)], ring[k], ring[After(k, |ring|)], p)
    ensures Winding(ring, q) == Winding(ring, p)
    ensures Cross(ring[After(k, |ring|)], ring[Before(k, |ring|)], q) < 0.0
  {
    hide IsEdge, Winding, EdgesApart, Cross, Along, Simple, IsEarOf, OffRing, Misses, Mean;
    var (a, b, c) := (ring[Before(k, |ring|)], ring[k], ring[After(k, |ring|)]);
    EarTurns(ring, k);
    var m := Along(a, c, 0.5);
    SideStarts(a, b, c, 0.5);
    WayToTheCut(ring, k, p, m);
    WindingAlong(ring, p, m);
    EarIsClear(ring, k, m);
    var beyond := Along(p, m, 2.0);
    var r := LeavesRing(ring, m, beyond);
    q := Along(m, beyond, r);
    WindingAlong(ring, m, q);
    SidesAlong(c, a, p, m, 2.0);
    SidesAlong(c, a, m, beyond, r);
    Reflected(Cross(c, a, p), r);
  }

  lemma EarTurns(ring: seq<Point>, k: nat)
    requires k < |ring| && IsEarOf(ring, k)
    ensures Cross(ring[Before(k, |ring|)], ring[k], ring[After(k, |ring|)]) > 0.0
  {
  }

  lemma Reflected(x: real, r: real)
    requires x > 0.0 && r > 0.0
    ensures Mean(0.0, Mean(x, 0.0, 2.0), r) < 0.0
  {
    SignOfProduct(x, r);
    assert Mean(0.0, Mean(x, 0.0, 2.0), r) == -(x * r);
  }

  lemma WayToTheCut(ring: seq<Point>, k: nat, p: Point, m: Point)
    requires k < |ring| && |ring| > 3 && Simple(ring) && IsEarOf(ring, k)
    requires var (a, b, c) := (ring[Before(k, |ring|)], ring[k], ring[After(k, |ring|)]);
      && Interior(a, b, c, p) && Cross(a, b, m) > 0.0 && Cross(b, c, m) > 0.0 && Cross(c, a, m) >= 0.0
    ensures Misses(p, m, ring)
  {
    hide IsEdge, EdgesApart, Cross, Along, Simple, IsEarOf, OffRing, Mean;
    var (a, b, c) := (ring[Before(k, |ring|)], ring[k], ring[After(k, |ring|)]);
    forall t: real | IsFraction(t) ensures OffRing(ring, Along(p, m, t)) {
      SidesAlong(a, b, p, m, t);
      SidesAlong(b, c, p, m, t);
      SidesAlong(c, a, p, m, t);
      MeanIsPositive(Cross(a, b, p), Cross(a, b, m), t);
      MeanIsPositive(Cross(b, c, p), Cross(b, c, m), t);
      MeanIsPositive(Cross(c, a, p), Cross(c, a, m), t);
      EarIsClear(ring, k, Along(p, m, t));
    }
    MissesWhenOff(p, m, ring);
  }

  lemma MeanIsPositive(x: real, y: real, t: real)
    requires x > 0.0 && y >= 0.0 && IsFraction(t)
    ensures Mean(x, y, t) >= 0.0 && (y > 0.0 ==> Mean(x, y, t) > 0.0)
  {
    SignOfTerm(1.0 - t, x);
    SignOfTerm(t, y);
  }

  /** Winding is the rest's and the ear's together. */
  lemma WindingWithout(ring: seq<Point>, k: nat, p: Point)
    requires k < |ring| && |ring| > 3
    ensures Winding(ring, p) as real == Winding(Without(ring, k), p) as real
         + TriangleSum(WindingTerm(p), ring[Before(k, |ring|)], ring[k], ring[After(k, |ring|)])
  {
    WindingExact(ring, p);
    WindingExact(Without(ring, k), p);
    WindingTermAntisymmetric(p);
    CycleSumWithout(WindingTerm(p), ring, k);
  }

  lemma BoundaryIsOnASide(a: Point, b: Point, c: Point, p: Point)
    requires Cross(a, b, c) > 0.0 && Cross(a, b, p) >= 0.0 && Cross(b, c, p) >= 0.0 && Cross(c, a, p) >= 0.0
    ensures Interior(a, b, c, p) || OnEdge(a, b, p) || OnEdge(b, c, p) || OnEdge(c, a, p)
  {
    hide Cross, OnSegment;
    CornerSides(a, b, c);
    if Cross(a, b, p) == 0.0 {
      var m := OnTheEdge(a, b, c, p);
      PointsAreOn(a, b, m);
    } else if Cross(b, c, p) == 0.0 {
      var m := OnTheEdge(b, c, a, p);
      PointsAreOn(b, c, m);
    } else if Cross(c, a, p) == 0.0 {
      var m := OnTheEdge(c, a, b, p);
      PointsAreOn(c, a, m);
    }
  }

  /** A point beside p that is as far as winding goes like p, and is on no side of the ear. */
  lemma BesideEar(ring: seq<Point>, k: nat, p: Point) returns (q: Point)
    requires k < |ring| && |ring| > 0
    ensures Winding(ring, q) == Winding(ring, p)
    ensures var (a, b, c) := (ring[Before(k, |ring|)], ring[k], ring[After(k, |ring|)]);
      && TriangleSum(WindingTerm(q), a, b, c) == TriangleSum(WindingTerm(p), a, b, c)
      && !OnEdge(a, b, q) && !OnEdge(b, c, q) && !OnEdge(c, a, q)
  {
    hide Winding, Turn, IsEdge, OnEdge;
    var (a, b, c) := (ring[Before(k, |ring|)], ring[k], ring[After(k, |ring|)]);
    var edges := EdgesOf(ring) + [(a, b), (b, c), (c, a)];
    q := PointBeside(edges, p);
    assert (a, b) in edges && (b, c) in edges && (c, a) in edges;
    forall u, v | IsEdge(ring, u, v) ensures Turn(q, u, v) == Turn(p, u, v) {
      assert (u, v) in edges;
    }
    WindingExact(ring, p);
    WindingExact(ring, q);
    CyclePotential(WindingTerm(p), WindingTerm(q), (u: Point) => 0, ring);
  }

  /** Around every point the loop winds as the rest does around some point. */
  lemma WindsLikeTheRest(ring: seq<Point>, k: nat, p: Point) returns (q: Point)
    requires k < |ring| && |ring| > 3 && Simple(ring) && IsEarOf(ring, k)
    ensures Winding(ring, p) == Winding(Without(ring, k), q)
  {
    hide IsEdge, Winding, EdgesApart, Cross, Simple, IsEarOf, WindingTerm, TriangleSum, OnEdge;
    var (a, b, c) := (ring[Before(k, |ring|)], ring[k], ring[After(k, |ring|)]);
    EarTurns(ring, k);
    WindingWithout(ring, k, p);
    WindingOfTriangle(p, a, b, c);
    if TriangleSum(WindingTerm(p), a, b, c) == 0.0 {
      q := p;
    } else {
      var near := BesideEar(ring, k, p);
      WindingInside(near, a, b, c);
      BoundaryIsOnASide(a, b, c, near);
      q := OutAcrossTheCut(ring, k, near);
      WindingInside(q, a, b, c);
      WindingOfTriangle(q, a, b, c);
      WindingWithout(ring, k, q);
    }
  }
}
