/** From a point inside a simple loop, some vertex to the right of it can be seen. */
module RaySight {
  import opened Options
  import opened Geometry
  import opened EdgeSums
  import opened RingMeasures
  import opened SegmentCrossing
  import opened SimpleLoops
  import opened SegmentWinding
  import opened Nearby
  import opened EarWinding
  import opened LowestVertex
  import opened CornerCuts
  import opened CornerSectors
  import opened HungLoops
  import opened Sight

  // ----- the nearest point on the ray -----

  /** Where the ray from h to the right first meets the edge. */
  function FirstOn(a: Point, b: Point, h: Point): Option<real> {
    if a.y == b.y then
      if a.y == h.y && Min(a.x, b.x) > h.x then Some(Min(a.x, b.x)) else None
    else if Min(a.y, b.y) <= h.y <= Max(a.y, b.y) && XAt(a, b, h.y) > h.x then Some(XAt(a, b, h.y))
    else None
  }

  lemma OnLineAtHeight(a: Point, b: Point, x: Point)
    requires a.y != b.y && Cross(a, b, x) == 0.0
    ensures x.x == XAt(a, b, x.y)
  {
    var (h, w, m, d) := (b.y - a.y, b.x - a.x, Slope(a, b), x.y - a.y);
    assert m * h == w;
    var gap := XAt(a, b, x.y) - x.x;
    assert Cross(a, b, x) == gap * h by { Regroup(d, m, h); }
    NoZeroFactor(gap, h);
  }

  lemma AtHeightIsOn(a: Point, b: Point, y: real)
    requires a.y != b.y && Min(a.y, b.y) <= y <= Max(a.y, b.y)
    ensures OnEdge(a, b, Point(XAt(a, b, y), y))
  {
    hide XAt, Cross, OnSegment, Along;
    var (p, q) := if a.y < b.y then (a, b) else (b, a);
    AlongToHeight(p, q, y);
    PointsAreOn(p, q, (y - p.y) / (q.y - p.y));
    if a.y > b.y {
      OnEdgeBack(a, b, Point(XAt(b, a, y), y));
      SameLine(a, b, y);
    }
  }

  lemma SameLine(a: Point, b: Point, y: real)
    requires a.y != b.y
    ensures XAt(a, b, y) == XAt(b, a, y)
  {
    var (m, h, w) := (Slope(a, b), b.y - a.y, b.x - a.x);
    assert m * h == w;
    var n := Slope(b, a);
    assert n * -h == -w;
    assert (m - n) * h == 0.0;
    NoZeroFactor(m - n, h);
    assert (y - a.y) * m == (y - b.y) * m + h * m;
  }

  /** Nothing of the edge is on the ray before it. */
  lemma FirstIsFirst(a: Point, b: Point, h: Point, x: Point)
    requires !OnEdge(a, b, h)
    ensures FirstOn(a, b, h).Some? ==> FirstOn(a, b, h).value > h.x && OnEdge(a, b, Point(FirstOn(a, b, h).value, h.y))
    ensures OnEdge(a, b, x) && x.y == h.y && x.x > h.x
        ==> FirstOn(a, b, h).Some? && FirstOn(a, b, h).value <= x.x
  {
    if a.y == b.y {
      LevelEdge(a, b, h, x);
    } else {
      hide XAt, Cross;
      if Min(a.y, b.y) <= h.y <= Max(a.y, b.y) {
        AtHeightIsOn(a, b, h.y);
      }
      if OnEdge(a, b, x) && x.y == h.y {
        OnLineAtHeight(a, b, x);
      }
    }
  }

  lemma LevelEdge(a: Point, b: Point, h: Point, x: Point)
    requires a.y == b.y && !OnEdge(a, b, h)
    ensures FirstOn(a, b, h).Some? ==> OnEdge(a, b, Point(FirstOn(a, b, h).value, h.y))
    ensures OnEdge(a, b, x) && x.y == h.y && x.x > h.x ==> FirstOn(a, b, h).Some? && FirstOn(a, b, h).value <= x.x
  {
    if a.y == h.y {
      LevelIsFlat(a, b, h);
      var first := Point(Min(a.x, b.x), h.y);
      LevelIsFlat(a, b, first);
    }
  }

  lemma {:induction false} NearestUpTo(ring: seq<Point>, h: Point, n: nat) returns (k: nat)
    requires 0 < n <= |ring|
    ensures k < n
    ensures forall i :: 0 <= i < n ==> !NearerThan(ring, h, i, k)
  {
    hide FirstOn;
    if n == 1 {
      k := 0;
    } else {
      var before := NearestUpTo(ring, h, n - 1);
      k := if NearerThan(ring, h, n - 1, before) then n - 1 else before;
      forall i | 0 <= i < n ensures !NearerThan(ring, h, i, k) {
        assert i < n - 1 ==> !NearerThan(ring, h, i, before);
      }
    }
  }

  function FirstAt(ring: seq<Point>, h: Point, i: nat): Option<real>
    requires i < |ring|
  {
    FirstOn(ring[i], ring[After(i, |ring|)], h)
  }

  /** Edge i is met before edge k. */
  predicate NearerThan(ring: seq<Point>, h: Point, i: nat, k: nat)
    requires i < |ring| && k < |ring|
  {
    FirstAt(ring, h, i).Some? && (FirstAt(ring, h, k).None? || FirstAt(ring, h, i).value < FirstAt(ring, h, k).value)
  }

  /** Where the loop winds around h, some edge is met. */
  lemma SomeIsMet(ring: seq<Point>, h: Point) returns (i: nat)
    requires OffRing(ring, h) && Winding(ring, h) != 0
    ensures i < |ring| && FirstAt(ring, h, i).Some?
  {
    if forall j :: 0 <= j < |ring| ==> FirstAt(ring, h, j).None? {
      hide Winding, Turn, IsEdge;
      var none := (u: Point, v: Point) => 0.0;
      forall u, v | IsEdge(ring, u, v) ensures WindingTerm(h)(u, v) - none(u, v) == 0.0 {
        NoneHere(ring, h, u, v);
        NotMetNotTurned(u, v, h);
      }
      WindingExact(ring, h);
      CyclePotential(WindingTerm(h), none, (u: Point) => 0, ring);
      NoWeight(ring);
    }
    i :| 0 <= i < |ring| && FirstAt(ring, h, i).Some?;
  }

  lemma NoneHere(ring: seq<Point>, h: Point, u: Point, v: Point)
    requires IsEdge(ring, u, v) && OffRing(ring, h) && forall j :: 0 <= j < |ring| ==> FirstAt(ring, h, j).None?
    ensures FirstOn(u, v, h).None? && !OnEdge(u, v, h)
  {
    hide FirstOn, OnEdge;
    var i: nat :| EdgeAt(ring, i, u, v);
    assert FirstAt(ring, h, i).None?;
  }

  lemma NotMetNotTurned(u: Point, v: Point, h: Point)
    requires FirstOn(u, v, h).None? && !OnEdge(u, v, h)
    ensures Turn(h, u, v) == 0
  {
    hide XAt;
    if Straddles(u, v, h.y) {
      CrossingIsAt(u, v, h.y);
    }
  }

  lemma CrossingIsAt(u: Point, v: Point, y: real)
    requires Straddles(u, v, y)
    ensures CrossingX(u, v, y) == XAt(u, v, y)
  {
    var (d, h, w) := (y - u.y, v.y - u.y, v.x - u.x);
    var (t, m) := (d / h, w / h);
    assert t * h == d && m * h == w;
    assert (w * t - d * m) * h == 0.0 by { CrossMultiply(w, t, d, m, h); }
    NoZeroFactor(w * t - d * m, h);
  }

  lemma CrossMultiply(w: real, t: real, d: real, m: real, h: real)
    requires t * h == d && m * h == w
    ensures (w * t - d * m) * h == 0.0
  {
    assert w * t * h == w * d && d * m * h == d * w;
  }

  /** The first point of the loop on the ray: it is the one point of the segment there that is on the loop. */
  ghost predicate IsFirstPoint(ring: seq<Point>, h: Point, x: Point) {
    && x.y == h.y && x.x > h.x
    && forall u, v, t: real :: IsEdge(ring, u, v) && IsFraction(t) && OnEdge(u, v, Along(h, x, t)) ==>
         Along(h, x, t) == x
  }

  lemma FirstPoint(ring: seq<Point>, h: Point) returns (k: nat, x: Point)
    requires OffRing(ring, h) && Winding(ring, h) != 0
    ensures k < |ring| && OnEdge(ring[k], ring[After(k, |ring|)], x) && IsFirstPoint(ring, h, x)
  {
    hide IsEdge, OnEdge, FirstOn, Winding, Along;
    var i := SomeIsMet(ring, h);
    k := NearestUpTo(ring, h, |ring|);
    assert !NearerThan(ring, h, i, k);
    x := Point(FirstAt(ring, h, k).value, h.y);
    EdgesOfCorner(ring, k);
    FirstIsFirst(ring[k], ring[After(k, |ring|)], h, x);
    forall u, v, t: real | IsEdge(ring, u, v) && IsFraction(t) && OnEdge(u, v, Along(h, x, t))
        ensures Along(h, x, t) == x {
      OnlyTheFirst(ring, h, k, u, v, t);
    }
  }

  lemma OnlyTheFirst(ring: seq<Point>, h: Point, k: nat, u: Point, v: Point, t: real)
    requires OffRing(ring, h) && k < |ring| && FirstAt(ring, h, k).Some? && FirstAt(ring, h, k).value > h.x
    requires forall i :: 0 <= i < |ring| ==> !NearerThan(ring, h, i, k)
    requires IsEdge(ring, u, v) && IsFraction(t)
    ensures var x := Point(FirstAt(ring, h, k).value, h.y); OnEdge(u, v, Along(h, x, t)) ==> Along(h, x, t) == x
  {
    hide OnEdge, FirstOn, Along;
    var x := Point(FirstAt(ring, h, k).value, h.y);
    var p := Along(h, x, t);
    var i: nat :| EdgeAt(ring, i, u, v);
    assert !NearerThan(ring, h, i, k);
    AlongLevel(h, x, t);
    FirstIsFirst(u, v, h, p);
  }

  lemma AlongLevel(h: Point, x: Point, t: real)
    requires x.y == h.y && x.x > h.x && IsFraction(t)
    ensures var p := Along(h, x, t);
      p.y == h.y && h.x <= p.x <= x.x && (p.x == h.x ==> p == h) && (p.x == x.x ==> p == x)
  {
    var d := x.x - h.x;
    SignOfTerm(t, d);
    SignOfTerm(1.0 - t, d);
    assert h.x + t * d == x.x - (1.0 - t) * d;
  }

  // ----- a vertex on the ray -----

  lemma VertexOnRay(ring: seq<Point>, h: Point, x: Point)
    requires Simple(ring) && OffRing(ring, h) && IsFirstPoint(ring, h, x) && x in ring
    ensures IsCut(ring, h, x)
  {
    hide IsEdge, OnEdge, EdgesApart, Along, IsFirstPoint;
    var i: nat :| i < |ring| && ring[i] == x;
    SimpleIsTame(ring);
    EndsAlong(h, x);
    forall u, v | IsEdge(ring, u, v) ensures EdgesApart(h, x, u, v) {
      forall s: real, t: real | MeetAt(h, x, u, v, s, t)
        ensures IsEnd(Along(h, x, s), h, x) && IsEnd(Along(h, x, s), u, v)
      {
        MeansOn(h, x, u, v, s, t);
        FirstOfRay(ring, h, x, u, v, s);
        VertexOnEdge(ring, i, u, v);
      }
      ApartBy(h, x, u, v);
    }
  }

  lemma FirstOfRay(ring: seq<Point>, h: Point, x: Point, u: Point, v: Point, t: real)
    requires IsFirstPoint(ring, h, x) && IsEdge(ring, u, v) && IsFraction(t) && OnEdge(u, v, Along(h, x, t))
    ensures Along(h, x, t) == x
  {
  }

  // ----- a point within an edge -----

  lemma HalvesApart(p: Point, q: Point, s: real)
    requires p != q && 0.0 < s < 1.0
    ensures EdgesApart(p, Along(p, q, s), Along(p, q, s), q)
  {
    var x := Along(p, q, s);
    EndsAlong(p, q);
    hide Along, Mean;
    forall r: real, t: real | MeetAt(p, x, x, q, r, t)
      ensures IsEnd(Along(p, x, r), p, x) && IsEnd(Along(p, x, r), x, q)
    {
      PartWay(p, q, s, r);
      BetweenFractionsToEnd(p, q, s, t);
      WhereAlong(p, q, r * s, Mean(s, 1.0, t));
      HalvesMeet(s, r, t);
    }
    ApartBy(p, x, x, q);
  }

  lemma BetweenFractionsToEnd(p: Point, q: Point, s: real, t: real)
    ensures Along(Along(p, q, s), q, t) == Along(p, q, Mean(s, 1.0, t))
  {
    ToEnd(p.x, q.x - p.x, s, t);
    ToEnd(p.y, q.y - p.y, s, t);
  }

  lemma ToEnd(p: real, d: real, s: real, t: real)
    ensures (p + s * d) + t * ((p + d) - (p + s * d)) == p + ((1.0 - t) * s + t * 1.0) * d
  {
  }

  lemma HalvesMeet(s: real, r: real, t: real)
    requires 0.0 < s < 1.0 && IsFraction(r) && IsFraction(t) && r * s == Mean(s, 1.0, t)
    ensures r * s == s
  {
    MeanBetween(s, 1.0, t);
    SignOfTerm(1.0 - r, s);
    assert (1.0 - r) * s == s - r * s;
  }

  lemma CornerApart(x: Point, h: Point, q: Point)
    requires Cross(h, x, q) != 0.0
    ensures EdgesApart(x, h, x, q) && EdgesApart(h, x, q, x) && EdgesApart(h, x, x, q)
  {
    hide Cross, Along;
    Opposite(h, x, q);
    CornerSides(x, h, q);
    forall s: real, t: real | MeetAt(x, h, x, q, s, t)
      ensures IsEnd(Along(x, h, s), x, h) && IsEnd(Along(x, h, s), x, q)
    {
      OnItsOwnLine(x, h, s);
      SidesAlong(x, h, x, q, t);
      ToAndFromZero(Cross(x, h, q), t);
      NoZeroFactor(t, Cross(x, h, q));
      EndsAlong(x, q);
    }
    ApartBy(x, h, x, q);
    ApartTurned(x, h, x, q);
    ApartTurned(h, x, x, q);
  }

  /** The loop from x, which is within edge k, round to x again, and out to h. */
  function Spiked(ring: seq<Point>, k: nat, x: Point, h: Point): seq<Point>
    requires k < |ring|
  {
    [x] + Rotated(ring, After(k, |ring|)) + [x, h]
  }

  lemma EdgesOfSpiked(ring: seq<Point>, k: nat, x: Point, h: Point, u: Point, v: Point)
    requires k < |ring| && Distinct(ring) && |ring| > 1 && IsEdge(Spiked(ring, k, x, h), u, v)
    ensures var (p, q) := (ring[k], ring[After(k, |ring|)]);
      || (IsEdge(ring, u, v) && (u, v) != (p, q)) || (u == x && v == q) || (u == p && v == x)
      || (u == x && v == h) || (u == h && v == x)
  {
    var (n, ringed) := (|ring|, Spiked(ring, k, x, h));
    var i: nat :| EdgeAt(ringed, i, u, v);
    SpikedAt(ring, k, x, h, i);
    SpikedAt(ring, k, x, h, After(i, n + 3));
    hide Spiked;
    if 0 < i < n {
      WithinTurned(ring, k, i - 1, u, v);
    }
  }

  lemma SpikedAt(ring: seq<Point>, k: nat, x: Point, h: Point, i: nat)
    requires k < |ring| && |ring| > 1 && i < |ring| + 3
    ensures var (n, ringed, turned) := (|ring|, Spiked(ring, k, x, h), Rotated(ring, After(k, |ring|)));
      && |ringed| == n + 3 && turned[0] == ring[After(k, n)] && turned[n - 1] == ring[k]
      && ringed[i] == if i == 0 || i == n + 1 then x else if i == n + 2 then h else turned[i - 1]
  {
  }

  lemma WithinTurned(ring: seq<Point>, k: nat, i: nat, u: Point, v: Point)
    requires k < |ring| && Distinct(ring) && i + 1 < |ring|
    requires u == Rotated(ring, After(k, |ring|))[i] && v == Rotated(ring, After(k, |ring|))[i + 1]
    ensures IsEdge(ring, u, v) && (u, v) != (ring[k], ring[After(k, |ring|)])
  {
    var (n, start) := (|ring|, After(k, |ring|));
    var j := if i + start < n then i + start else i + start - n;
    assert EdgeAt(ring, j, u, v) && j != k;
  }

  lemma SpikedHasEdges(ring: seq<Point>, k: nat, x: Point, h: Point, u: Point, v: Point)
    requires k < |ring| && |ring| > 1 && IsEdge(ring, u, v) && (u, v) != (ring[k], ring[After(k, |ring|)])
    ensures IsEdge(Spiked(ring, k, x, h), u, v)
  {
    var (n, ringed, start) := (|ring|, Spiked(ring, k, x, h), After(k, |ring|));
    var i: nat :| EdgeAt(ring, i, u, v);
    var j := if i >= start then i - start else i + n - start;
    assert ringed[j + 1] == u && ringed[j + 2] == v;
    assert EdgeAt(ringed, j + 1, u, v);
  }

  lemma SpikedEnds(ring: seq<Point>, k: nat, x: Point, h: Point)
    requires k < |ring| && |ring| > 1
    ensures var (ringed, q) := (Spiked(ring, k, x, h), ring[After(k, |ring|)]);
      && ringed[0] == x && ringed[1] == q && ringed[|ringed| - 1] == h && |ringed| == |ring| + 3
      && IsEdge(ringed, ring[k], x) && IsEdge(ringed, x, q)
      && forall z :: z in ringed <==> z in ring || z == x || z == h
  {
    var (n, ringed, start) := (|ring|, Spiked(ring, k, x, h), After(k, |ring|));
    assert EdgeAt(ringed, n, ring[k], x) && EdgeAt(ringed, 0, x, ring[start]);
    assert ring == ring[..start] + ring[start..];
  }

  /** The ray from h first meets the loop within edge k, at a fraction s of it. */
  ghost predicate MeetsWithin(ring: seq<Point>, h: Point, k: nat, s: real) {
    && Simple(ring) && k < |ring| && 0.0 < s < 1.0 && OffRing(ring, h)
    && IsFirstPoint(ring, h, Along(ring[k], ring[After(k, |ring|)], s))
  }

  function MetAt(ring: seq<Point>, k: nat, s: real): Point
    requires k < |ring|
  {
    Along(ring[k], ring[After(k, |ring|)], s)
  }

  lemma MetIsNoVertex(ring: seq<Point>, h: Point, k: nat, s: real)
    requires MeetsWithin(ring, h, k, s)
    ensures MetAt(ring, k, s) !in ring && h !in ring && MetAt(ring, k, s) != h && ring[k] != ring[After(k, |ring|)]
  {
    hide IsEdge, OnEdge, EdgesApart, Along;
    var (p, q, x) := (ring[k], ring[After(k, |ring|)], MetAt(ring, k, s));
    EdgesOfCorner(ring, k);
    EdgesAreProper(ring, p, q);
    PointsAreOn(p, q, s);
    PointIsOn(p, q, s);
    EndsAlong(p, q);
    WhereAlong(p, q, s, 0.0);
    WhereAlong(p, q, s, 1.0);
    SimpleIsTame(ring);
    if x in ring {
      var i: nat :| i < |ring| && ring[i] == x;
      VertexOnEdge(ring, i, p, q);
    }
    if h in ring {
      var i: nat :| i < |ring| && ring[i] == h;
      EdgesOfCorner(ring, i);
      EndIsOn(ring[After(i, |ring|)], h);
      OnEdgeBack(ring[After(i, |ring|)], h, h);
    }
  }

  lemma PointIsOn(p: Point, q: Point, s: real)
    requires IsFraction(s)
    ensures OnEdge(p, q, Along(p, q, s))
  {
    PointsAreOn(p, q, s);
  }

  /** The halves of the edge met, and the ray, against the other edges. */
  lemma NewVsOld(ring: seq<Point>, h: Point, k: nat, s: real, u: Point, v: Point)
    requires MeetsWithin(ring, h, k, s) && IsEdge(ring, u, v) && (u, v) != (ring[k], ring[After(k, |ring|)])
    ensures var (p, q, x) := (ring[k], ring[After(k, |ring|)], MetAt(ring, k, s));
      EdgesApart(x, q, u, v) && EdgesApart(p, x, u, v) && EdgesApart(x, h, u, v) && EdgesApart(h, x, u, v)
  {
    hide IsEdge, OnEdge, EdgesApart, Along, IsFirstPoint;
    var (p, q, x) := (ring[k], ring[After(k, |ring|)], MetAt(ring, k, s));
    MetIsNoVertex(ring, h, k, s);
    EdgesOfCorner(ring, k);
    Backwards(p, q, s);
    ApartTurned(u, v, p, q);
    PartIsApart(u, v, p, q, 1.0 - s);
    PartIsApart(u, v, q, p, s);
    ApartTurned(u, v, x, q);
    ApartTurned(u, v, p, x);
    RayVsOld(ring, h, k, s, u, v);
    ApartTurned(h, x, u, v);
  }

  lemma RayVsOld(ring: seq<Point>, h: Point, k: nat, s: real, u: Point, v: Point)
    requires MeetsWithin(ring, h, k, s) && IsEdge(ring, u, v) && (u, v) != (ring[k], ring[After(k, |ring|)])
    ensures EdgesApart(h, MetAt(ring, k, s), u, v)
  {
    hide IsEdge, OnEdge, EdgesApart, Along, IsFirstPoint;
    var (p, q, x) := (ring[k], ring[After(k, |ring|)], MetAt(ring, k, s));
    MetIsNoVertex(ring, h, k, s);
    EdgesOfCorner(ring, k);
    EdgesAreProper(ring, u, v);
    PointIsOn(p, q, s);
    EndsAreVertices(ring, p, q);
    forall r: real, t: real | MeetAt(h, x, u, v, r, t)
      ensures IsEnd(Along(h, x, r), h, x) && IsEnd(Along(h, x, r), u, v)
    {
      MeansOn(h, x, u, v, r, t);
      FirstOfRay(ring, h, x, u, v, r);
      ApartShare(p, q, u, v, x);
    }
    ApartBy(h, x, u, v);
  }

  lemma NewVsNew(p: Point, q: Point, h: Point, s: real)
    requires p != q && 0.0 < s < 1.0 && Cross(h, Along(p, q, s), q) != 0.0 && Cross(h, Along(p, q, s), p) != 0.0
    ensures var x := Along(p, q, s);
      && EdgesApart(p, x, x, q) && EdgesApart(x, h, x, q) && EdgesApart(h, x, x, q)
      && EdgesApart(x, h, p, x) && EdgesApart(h, x, p, x)
  {
    hide EdgesApart, Along, Cross;
    var x := Along(p, q, s);
    HalvesApart(p, q, s);
    CornerApart(x, h, q);
    CornerApart(x, h, p);
    ApartTurned(x, h, x, p);
    ApartTurned(h, x, x, p);
  }

  /** A half of the edge met, or the ray in one direction. */
  predicate IsNewEdge(p: Point, q: Point, x: Point, h: Point, u: Point, v: Point) {
    (u == x && v == q) || (u == p && v == x) || (u == x && v == h) || (u == h && v == x)
  }

  lemma NewEdgesApart(p: Point, q: Point, h: Point, s: real, a: Point, b: Point, c: Point, d: Point)
    requires p != q && 0.0 < s < 1.0 && Cross(h, Along(p, q, s), q) != 0.0 && Cross(h, Along(p, q, s), p) != 0.0
    requires var x := Along(p, q, s); IsNewEdge(p, q, x, h, a, b) && IsNewEdge(p, q, x, h, c, d)
    ensures (a, b) == (c, d) || (a, b) == (d, c) || EdgesApart(a, b, c, d)
  {
    hide EdgesApart, Along, Cross;
    var x := Along(p, q, s);
    NewVsNew(p, q, h, s);
    ApartTurned(p, x, x, q);
    ApartTurned(x, h, x, q);
    ApartTurned(h, x, x, q);
    ApartTurned(x, h, p, x);
    ApartTurned(h, x, p, x);
  }

  lemma RayRingIsTame(ring: seq<Point>, h: Point, k: nat, s: real)
    requires MeetsWithin(ring, h, k, s)
    requires var (p, q, x) := (ring[k], ring[After(k, |ring|)], MetAt(ring, k, s));
      Cross(h, x, q) != 0.0 && Cross(h, x, p) != 0.0
    ensures Tame(Spiked(ring, k, MetAt(ring, k, s), h))
  {
    hide EdgesApart, Along, Cross, OnEdge, IsEdge, IsFirstPoint;
    var (p, q, x) := (ring[k], ring[After(k, |ring|)], MetAt(ring, k, s));
    var wide := Spiked(ring, k, x, h);
    SimpleIsDistinct(ring);
    MetIsNoVertex(ring, h, k, s);
    forall a, b | IsEdge(wide, a, b) ensures a != b {
      EdgesOfSpiked(ring, k, x, h, a, b);
      if IsEdge(ring, a, b) {
        EdgesAreProper(ring, a, b);
      }
      assert p in ring && q in ring;
    }
    forall a, b, c, d | IsEdge(wide, a, b) && IsEdge(wide, c, d)
      ensures (a, b) == (c, d) || (a, b) == (d, c) || EdgesApart(a, b, c, d)
    {
      EdgesOfSpiked(ring, k, x, h, a, b);
      EdgesOfSpiked(ring, k, x, h, c, d);
      SpikedPair(ring, h, k, s, a, b, c, d);
    }
  }

  lemma SpikedPair(ring: seq<Point>, h: Point, k: nat, s: real, a: Point, b: Point, c: Point, d: Point)
    requires MeetsWithin(ring, h, k, s)
    requires var (p, q, x) := (ring[k], ring[After(k, |ring|)], MetAt(ring, k, s));
      && Cross(h, x, q) != 0.0 && Cross(h, x, p) != 0.0
      && ((IsEdge(ring, a, b) && (a, b) != (p, q)) || IsNewEdge(p, q, x, h, a, b))
      && ((IsEdge(ring, c, d) && (c, d) != (p, q)) || IsNewEdge(p, q, x, h, c, d))
    ensures (a, b) == (c, d) || (a, b) == (d, c) || EdgesApart(a, b, c, d)
  {
    hide EdgesApart, Along, Cross, OnEdge, IsEdge, IsFirstPoint;
    var (p, q, x) := (ring[k], ring[After(k, |ring|)], MetAt(ring, k, s));
    MetIsNoVertex(ring, h, k, s);
    if IsNewEdge(p, q, x, h, a, b) && IsNewEdge(p, q, x, h, c, d) {
      NewEdgesApart(p, q, h, s, a, b, c, d);
    } else if IsNewEdge(p, q, x, h, a, b) {
      NewVsOld(ring, h, k, s, c, d);
    } else if IsNewEdge(p, q, x, h, c, d) {
      NewVsOld(ring, h, k, s, a, b);
      ApartTurned(c, d, a, b);
    }
  }

  lemma RayRingIsClean(ring: seq<Point>, h: Point, k: nat, s: real)
    requires MeetsWithin(ring, h, k, s) && |ring| >= 3
    requires var (p, q, x) := (ring[k], ring[After(k, |ring|)], MetAt(ring, k, s));
      Cross(h, x, q) > 0.0 && Cross(h, x, p) < 0.0
    ensures CleanCorner(Spiked(ring, k, MetAt(ring, k, s), h)) && EndsInSpike(Spiked(ring, k, MetAt(ring, k, s), h))
  {
    hide EdgesApart, Along, Cross, OnEdge, IsEdge, IsFirstPoint;
    var (p, q, x) := (ring[k], ring[After(k, |ring|)], MetAt(ring, k, s));
    var wide := Spiked(ring, k, x, h);
    SimpleIsDistinct(ring);
    MetIsNoVertex(ring, h, k, s);
    SpikedEnds(ring, k, x, h);
    CornerSides(h, x, q);
    CornerSides(x, q, q);
    assert p in ring && q in ring;
    forall u, v | IsEdge(wide, u, v)
      ensures (u == x ==> !InWedge(h, x, q, v)) && (v == x ==> !InWedge(h, x, q, u))
      ensures (u == h ==> v == x) && (v == h ==> u == x)
    {
      EdgesOfSpiked(ring, k, x, h, u, v);
      EndsAreVerticesIf(ring, u, v);
    }
  }

  lemma EndsAreVerticesIf(ring: seq<Point>, u: Point, v: Point)
    ensures IsEdge(ring, u, v) ==> u in ring && v in ring
  {
  }

  /** A cut of the loop with x put in is a cut of the loop. */
  lemma CutPastHalves(ring: seq<Point>, h: Point, k: nat, s: real, w: Point)
    requires MeetsWithin(ring, h, k, s) && IsCut(Spiked(ring, k, MetAt(ring, k, s), h), h, w)
    requires w != MetAt(ring, k, s)
    ensures IsCut(ring, h, w)
  {
    hide EdgesApart, Along, OnEdge, IsEdge, IsFirstPoint;
    var (p, q, x) := (ring[k], ring[After(k, |ring|)], MetAt(ring, k, s));
    SimpleIsDistinct(ring);
    MetIsNoVertex(ring, h, k, s);
    SpikedEnds(ring, k, x, h);
    forall u, v | IsEdge(ring, u, v) ensures EdgesApart(h, w, u, v) {
      if (u, v) == (p, q) {
        ApartFromHalves(p, q, s, h, w);
      } else {
        SpikedHasEdges(ring, k, x, h, u, v);
      }
    }
  }

  lemma ApartFromHalves(p: Point, q: Point, s: real, h: Point, w: Point)
    requires p != q && 0.0 < s < 1.0 && h != Along(p, q, s) && w != Along(p, q, s)
    requires EdgesApart(h, w, p, Along(p, q, s)) && EdgesApart(h, w, Along(p, q, s), q)
    ensures EdgesApart(h, w, p, q)
  {
    hide Along, IsEnd;
    var x := Along(p, q, s);
    forall r: real, t: real | MeetAt(h, w, p, q, r, t)
      ensures IsEnd(Along(h, w, r), h, w) && IsEnd(Along(h, w, r), p, q)
    {
      if t <= s {
        var u := WithinFirst(p, q, s, t);
        assert MeetAt(h, w, p, x, r, u);
      } else {
        var u := WithinSecond(p, q, s, t);
        assert MeetAt(h, w, x, q, r, u);
      }
      EndNotMiddle(Along(h, w, r), h, w, p, x, q);
    }
    ApartBy(h, w, p, q);
  }

  lemma EndNotMiddle(y: Point, h: Point, w: Point, p: Point, x: Point, q: Point)
    requires h != x && w != x
    ensures IsEnd(y, h, w) && (IsEnd(y, p, x) || IsEnd(y, x, q)) ==> IsEnd(y, p, q)
  {
  }

  lemma WithinFirst(p: Point, q: Point, s: real, t: real) returns (u: real)
    requires 0.0 < s && 0.0 <= t <= s
    ensures IsFraction(u) && Along(p, Along(p, q, s), u) == Along(p, q, t)
  {
    u := t / s;
    assert u * s == t;
    Ratio(t, s);
    PartWay(p, q, s, u);
  }

  lemma WithinSecond(p: Point, q: Point, s: real, t: real) returns (u: real)
    requires s < 1.0 && s <= t <= 1.0
    ensures IsFraction(u) && Along(Along(p, q, s), q, u) == Along(p, q, t)
  {
    u := (t - s) / (1.0 - s);
    assert u * (1.0 - s) == t - s;
    Ratio(t - s, 1.0 - s);
    BetweenFractionsToEnd(p, q, s, u);
    assert Mean(s, 1.0, u) == s + u * (1.0 - s);
  }

  // ----- what is seen from the ray -----

  /** Every point of a triangle but its leftmost corner is further right. */
  lemma FurtherRight(h: Point, x: Point, q: Point, w: Point)
    requires Cross(h, x, q) > 0.0 && h.x < x.x && h.x < q.x && InsideTriangle(h, x, q, w) && w != h
    ensures w.x > h.x
  {
    var down := Point(h.x, h.y - 1.0);
    HeightsBalance(w, h, x, q);
    Barycentric(h, x, q, h, down, w);
    XAsCross(h, down, x);
    XAsCross(h, down, q);
    XAsCross(h, down, w);
    CornerSides(h, down, h);
    NotBothZero(h, x, q, w);
    hide Cross, InsideTriangle;
    SignOfTerm(Cross(q, h, w), x.x - h.x);
    SignOfTerm(Cross(h, x, w), q.x - h.x);
    SignOfProduct(w.x - h.x, Cross(h, x, q));
  }

  lemma XAsCross(h: Point, down: Point, z: Point)
    requires down == Point(h.x, h.y - 1.0)
    ensures Cross(h, down, z) == z.x - h.x
  {
  }

  lemma NotBothZero(h: Point, x: Point, q: Point, w: Point)
    requires Cross(h, x, q) > 0.0 && InsideTriangle(h, x, q, w) && w != h
    ensures Cross(h, x, w) >= 0.0 && Cross(q, h, w) >= 0.0 && (Cross(h, x, w) > 0.0 || Cross(q, h, w) > 0.0)
  {
    HeightsBalance(w, h, x, q);
    hide Cross, Along, Mean;
    if Cross(h, x, w) == 0.0 && Cross(q, h, w) == 0.0 {
      var m := OnTheEdge(h, x, q, w);
      SidesAlong(q, h, h, x, m);
      CornerSides(q, h, x);
      CornerSides(h, x, q);
      ToAndFromZero(Cross(h, x, q), m);
      NoZeroFactor(m, Cross(h, x, q));
      EndsAlong(h, x);
    }
  }

  lemma BesideRay(h: Point, x: Point, q: Point)
    requires x.y == h.y && x.x > h.x
    ensures Cross(h, x, q) > 0.0 <==> q.y > h.y
    ensures Cross(h, x, q) < 0.0 <==> q.y < h.y
  {
    SignOfProduct(q.y - h.y, x.x - h.x);
    assert Cross(h, x, q) == (q.y - h.y) * (x.x - h.x);
  }

  /** The far end of the edge met is above the ray. */
  lemma SeesAbove(ring: seq<Point>, h: Point, k: nat, s: real) returns (w: Point)
    requires MeetsWithin(ring, h, k, s)
    requires var (p, q, x) := (ring[k], ring[After(k, |ring|)], MetAt(ring, k, s)); q.y > h.y > p.y && q.x >= x.x
    ensures w in ring && w.x > h.x && IsCut(ring, h, w)
  {
    hide EdgesApart, Along, OnEdge, IsEdge, Cross, InsideTriangle, IsCut, Simple;
    var (p, q, x) := (ring[k], ring[After(k, |ring|)], MetAt(ring, k, s));
    SimpleIsDistinct(ring);
    BesideRay(h, x, q);
    BesideRay(h, x, p);
    RayRingIsTame(ring, h, k, s);
    RayRingIsClean(ring, h, k, s);
    SpikedEnds(ring, k, x, h);
    w := Sees(Spiked(ring, k, x, h));
    FurtherRight(h, x, q, w);
    CutPastHalves(ring, h, k, s, w);
  }

  // ----- upside down -----

  function Flip(p: Point): Point {
    Point(p.x, -p.y)
  }

  function Flipped(ring: seq<Point>): (r: seq<Point>)
    ensures |r| == |ring| && forall i :: 0 <= i < |ring| ==> r[i] == Flip(ring[i])
  {
    seq(|ring|, i requires 0 <= i < |ring| => Flip(ring[i]))
  }

  lemma FlipAlong(p: Point, q: Point, t: real)
    ensures Along(Flip(p), Flip(q), t) == Flip(Along(p, q, t))
  {
    var (r, s) := (Along(Flip(p), Flip(q), t), Flip(Along(p, q, t)));
    assert r.y == -p.y + t * (-q.y - -p.y);
    assert s.y == -(p.y + t * (q.y - p.y));
    hide Along;
    FlipTerm(p.y, q.y, t);
  }

  lemma FlipTerm(p: real, q: real, t: real)
    ensures -p + t * (-q - -p) == -(p + t * (q - p))
  {
  }

  lemma FlipTwice(p: Point)
    ensures Flip(Flip(p)) == p
  {
  }

  lemma FlipOnEdge(p: Point, q: Point, x: Point)
    ensures OnEdge(Flip(p), Flip(q), Flip(x)) <==> OnEdge(p, q, x)
  {
    var (dx, dy, ex, ey) := (q.x - p.x, q.y - p.y, x.x - p.x, x.y - p.y);
    assert Cross(p, q, x) == dx * ey - dy * ex;
    assert -q.y - -p.y == -dy && -x.y - -p.y == -ey;
    assert Cross(Flip(p), Flip(q), Flip(x)) == dx * -ey - -dy * ex;
    assert dx * -ey - -dy * ex == -(dx * ey - dy * ex);
  }

  lemma FlipApart(a: Point, b: Point, c: Point, d: Point)
    requires EdgesApart(a, b, c, d)
    ensures EdgesApart(Flip(a), Flip(b), Flip(c), Flip(d))
  {
    hide Along;
    forall s: real, t: real | MeetAt(Flip(a), Flip(b), Flip(c), Flip(d), s, t)
      ensures IsEnd(Along(Flip(a), Flip(b), s), Flip(a), Flip(b)) && IsEnd(Along(Flip(a), Flip(b), s), Flip(c), Flip(d))
    {
      FlipAlong(a, b, s);
      FlipAlong(c, d, t);
      FlipTwice(Along(a, b, s));
      FlipTwice(Along(c, d, t));
      assert MeetAt(a, b, c, d, s, t);
    }
    ApartBy(Flip(a), Flip(b), Flip(c), Flip(d));
  }

  lemma FlipEdges(ring: seq<Point>, u: Point, v: Point)
    ensures IsEdge(Flipped(ring), u, v) <==> IsEdge(ring, Flip(u), Flip(v))
  {
    FlipTwice(u);
    FlipTwice(v);
    if i: nat :| EdgeAt(Flipped(ring), i, u, v) {
      FlipTwice(ring[i]);
      FlipTwice(ring[After(i, |ring|)]);
      assert EdgeAt(ring, i, Flip(u), Flip(v));
    }
    if i: nat :| EdgeAt(ring, i, Flip(u), Flip(v)) {
      assert EdgeAt(Flipped(ring), i, u, v);
    }
  }

  lemma FlipSimple(ring: seq<Point>)
    requires Simple(ring)
    ensures Simple(Flipped(ring))
  {
    hide IsEdge, EdgesApart, Flip;
    var r := Flipped(ring);
    forall i, j | 0 <= i < j < |r| ensures r[i] != r[j] {
      FlipTwice(ring[i]);
      FlipTwice(ring[j]);
    }
    forall a, b, c, d | IsEdge(r, a, b) && IsEdge(r, c, d) && (a, b) != (c, d) ensures EdgesApart(a, b, c, d) {
      FlipEdges(ring, a, b);
      FlipEdges(ring, c, d);
      FlipTwice(a);
      FlipTwice(b);
      FlipTwice(c);
      FlipTwice(d);
      FlipApart(Flip(a), Flip(b), Flip(c), Flip(d));
    }
  }

  lemma FlipMeets(ring: seq<Point>, h: Point, k: nat, s: real)
    requires MeetsWithin(ring, h, k, s)
    ensures MeetsWithin(Flipped(ring), Flip(h), k, s) && MetAt(Flipped(ring), k, s) == Flip(MetAt(ring, k, s))
  {
    hide IsEdge, EdgesApart, OnEdge, Simple, Along;
    var r := Flipped(ring);
    var x := MetAt(ring, k, s);
    FlipSimple(ring);
    FlipAlong(ring[k], ring[After(k, |ring|)], s);
    forall u, v | IsEdge(r, u, v) ensures !OnEdge(u, v, Flip(h)) {
      FlipEdges(ring, u, v);
      FlipOnEdge(u, v, Flip(h));
      FlipTwice(h);
    }
    forall u, v, t: real | IsEdge(r, u, v) && IsFraction(t) && OnEdge(u, v, Along(Flip(h), Flip(x), t))
      ensures Along(Flip(h), Flip(x), t) == Flip(x)
    {
      FlipAlong(h, x, t);
      FlipEdges(ring, u, v);
      FlipOnEdge(u, v, Flip(Along(h, x, t)));
      FlipTwice(Along(h, x, t));
    }
  }

  /** The far end of the edge met is not on the level of the ray. */
  lemma SeesForward(ring: seq<Point>, h: Point, k: nat, s: real) returns (w: Point)
    requires MeetsWithin(ring, h, k, s)
    requires var (p, q, x) := (ring[k], ring[After(k, |ring|)], MetAt(ring, k, s));
      (q.y > h.y > p.y || q.y < h.y < p.y) && q.x >= x.x
    ensures w in ring && w.x > h.x && IsCut(ring, h, w)
  {
    hide EdgesApart, OnEdge, IsEdge, IsCut, Simple, IsFirstPoint, OffRing, Along;
    if ring[After(k, |ring|)].y > h.y {
      w := SeesAbove(ring, h, k, s);
    } else {
      FlipMeets(ring, h, k, s);
      var z := SeesAbove(Flipped(ring), Flip(h), k, s);
      w := Flip(z);
      var i: nat :| i < |ring| && Flipped(ring)[i] == z;
      FlipTwice(ring[i]);
      FlipCut(ring, h, w);
    }
  }

  lemma FlipCut(ring: seq<Point>, h: Point, w: Point)
    requires IsCut(Flipped(ring), Flip(h), Flip(w))
    ensures IsCut(ring, h, w)
  {
    hide IsEdge, EdgesApart, Flip;
    forall u, v | IsEdge(ring, u, v) ensures EdgesApart(h, w, u, v) {
      FlipTwice(u);
      FlipTwice(v);
      FlipTwice(h);
      FlipTwice(w);
      FlipEdges(ring, Flip(u), Flip(v));
      FlipApart(Flip(h), Flip(w), Flip(u), Flip(v));
    }
  }

  // ----- the other way round -----

  lemma ReversedMeets(ring: seq<Point>, h: Point, k: nat, s: real)
    requires MeetsWithin(ring, h, k, s)
    ensures var (n, back) := (|ring|, Reversed(ring));
      var j := n - 1 - After(k, n);
      && MeetsWithin(back, h, j, 1.0 - s) && MetAt(back, j, 1.0 - s) == MetAt(ring, k, s)
      && back[j] == ring[After(k, n)] && back[After(j, n)] == ring[k]
  {
    hide IsEdge, EdgesApart, OnEdge, Simple, Along;
    var (n, back) := (|ring|, Reversed(ring));
    SimpleReversed(ring);
    Backwards(ring[k], ring[After(k, n)], s);
    forall u, v | IsEdge(back, u, v) ensures IsEdge(ring, v, u) {
      EdgesReversed(ring, u, v);
    }
    forall u, v, z | IsEdge(back, u, v) ensures OnEdge(u, v, z) <==> OnEdge(v, u, z) {
      OnEdgeBack(u, v, z);
    }
  }

  lemma CutOfReversed(ring: seq<Point>, h: Point, w: Point)
    requires IsCut(Reversed(ring), h, w)
    ensures IsCut(ring, h, w)
  {
    hide IsEdge, EdgesApart;
    forall u, v | IsEdge(ring, u, v) ensures EdgesApart(h, w, u, v) {
      EdgesReversed(ring, v, u);
      ApartTurned(h, w, v, u);
    }
  }

  lemma SeesFromEdge(ring: seq<Point>, h: Point, k: nat, s: real) returns (w: Point)
    requires MeetsWithin(ring, h, k, s)
    requires var (p, q) := (ring[k], ring[After(k, |ring|)]); q.y > h.y > p.y || q.y < h.y < p.y
    ensures w in ring && w.x > h.x && IsCut(ring, h, w)
  {
    hide EdgesApart, OnEdge, IsEdge, IsCut, Simple, IsFirstPoint, OffRing, Along;
    var (p, q, x) := (ring[k], ring[After(k, |ring|)], MetAt(ring, k, s));
    PointIsOn(p, q, s);
    OnEdgeBox(p, q, x);
    if q.x >= x.x {
      w := SeesForward(ring, h, k, s);
    } else {
      ReversedMeets(ring, h, k, s);
      w := SeesForward(Reversed(ring), h, |ring| - 1 - After(k, |ring|), 1.0 - s);
      SameVertices(ring, 0, w);
      CutOfReversed(ring, h, w);
    }
  }

  lemma OnEdgeBox(p: Point, q: Point, x: Point)
    requires OnEdge(p, q, x)
    ensures Min(p.x, q.x) <= x.x <= Max(p.x, q.x)
  {
  }

  /** A point met within a level edge would not be the first. */
  lemma NotWithinLevel(ring: seq<Point>, h: Point, k: nat, x: Point)
    requires k < |ring| && OffRing(ring, h) && IsFirstPoint(ring, h, x)
    requires OnEdge(ring[k], ring[After(k, |ring|)], x) && ring[k].y == ring[After(k, |ring|)].y
    ensures IsEnd(x, ring[k], ring[After(k, |ring|)])
  {
    hide IsEdge;
    var (p, q) := (ring[k], ring[After(k, |ring|)]);
    EdgesOfCorner(ring, k);
    LevelIsFlat(p, q, h);
    var e := if p.x <= q.x then p else q;
    LevelIsFlat(p, q, e);
    var t := LevelFraction(h, x, e);
    assert OnEdge(p, q, Along(h, x, t));
  }

  lemma LevelFraction(h: Point, x: Point, e: Point) returns (t: real)
    requires h.y == x.y == e.y && h.x <= e.x <= x.x && h.x < x.x
    ensures IsFraction(t) && Along(h, x, t) == e
  {
    var (d, share) := (x.x - h.x, e.x - h.x);
    t := share / d;
    assert t * d == share;
    Ratio(share, d);
    assert Along(h, x, t) == Point(h.x + t * d, h.y + t * 0.0);
  }

  /** Off its vertices, the first point met is within an edge that crosses the ray. */
  lemma WithinCrosses(p: Point, q: Point, h: Point, x: Point) returns (s: real)
    requires OnEdge(p, q, x) && p.y != q.y && x.y == h.y && x != p && x != q
    ensures 0.0 < s < 1.0 && x == Along(p, q, s) && (q.y > h.y > p.y || q.y < h.y < p.y)
  {
    s := FractionOn(p, q, x);
    EndsAlong(p, q);
    HeightWithin(p, q, s);
  }

  lemma HeightWithin(p: Point, q: Point, s: real)
    requires 0.0 < s < 1.0 && p.y != q.y
    ensures var y := Along(p, q, s).y; q.y > y > p.y || q.y < y < p.y
  {
    var d := q.y - p.y;
    var share := s * d;
    ShareOf(s, d, share);
    assert Along(p, q, s).y == p.y + share;
  }

  /** From a point that a simple loop winds around, some vertex to the right of it can be seen. */
  lemma VisibleVertex(ring: seq<Point>, h: Point) returns (w: Point)
    requires Simple(ring) && OffRing(ring, h) && Winding(ring, h) != 0
    ensures w in ring && w.x > h.x && IsCut(ring, h, w)
  {
    hide EdgesApart, OnEdge, IsEdge, IsCut, Simple, IsFirstPoint, OffRing, Along, Winding;
    var k, x := FirstPoint(ring, h);
    FirstIsRight(ring, h, x);
    if x in ring {
      VertexOnRay(ring, h, x);
      w := x;
    } else {
      var (p, q) := (ring[k], ring[After(k, |ring|)]);
      assert p in ring && q in ring;
      if p.y == q.y {
        NotWithinLevel(ring, h, k, x);
      }
      var s := WithinCrosses(p, q, h, x);
      w := SeesFromEdge(ring, h, k, s);
    }
  }

  lemma FirstIsRight(ring: seq<Point>, h: Point, x: Point)
    requires IsFirstPoint(ring, h, x)
    ensures x.x > h.x && x.y == h.y
  {
  }
}
