/** What the ray construction answers, and when nothing crosses the way to it: visible_from of triangulate.rs. */
module RayBridges {
  import opened Options
  import opened Geometry
  import opened EdgeSums
  import opened RingMeasures
  import opened SegmentCrossing
  import opened SimpleLoops
  import opened SegmentWinding
  import opened Nearby
  import opened EarWinding
  import opened LowestVertex
  import opened CornerCuts
  import opened EdgeJumps
  import opened TwoEars
  import opened HoleStages
  import opened Clipping
  import opened Bridging
  import opened RaySight
  import opened Fans
  import opened Views
  import opened FanSight

  // ----- the answer, outright -----

  /** The ray from o comes to the edge at x: one end is above the height of o and the other is not. */
  predicate ComesTo(o: Point, a: Point, b: Point, x: Point) {
    ((a.y > o.y) != (b.y > o.y)) && x.y == o.y && x.x >= o.x && OnEdge(a, b, x)
  }

  predicate ComesToEdge(chain: seq<Vertex>, o: Point, edge: nat, x: Point) {
    edge < |chain| && ComesTo(o, chain[edge].at, chain[After(edge, |chain|)].at, x)
  }

  lemma HitIsComing(o: Point, a: Point, b: Point, x: Point)
    requires Straddles(a, b, o.y)
    ensures ComesTo(o, a, b, x) <==> x == Point(CrossingX(a, b, o.y), o.y) && CrossingX(a, b, o.y) >= o.x
  {
    hide XAt, CrossingX, Cross;
    CrossingIsAt(a, b, o.y);
    AtHeightIsOn(a, b, o.y);
    if ComesTo(o, a, b, x) {
      OnLineAtHeight(a, b, x);
    }
  }

  lemma EdgeHitIs(chain: seq<Vertex>, o: Point, edge: nat, x: Point)
    requires edge < |chain|
    ensures ComesToEdge(chain, o, edge, x) <==> x.y == o.y && EdgeHit(chain, o, edge) == Some(x.x)
  {
    hide CrossingX, OnEdge;
    var (a, b) := (chain[edge].at, chain[After(edge, |chain|)].at);
    if Straddles(a, b, o.y) {
      HitIsComing(o, a, b, x);
    }
  }

  /** The ray comes to that edge first, and of those it comes to at one point to the first in the chain. */
  ghost predicate ComesFirstTo(chain: seq<Vertex>, o: Point, edge: nat, x: Point) {
    && ComesToEdge(chain, o, edge, x)
    && forall i: nat, z: Point :: ComesToEdge(chain, o, i, z) ==> x.x < z.x || (x.x == z.x && edge <= i)
  }

  /** A vertex, not the corner's own, in the triangle o, x, corner, at which the chain does not turn left. */
  predicate IsInTheWay(chain: seq<Vertex>, o: Point, x: Point, corner: nat, i: nat)
    requires corner < |chain|
  {
    && i < |chain| && i != corner && chain[i].at != o
    && InsideTriangle(o, x, chain[corner].at, chain[i].at)
    && Cross(chain[Before(i, |chain|)].at, chain[i].at, chain[After(i, |chain|)].at) <= 0.0
  }

  /** From o, a lies at no greater angle to the level than b: of the distance less, or as much, is height. */
  predicate NoSteeper(o: Point, a: Point, b: Point) {
    Squared(a.y - o.y) * Distance2(b, o) <= Squared(b.y - o.y) * Distance2(a, o)
  }

  /**
   The answer: the corner of the edge the ray comes to first that is further right, unless a vertex is in the way of
   it; then the one of those at the least angle, the first in the chain where several tie.
   */
  ghost predicate IsAnswer(chain: seq<Vertex>, o: Point, edge: nat, x: Point, corner: nat, answer: nat) {
    && ComesFirstTo(chain, o, edge, x) && corner < |chain|
    && (corner == edge || corner == After(edge, |chain|))
    && chain[edge].at.x <= chain[corner].at.x && chain[After(edge, |chain|)].at.x <= chain[corner].at.x
    && (corner == edge ==> chain[After(edge, |chain|)].at.x < chain[edge].at.x)
    && (if IsInTheWay(chain, o, x, corner, answer) then
          forall i: nat :: IsInTheWay(chain, o, x, corner, i) ==>
            NoSteeper(o, chain[answer].at, chain[i].at)
            && (i < answer ==> !NoSteeper(o, chain[i].at, chain[answer].at))
        else answer == corner && forall i: nat :: !IsInTheWay(chain, o, x, corner, i))
  }

  lemma SteeperByAngle(o: Point, a: Point, b: Point)
    requires a != o && b != o
    ensures SquaredAngle(o, b) < SquaredAngle(o, a) <==> !NoSteeper(o, a, b)
  {
    DistanceZero(a, o);
    DistanceZero(b, o);
    hide Distance2;
    RatiosCompare((b.y - o.y) * (b.y - o.y), Distance2(b, o), (a.y - o.y) * (a.y - o.y), Distance2(a, o));
  }

  lemma WaysAgree(chain: seq<Vertex>, o: Point, x: Point, corner: nat, i: nat)
    requires corner < |chain| && i < |chain|
    ensures IsInTheWay(chain, o, x, corner, i) <==> InTheWay(chain, o, x, corner, i)
  {
  }

  lemma LeastIsAnswer(chain: seq<Vertex>, o: Point, x: Point, corner: nat)
    requires corner < |chain|
    ensures var found := LeastAngle(chain, o, x, corner, |chain|);
      if found.None? then forall i: nat :: !IsInTheWay(chain, o, x, corner, i)
      else IsInTheWay(chain, o, x, corner, found.value.index)
           && forall i: nat :: IsInTheWay(chain, o, x, corner, i) ==>
                NoSteeper(o, chain[found.value.index].at, chain[i].at)
                && (i < found.value.index ==> !NoSteeper(o, chain[i].at, chain[found.value.index].at))
  {
    hide IsInTheWay, InTheWay, SquaredAngle, NoSteeper;
    LeastAngleIsLeast(chain, o, x, corner, |chain|);
    var found := LeastAngle(chain, o, x, corner, |chain|);
    forall i: nat ensures i < |chain| ==> (IsInTheWay(chain, o, x, corner, i) <==> InTheWay(chain, o, x, corner, i))
      ensures i >= |chain| ==> !IsInTheWay(chain, o, x, corner, i)
    {
      if i < |chain| {
        WaysAgree(chain, o, x, corner, i);
      } else {
        OffTheChain(chain, o, x, corner, i);
      }
    }
    if found.Some? {
      var m := found.value.index;
      forall i: nat | IsInTheWay(chain, o, x, corner, i)
        ensures NoSteeper(o, chain[m].at, chain[i].at)
        ensures i < m ==> !NoSteeper(o, chain[i].at, chain[m].at)
      {
        InTheWayIsOff(chain, o, x, corner, i);
        InTheWayIsOff(chain, o, x, corner, m);
        SteeperByAngle(o, chain[m].at, chain[i].at);
        SteeperByAngle(o, chain[i].at, chain[m].at);
      }
    }
  }

  lemma OffTheChain(chain: seq<Vertex>, o: Point, x: Point, corner: nat, i: nat)
    requires corner < |chain| <= i
    ensures !IsInTheWay(chain, o, x, corner, i)
  {
  }

  lemma InTheWayIsOff(chain: seq<Vertex>, o: Point, x: Point, corner: nat, i: nat)
    requires corner < |chain| && IsInTheWay(chain, o, x, corner, i)
    ensures i < |chain| && chain[i].at != o
  {
  }

  /** On every chain there is no answer exactly where the ray comes to no edge, and otherwise it is that one. */
  lemma VisibleFromIs(chain: seq<Vertex>, o: Point)
    ensures VisibleFrom(chain, o).None? <==> forall i: nat, x: Point :: !ComesToEdge(chain, o, i, x)
    ensures VisibleFrom(chain, o).Some? ==>
              exists edge: nat, x: Point, corner: nat ::
                IsAnswer(chain, o, edge, x, corner, VisibleFrom(chain, o).value)
  {
    hide IsInTheWay, InTheWay, SquaredAngle, NoSteeper, EdgeHit, ComesToEdge, LeastAngle;
    NearestHitIsNearest(chain, o, |chain|);
    var hit := NearestHit(chain, o, |chain|);
    forall i: nat, z: Point
      ensures ComesToEdge(chain, o, i, z) <==> i < |chain| && z.y == o.y && EdgeHit(chain, o, i) == Some(z.x)
    {
      ComingIsInChain(chain, o, i, z);
      if i < |chain| {
        EdgeHitIs(chain, o, i, z);
      }
    }
    if hit.None? {
      assert VisibleFrom(chain, o).None?;
    } else {
      var (edge, x) := (hit.value.index, Point(hit.value.value, o.y));
      var corner := Candidate(chain, edge);
      assert ComesToEdge(chain, o, edge, x);
      forall i: nat, z: Point | ComesToEdge(chain, o, i, z) ensures x.x < z.x || (x.x == z.x && edge <= i) {
        assert EdgeHit(chain, o, i) == Some(z.x);
      }
      assert ComesFirstTo(chain, o, edge, x);
      LeastIsAnswer(chain, o, x, corner);
      var found := LeastAngle(chain, o, x, corner, |chain|);
      ComesToProperEdge(chain, o, edge, x);
      assert IsAnswer(chain, o, edge, x, corner, if found.None? then corner else found.value.index);
    }
  }

  lemma ComesToProperEdge(chain: seq<Vertex>, o: Point, edge: nat, x: Point)
    requires ComesToEdge(chain, o, edge, x)
    ensures edge != After(edge, |chain|)
  {
  }

  lemma ComingIsInChain(chain: seq<Vertex>, o: Point, i: nat, z: Point)
    ensures ComesToEdge(chain, o, i, z) ==> i < |chain|
  {
  }

  // ----- nothing crosses the way to the answer -----

  /** Nothing of the loop crosses the segment; it may touch vertices, and edges that run along it. */
  ghost predicate IsClearWay(ring: seq<Point>, o: Point, a: Point) {
    forall u, v :: IsEdge(ring, u, v) ==> !CrossProperly(o, a, u, v)
  }

  lemma ClearIsNotBlocked(ring: seq<Point>, o: Point, a: Point)
    ensures IsClearWay(ring, o, a) <==> !IsBlocked(ring, o, a)
  {
    hide CrossProperly, GoesThrough, IsEdge;
    forall u, v ensures CrossProperly(o, a, u, v) <==> GoesThrough(o, a, u, v) {
      ThroughIsProper(o, a, u, v);
    }
  }

  /** A loop that does not touch itself and runs counter-clockwise, and a point inside it and not on it. */
  ghost predicate IsInside(ring: seq<Point>, o: Point) {
    Simple(ring) && WindsLeft(ring) && OffRing(ring, o) && Encloses(ring, o)
  }

  lemma InsideWindsOnce(ring: seq<Point>, o: Point)
    requires IsInside(ring, o)
    ensures Winding(ring, o) == 1 && OnceAtMost(ring) && o !in ring
  {
    hide Simple, WindsLeft, OnEdge, Winding;
    WindingExact(ring, o);
    SimpleHasTwoEars(ring);
    SimpleIsDistinct(ring);
    if o in ring {
      var k: nat :| k < |ring| && ring[k] == o;
      EdgesOfCorner(ring, k);
      EndIsOn(ring[Before(k, |ring|)], o);
    }
  }

  /** The ray from o comes to x, which is on no edge it comes to before. */
  lemma PastFirst(chain: seq<Vertex>, o: Point, edge: nat, x: Point, u: Point, v: Point)
    requires ComesFirstTo(chain, o, edge, x) && x.x > o.x && Joined(Places(chain), u, v)
    ensures Past(o, x, u, v)
  {
    hide OnEdge, Along;
    if v.y > o.y >= u.y {
      forall s: real | 0.0 <= s < 1.0 ensures !OnEdge(u, v, Along(o, x, s)) {
        var z := Along(o, x, s);
        AlongLevel(o, x, s);
        BeforeEnd(o, x, s);
        OnEdgeBack(u, v, z);
        var (p, q) := if IsEdge(Places(chain), u, v) then (u, v) else (v, u);
        var i: nat :| EdgeAt(Places(chain), i, p, q);
        assert OnEdge(u, v, z) ==> ComesToEdge(chain, o, i, z);
      }
    }
  }

  lemma BeforeEnd(o: Point, x: Point, s: real)
    requires x.x > o.x && s < 1.0
    ensures Along(o, x, s).x < x.x
  {
    var (wide, rest) := (x.x - o.x, 1.0 - s);
    SignOfProduct(rest, wide);
    assert rest * wide == x.x - Along(o, x, s).x;
  }

  /** Where the corner is not level with o, it makes a fan with the ray. */
  lemma CornerMakesFan(chain: seq<Vertex>, o: Point, edge: nat, x: Point, corner: nat, answer: nat)
      returns (left: bool, w: Point)
    requires IsInside(Places(chain), o) && IsAnswer(chain, o, edge, x, corner, answer) && chain[corner].at.y != o.y
    ensures IsInnerFan(left, Places(chain), o, x, chain[corner].at, w)
  {
    var (ring, next) := (Places(chain), After(edge, |chain|));
    var c := chain[corner].at;
    InsideWindsOnce(ring, o);
    w := if corner == edge then chain[next].at else chain[edge].at;
    left := c.y > o.y;
    EdgesOfCorner(ring, edge);
    assert ring[edge] == chain[edge].at && ring[next] == chain[next].at;
    hide IsInTheWay, NoSteeper, Along, Simple, WindsLeft, Winding, OnceAtMost, IsEdge;
    OnEdgeBack(chain[edge].at, chain[next].at, x);
    OnEdgeBox(chain[edge].at, chain[next].at, x);
    OffItself(ring, o, chain[edge].at, chain[next].at, x);
    hide OnEdge, OffRing;
    HeightOfSide(o, x, c);
    AllArePast(chain, o, edge, x);
    hide ComesFirstTo, Past, IsAnswer;
  }

  lemma AllArePast(chain: seq<Vertex>, o: Point, edge: nat, x: Point)
    requires ComesFirstTo(chain, o, edge, x) && x.x > o.x
    ensures forall u, v :: Joined(Places(chain), u, v) ==> Past(o, x, u, v)
  {
    hide Past, ComesFirstTo, Joined;
    forall u, v | Joined(Places(chain), u, v) ensures Past(o, x, u, v) {
      PastFirst(chain, o, edge, x, u, v);
    }
  }

  lemma OffItself(ring: seq<Point>, o: Point, u: Point, v: Point, x: Point)
    requires OffRing(ring, o) && IsEdge(ring, u, v) && OnEdge(u, v, x) && x.y == o.y && x.x >= o.x
    ensures x.x > o.x
  {
    hide IsEdge, OnEdge;
    assert x.x == o.x ==> x == o;
  }

  /** Nothing crosses the way to the answer where the corner is not level with the origin. */
  lemma ClearOffLevel(chain: seq<Vertex>, o: Point, edge: nat, x: Point, corner: nat, answer: nat)
    requires IsInside(Places(chain), o) && IsAnswer(chain, o, edge, x, corner, answer) && chain[corner].at.y != o.y
    ensures answer < |chain| && IsClearWay(Places(chain), o, chain[answer].at)
  {
    var (ring, c) := (Places(chain), chain[corner].at);
    var left, w := CornerMakesFan(chain, o, edge, x, corner, answer);
    AnswerInFan(left, chain, o, edge, x, corner, answer);
    hide IsInTheWay, NoSteeper, Along, Simple, WindsLeft, Winding, OnceAtMost, IsEdge, OnEdge, IsReflex, IsBlocked,
         Past, InFan, SquaredAngle, Side, Cross, InsideTriangle;
    var a := chain[answer].at;
    ClearIsNotBlocked(ring, o, a);
    if IsBlocked(ring, o, a) {
      var m := ReflexBelow(left, ring, o, x, c, w, a);
      SideTurns(left, c, o, a);
      SideTurns(left, o, x, c);
      SideTurns(left, c, o, o);
      FanBySides(left, o, x, c, a);
      AnglesBySide(left, o, x, c, a, ring[m]);
      FanIsTriangle(left, o, x, c, ring[m]);
      ReflexIsInTheWay(chain, o, x, corner, m);
      SteeperByAngle(o, a, ring[m]);
    }
  }

  lemma ReflexIsInTheWay(chain: seq<Vertex>, o: Point, x: Point, corner: nat, m: nat)
    requires corner < |chain| && m < |chain| && m != corner && chain[m].at != o
    requires InsideTriangle(o, x, chain[corner].at, chain[m].at) && IsReflex(Places(chain), m)
    ensures IsInTheWay(chain, o, x, corner, m)
  {
  }

  lemma AnswerInFan(left: bool, chain: seq<Vertex>, o: Point, edge: nat, x: Point, corner: nat, answer: nat)
    requires IsAnswer(chain, o, edge, x, corner, answer) && Side(left, o, x, chain[corner].at) > 0.0
    requires o !in Places(chain)
    ensures answer < |chain| && chain[answer].at != o && InFan(left, o, x, chain[corner].at, chain[answer].at)
  {
    hide ComesFirstTo, NoSteeper, Side, InsideTriangle;
    var (c, a) := (chain[corner].at, chain[answer].at);
    assert Places(chain)[answer] == a;
    FanIsTriangle(left, o, x, c, a);
    SideTurns(left, o, x, c);
    SideTurns(left, x, c, c);
    SideTurns(left, c, o, c);
    FanBySides(left, o, x, c, c);
  }

  // ----- where the corner is level with the origin -----

  /** A vertex level with o, other than the corner, at which the chain does not turn left; wherever it is. */
  predicate IsLevelReflex(chain: seq<Vertex>, o: Point, corner: nat, i: nat) {
    && i < |chain| && i != corner && chain[i].at != o && chain[i].at.y == o.y
    && Cross(chain[Before(i, |chain|)].at, chain[i].at, chain[After(i, |chain|)].at) <= 0.0
  }

  /** Then the triangle is flat, and the first such vertex in the chain is the answer. */
  lemma LevelAnswer(chain: seq<Vertex>, o: Point, edge: nat, x: Point, corner: nat, answer: nat)
    requires OffRing(Places(chain), o) && IsAnswer(chain, o, edge, x, corner, answer) && chain[corner].at.y == o.y
    ensures if IsLevelReflex(chain, o, corner, answer) then
              forall i: nat :: IsLevelReflex(chain, o, corner, i) ==> answer <= i
            else answer == corner && forall i: nat :: !IsLevelReflex(chain, o, corner, i)
  {
    hide ComesFirstTo, NoSteeper, InsideTriangle, Cross, IsLevelReflex, IsInTheWay;
    LevelCornerIsX(chain, o, edge, x, corner, answer);
    forall i: nat ensures IsInTheWay(chain, o, x, corner, i) <==> IsLevelReflex(chain, o, corner, i) {
      FlatTriangle(chain, o, corner, i);
    }
    forall i: nat, j: nat | IsLevelReflex(chain, o, corner, i) && IsLevelReflex(chain, o, corner, j)
      ensures i < |chain| && j < |chain| && NoSteeper(o, chain[i].at, chain[j].at)
    {
      LevelIsNoSteeper(chain, o, corner, i, j);
    }
  }

  lemma LevelIsNoSteeper(chain: seq<Vertex>, o: Point, corner: nat, i: nat, j: nat)
    requires IsLevelReflex(chain, o, corner, i) && IsLevelReflex(chain, o, corner, j)
    ensures i < |chain| && j < |chain| && NoSteeper(o, chain[i].at, chain[j].at)
  {
  }

  lemma LevelCornerIsX(chain: seq<Vertex>, o: Point, edge: nat, x: Point, corner: nat, answer: nat)
    requires OffRing(Places(chain), o) && IsAnswer(chain, o, edge, x, corner, answer) && chain[corner].at.y == o.y
    ensures x == chain[corner].at && x.x > o.x
  {
    var (ring, next) := (Places(chain), After(edge, |chain|));
    var (a, b) := (chain[edge].at, chain[next].at);
    EdgesOfCorner(ring, edge);
    assert ring[edge] == a && ring[next] == b;
    hide IsInTheWay, NoSteeper, IsEdge;
    OffItself(ring, o, a, b, x);
    LevelPoint(a, b, x);
  }

  /** An edge that is not level has one point at each height. */
  lemma LevelPoint(a: Point, b: Point, x: Point)
    requires OnEdge(a, b, x) && a.y != b.y
    ensures x.y == a.y ==> x == a
    ensures x.y == b.y ==> x == b
  {
    hide OnSegment;
    if x.y == a.y {
      assert Cross(a, b, x) == (b.y - a.y) * (a.x - x.x);
      if a.x != x.x { NoZeroFactor(b.y - a.y, a.x - x.x); }
    }
    if x.y == b.y {
      assert Cross(a, b, x) == (b.y - a.y) * (b.x - x.x);
      if b.x != x.x { NoZeroFactor(b.y - a.y, b.x - x.x); }
    }
  }

  lemma FlatTriangle(chain: seq<Vertex>, o: Point, corner: nat, i: nat)
    requires corner < |chain| && chain[corner].at.y == o.y && chain[corner].at.x > o.x
    ensures IsInTheWay(chain, o, chain[corner].at, corner, i) <==> IsLevelReflex(chain, o, corner, i)
  {
    if i < |chain| {
      FlatIsLine(o, chain[corner].at, chain[i].at);
    }
  }

  lemma FlatIsLine(o: Point, c: Point, p: Point)
    requires c.y == o.y && c.x > o.x
    ensures InsideTriangle(o, c, c, p) <==> p.y == o.y
  {
    HeightOfSide(o, c, p);
    CornerSides(c, c, p);
    assert Cross(c, o, p) == -Cross(o, c, p) && Cross(c, c, p) == 0.0;
  }

  /** An edge from below the height of o to above it, or back, stands between o and p. */
  ghost predicate IsWalled(ring: seq<Point>, o: Point, p: Point) {
    exists u, v, z :: IsEdge(ring, u, v) && IsWall(o, p, u, v, z)
  }

  predicate IsWall(o: Point, p: Point, u: Point, v: Point, z: Point) {
    && (u.y < o.y < v.y || v.y < o.y < u.y)
    && OnEdge(u, v, z) && z.y == o.y && (o.x < z.x < p.x || p.x < z.x < o.x)
  }

  lemma WallGoesThrough(o: Point, p: Point, u: Point, v: Point, z: Point)
    requires p.y == o.y && p.x != o.x
    ensures IsWall(o, p, u, v, z) <==> OppositeSides(o, p, u, v) && OnEdge(u, v, z) && OnWay(o, p, z)
  {
    LevelSides(o, p, u);
    LevelSides(o, p, v);
    hide Cross, OnEdge, OnWay;
    LevelWay(o, p, z);
  }

  lemma LevelWay(o: Point, p: Point, z: Point)
    requires p.y == o.y && p.x != o.x
    ensures OnWay(o, p, z) <==> z.y == o.y && (o.x < z.x < p.x || p.x < z.x < o.x)
  {
    var (wide, part) := (p.x - o.x, z.x - o.x);
    var s := part / wide;
    assert s * wide == part;
    SignsOfShare(s, wide, part);
    if z.y == o.y {
      assert z == Along(o, p, s);
    }
    forall t: real | 0.0 < t < 1.0 && z == Along(o, p, t)
      ensures z.y == o.y && (0.0 < part < wide || wide < part < 0.0)
    {
      SignsOfShare(t, wide, t * wide);
    }
  }

  lemma SignsOfShare(t: real, wide: real, part: real)
    requires wide != 0.0 && part == t * wide
    ensures 0.0 < t < 1.0 <==> (0.0 < part < wide || wide < part < 0.0)
  {
    var rest := 1.0 - t;
    SignOfProduct(t, wide);
    SignOfProduct(rest, wide);
    assert rest * wide == wide - part;
  }

  lemma LevelSides(o: Point, p: Point, u: Point)
    requires p.y == o.y && p.x != o.x
    ensures if p.x > o.x then (Cross(o, p, u) > 0.0 <==> u.y > o.y) && (Cross(o, p, u) < 0.0 <==> u.y < o.y)
            else (Cross(o, p, u) > 0.0 <==> u.y < o.y) && (Cross(o, p, u) < 0.0 <==> u.y > o.y)
  {
    var w := p.x - o.x;
    assert Cross(o, p, u) == (u.y - o.y) * w;
    SignOfProduct(u.y - o.y, w);
  }

  lemma ClearOnLevel(ring: seq<Point>, o: Point, p: Point)
    requires p.y == o.y && p.x != o.x
    ensures IsClearWay(ring, o, p) <==> !IsWalled(ring, o, p)
  {
    hide IsWall, OnWay, OnEdge, OppositeSides, IsEdge;
    ClearIsNotBlocked(ring, o, p);
    forall u, v, z
      ensures IsWall(o, p, u, v, z) <==> OppositeSides(o, p, u, v) && OnEdge(u, v, z) && OnWay(o, p, z)
    {
      WallGoesThrough(o, p, u, v, z);
    }
  }

  /** No wall stands before the point the ray comes to first. */
  lemma NoWallBefore(chain: seq<Vertex>, o: Point, edge: nat, x: Point)
    requires ComesFirstTo(chain, o, edge, x) && x.x > o.x
    ensures !IsWalled(Places(chain), o, x)
  {
    hide OnEdge;
    forall u, v, z | IsEdge(Places(chain), u, v) ensures !IsWall(o, x, u, v, z) {
      var i: nat :| EdgeAt(Places(chain), i, u, v);
      assert IsWall(o, x, u, v, z) ==> ComesToEdge(chain, o, i, z);
    }
  }

  /** There is one edge the ray comes to first, and it has one corner further right. */
  lemma AnswerIsOne(chain: seq<Vertex>, o: Point, edge: nat, x: Point, corner: nat, e: nat, y: Point, c: nat,
      answer: nat)
    requires IsAnswer(chain, o, edge, x, corner, answer) && IsAnswer(chain, o, e, y, c, answer)
    ensures edge == e && x == y && corner == c
  {
    hide IsInTheWay, NoSteeper;
    assert ComesToEdge(chain, o, edge, x) && ComesToEdge(chain, o, e, y);
    hide OnEdge;
  }

  /** The ray comes to the corner itself, which is level with o, and the answer is another vertex there. */
  ghost predicate IsPastCorner(chain: seq<Vertex>, o: Point, answer: nat) {
    exists edge: nat, x: Point, corner: nat ::
      && IsAnswer(chain, o, edge, x, corner, answer)
      && chain[corner].at.y == o.y && IsLevelReflex(chain, o, corner, answer)
  }

  lemma LevelCase(chain: seq<Vertex>, o: Point, edge: nat, x: Point, corner: nat, answer: nat)
    requires OffRing(Places(chain), o) && IsAnswer(chain, o, edge, x, corner, answer) && chain[corner].at.y == o.y
    ensures answer < |chain|
    ensures IsClearWay(Places(chain), o, chain[answer].at)
       <==> !(IsLevelReflex(chain, o, corner, answer) && IsWalled(Places(chain), o, chain[answer].at))
  {
    var ring := Places(chain);
    LevelAnswer(chain, o, edge, x, corner, answer);
    LevelCornerIsX(chain, o, edge, x, corner, answer);
    NoWallBefore(chain, o, edge, x);
    hide IsWalled, ComesFirstTo, NoSteeper, Cross, IsClearWay, OffRing, IsInTheWay;
    ClearOnLevel(ring, o, chain[answer].at);
  }

  lemma CornerInChain(chain: seq<Vertex>, o: Point, edge: nat, x: Point, corner: nat, answer: nat)
    requires IsAnswer(chain, o, edge, x, corner, answer)
    ensures corner < |chain|
  {
  }

  /**
   From a point inside a loop that does not touch itself there is an answer, and nothing crosses the way to it, but
   for one case: the ray comes to the corner itself, the answer is another vertex at that height, and a wall stands
   between. By LevelAnswer it is then the first in the chain that does not turn left there, wall or no wall.
   */
  lemma AnswerIsClearExactly(chain: seq<Vertex>, o: Point)
    requires IsInside(Places(chain), o)
    ensures var answer := VisibleFrom(chain, o);
            && answer.Some? && answer.value < |chain|
            && (IsClearWay(Places(chain), o, chain[answer.value].at)
                <==> !(IsPastCorner(chain, o, answer.value)
                       && IsWalled(Places(chain), o, chain[answer.value].at)))
  {
    hide IsLevelReflex, IsClearWay, IsWalled, IsAnswer, Simple, WindsLeft, OffRing;
    EnclosedHasAnswer(chain, o);
    VisibleFromIs(chain, o);
    VisibleFromInChain(chain, o);
    var answer := VisibleFrom(chain, o).value;
    var edge: nat, x: Point, corner: nat :| IsAnswer(chain, o, edge, x, corner, answer);
    CornerInChain(chain, o, edge, x, corner, answer);
    forall e: nat, y: Point, c: nat | IsAnswer(chain, o, e, y, c, answer) ensures c == corner {
      AnswerIsOne(chain, o, edge, x, corner, e, y, c, answer);
    }
    if chain[corner].at.y != o.y {
      ClearOffLevel(chain, o, edge, x, corner, answer);
    } else {
      LevelCase(chain, o, edge, x, corner, answer);
    }
  }

  /**
   So where no vertex is level with the origin nothing crosses the way, and the answer is seen - the segment has
   nothing in common with the loop but its end - exactly when it passes no other vertex.
   */
  lemma AnswerIsSeenExactly(chain: seq<Vertex>, o: Point)
    requires IsInside(Places(chain), o) && forall p :: p in Places(chain) ==> p.y != o.y
    ensures var answer := VisibleFrom(chain, o);
            && answer.Some? && answer.value < |chain|
            && IsClearWay(Places(chain), o, chain[answer.value].at)
            && (IsCut(Places(chain), o, chain[answer.value].at)
                <==> !PassesVertex(Places(chain), o, chain[answer.value].at))
  {
    hide IsClearWay, IsWalled, IsAnswer, Simple, WindsLeft, OffRing, IsCut, PassesVertex, IsLevelReflex;
    AnswerIsClearExactly(chain, o);
    InsideWindsOnce(Places(chain), o);
    var (ring, answer) := (Places(chain), VisibleFrom(chain, o).value);
    assert ring[answer] == chain[answer].at;
    forall edge: nat, x: Point, corner: nat | IsAnswer(chain, o, edge, x, corner, answer)
      ensures corner < |chain| && chain[corner].at.y != o.y
    {
      CornerInChain(chain, o, edge, x, corner, answer);
      assert ring[corner] == chain[corner].at;
    }
    ClearIsNotBlocked(ring, o, ring[answer]);
    if PassesVertex(ring, o, ring[answer]) {
      if IsCut(ring, o, ring[answer]) {
        CutPassesNoVertex(ring, o, ring[answer]);
      }
    } else {
      SeenIsCut(ring, answer, o);
    }
  }
}
