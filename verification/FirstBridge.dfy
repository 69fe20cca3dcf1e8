/**
 Bridging one hole inside a simple loop: some bridge passes the test, and whichever passes makes a stage of the chain.
 */
module FirstBridge {
  import opened Options
  import opened Geometry
  import opened EdgeSums
  import opened RingMeasures
  import opened SegmentCrossing
  import opened Clipping
  import opened StableSort
  import opened Bridging
  import opened BridgeLaws
  import opened Triangulation
  import opened SimpleLoops
  import opened SegmentWinding
  import opened Nearby
  import opened EarWinding
  import opened LowestVertex
  import opened CornerCuts
  import opened EdgeJumps
  import opened Diagonals
  import opened TwoEars
  import opened HungLoops
  import opened HungEars
  import opened HoleStages
  import opened ChainStages
  import opened RaySight

  /** No edge of one loop has a point in common with an edge of the other. */
  ghost predicate KeepApart(r: seq<Point>, s: seq<Point>) {
    forall a, b, c, d :: IsEdge(r, a, b) && IsEdge(s, c, d) ==> !SegmentsMeet(a, b, c, d)
  }

  /** A simple loop on its way left, a simple one on its way right, and no point in common. */
  ghost predicate IsRegion(outer: seq<Point>, inner: seq<Point>) {
    && Simple(outer) && WindsLeft(outer) && Simple(inner) && WindsLeft(Reversed(inner)) && KeepApart(outer, inner)
  }

  lemma RegionIsApart(outer: seq<Point>, inner: seq<Point>)
    requires IsRegion(outer, inner)
    ensures RingsApart(inner, outer) && AllOff(inner, outer) && OnceTogether(inner, outer)
    ensures forall z :: z in inner ==> OffRing(outer, z)
  {
    hide IsEdge, Simple, WindsLeft, Winding;
    SimpleIsDistinct(inner);
    SimpleIsDistinct(outer);
    forall a, b, c, d | IsEdge(inner, a, b) && IsEdge(outer, c, d) ensures EdgesApart(a, b, c, d) {
      MeetingIsMutual(a, b, c, d);
    }
    forall z | z in inner ensures OffRing(outer, z) {
      VertexIsOff(outer, inner, z);
    }
    forall z | z in inner ensures z !in outer {
      if z in outer {
        var i: nat :| i < |outer| && outer[i] == z;
        EdgesOfCorner(outer, i);
        StartIsOn(z, outer[After(i, |outer|)]);
      }
    }
    forall p: Point ensures Winding(inner, p) + Winding(outer, p) <= 1 {
      WindsWithin(inner, p);
      WindsWithin(outer, p);
    }
  }

  lemma StartIsOn(a: Point, b: Point)
    ensures OnEdge(a, b, a)
  {
    EndIsOn(b, a);
    OnEdgeBack(a, b, a);
  }

  lemma VertexIsOff(outer: seq<Point>, inner: seq<Point>, z: Point)
    requires KeepApart(outer, inner) && Distinct(outer) && |outer| > 1 && z in inner
    ensures OffRing(outer, z)
  {
    hide IsEdge, OnEdge, Along;
    var i: nat :| i < |inner| && inner[i] == z;
    var next := inner[After(i, |inner|)];
    EdgesOfCorner(inner, i);
    forall u, v | IsEdge(outer, u, v) ensures !OnEdge(u, v, z) {
      EdgesAreProper(outer, u, v);
      if OnEdge(u, v, z) {
        EndOnMeets(u, v, z, next);
      }
    }
  }

  /** An end of a segment on another makes them meet. */
  lemma EndOnMeets(u: Point, v: Point, z: Point, next: Point)
    requires u != v && OnEdge(u, v, z)
    ensures SegmentsMeet(u, v, z, next)
  {
    hide OnEdge, Along;
    var t := FractionOn(u, v, z);
    EndsAlong(z, next);
    assert MeetAt(u, v, z, next, t, 0.0);
  }

  // ----- the bridge test and cuts -----

  lemma CutMeetsNothing(from: Point, to: Point, ring: seq<Vertex>, skip: nat)
    requires IsCut(Places(ring), from, to)
    ensures MeetsNothing(from, to, ring, skip)
  {
    hide IsEdge, SegmentsMeet, EdgesApart;
    var places := Places(ring);
    forall i | 0 <= i < |ring| && i != skip && After(i, |ring|) != skip ensures ApartAt(from, to, ring, i) {
      EdgesOfCorner(places, i);
      ApartShareEnds(from, to, places[i], places[After(i, |ring|)]);
    }
  }

  lemma ApartShareEnds(a: Point, b: Point, c: Point, d: Point)
    requires EdgesApart(a, b, c, d)
    ensures SegmentsMeet(a, b, c, d) ==> ShareAnEnd(a, b, c, d)
  {
    hide Along;
    if s: real, t: real :| MeetAt(a, b, c, d, s, t) {
      assert IsEnd(Along(a, b, s), a, b) && IsEnd(Along(a, b, s), c, d);
    }
  }

  /** A segment from the rightmost vertex of the inner loop to the right meets that loop nowhere else. */
  lemma RightwardIsCut(inner: seq<Point>, e: nat, w: Point)
    requires Simple(inner) && e < |inner| && w.x > inner[e].x && forall z :: z in inner ==> z.x <= inner[e].x
    ensures IsCut(inner, inner[e], w) && w !in inner
  {
    hide IsEdge, OnEdge, EdgesApart, Along;
    var h := inner[e];
    SimpleIsTame(inner);
    EndsAlong(h, w);
    forall u, v | IsEdge(inner, u, v) ensures EdgesApart(h, w, u, v) {
      EndsAreVertices(inner, u, v);
      forall s: real, t: real | MeetAt(h, w, u, v, s, t)
        ensures IsEnd(Along(h, w, s), h, w) && IsEnd(Along(h, w, s), u, v)
      {
        MeansOn(h, w, u, v, s, t);
        OnEdgeBox(u, v, Along(h, w, s));
        OnlyTheStart(h, w, s);
        VertexOnEdge(inner, e, u, v);
      }
      ApartBy(h, w, u, v);
    }
  }

  lemma OnlyTheStart(h: Point, w: Point, s: real)
    requires w.x > h.x && IsFraction(s)
    ensures Along(h, w, s).x <= h.x ==> Along(h, w, s) == h
  {
    EndsAlong(h, w);
    var d := w.x - h.x;
    SignOfProduct(s, d);
    assert Along(h, w, s).x == h.x + s * d;
  }

  /** The middle of it is wound around as its ends are. */
  lemma MiddleOfSight(outer: seq<Point>, inner: seq<Point>, e: nat, w: Point)
    requires IsRegion(outer, inner) && e < |inner| && w in outer && w.x > inner[e].x
    requires forall z :: z in inner ==> z.x <= inner[e].x
    requires IsCut(outer, inner[e], w)
    ensures Winding(outer, Along(inner[e], w, 0.5)) == Winding(outer, inner[e])
    ensures Winding(inner, Along(inner[e], w, 0.5)) == 0
  {
    hide IsEdge, EdgesApart, Along, Winding, Simple, WindsLeft, KeepApart, RingsApart, OnceTogether, IsCut;
    var h := inner[e];
    RegionIsApart(outer, inner);
    EndsAlong(h, w);
    assert h in inner;
    CutKeepsOff(outer, h, w);
    WindingOnEdge(outer, h, w, 0.0, 0.5);
    RightwardIsCut(inner, e, w);
    CutKeepsOff(inner, h, w);
    WindingOnEdge(inner, h, w, 1.0, 0.5);
    RightOfAll(inner, w);
  }

  lemma CutKeepsOff(ring: seq<Point>, h: Point, w: Point)
    requires Simple(ring) && IsCut(ring, h, w)
    ensures ApartFrom(ring, h, w)
  {
    hide IsEdge, EdgesApart;
    forall u, v | IsEdge(ring, u, v) ensures u != v && EdgesApart(h, w, u, v) {
      EdgesAreProper(ring, u, v);
    }
  }

  /** To the right of all its vertices a ring does not wind. */
  lemma RightOfAll(ring: seq<Point>, p: Point)
    requires forall z :: z in ring ==> z.x < p.x
    ensures Winding(ring, p) == 0
  {
    hide Winding, Turn, IsEdge;
    WindingExact(ring, p);
    var none := (u: Point, v: Point) => 0.0;
    forall u, v | IsEdge(ring, u, v) ensures WindingTerm(p)(u, v) - none(u, v) == 0.0 {
      EndsAreVertices(ring, u, v);
      NoTurnRightOf(p, u, v);
    }
    CyclePotential(WindingTerm(p), none, (u: Point) => 0, ring);
    NoWeight(ring);
  }

  lemma NoTurnRightOf(p: Point, u: Point, v: Point)
    requires u.x < p.x && v.x < p.x
    ensures Turn(p, u, v) == 0
  {
    hide XAt;
    if Straddles(u, v, p.y) {
      CrossingIsAt(u, v, p.y);
      AtHeightIsOn(u, v, p.y);
      OnEdgeBox(u, v, Point(XAt(u, v, p.y), p.y));
    }
  }

  // ----- some bridge passes -----

  /** The chain and the hole as the first bridge finds them. */
  ghost predicate ReadyToBridge(chain: seq<Vertex>, hole: seq<Vertex>) {
    && hole != [] && IsRegion(Places(chain), Places(hole))
    && (forall i: nat :: i < |chain| ==> Free(chain, i))
    && Winding(Places(chain), hole[RightmostIndex(hole)].at) == 1
  }

  lemma SightPasses(chain: seq<Vertex>, hole: seq<Vertex>, i: nat)
    requires ReadyToBridge(chain, hole) && i < |chain|
    requires chain[i].at.x > hole[RightmostIndex(hole)].at.x
    requires IsCut(Places(chain), hole[RightmostIndex(hole)].at, chain[i].at)
    ensures Passes(chain, hole, RightmostIndex(hole), i)
  {
    hide IsEdge, EdgesApart, Along, Winding, Simple, WindsLeft, KeepApart, IsCut, Free, Reaches, MeetsNothing,
         RightmostIndex;
    var (outer, inner, e) := (Places(chain), Places(hole), RightmostIndex(hole));
    var (from, to) := (hole[e].at, chain[i].at);
    assert outer[i] == to && inner[e] == from;
    forall z | z in inner ensures z.x <= from.x {
      var j: nat :| j < |inner| && inner[j] == z;
    }
    MiddleOfSight(outer, inner, e, to);
    CutMeetsNothing(from, to, chain, i);
    RightwardIsCut(inner, e, to);
    CutMeetsNothing(from, to, hole, e);
    ReachesExactlyWhenClear(chain, hole, e, i);
  }

  /** One hole inside the chain, of which no vertex is used yet: the bridge taken is one that passes. */
  lemma SomeBridgePasses(chain: seq<Vertex>, hole: seq<Vertex>)
    requires ReadyToBridge(chain, hole)
    ensures var target := BridgeTarget(chain, hole);
            target.Some? && Passes(chain, hole, RightmostIndex(hole), target.value)
  {
    hide IsEdge, EdgesApart, Winding, Simple, WindsLeft, KeepApart, IsCut, Free, Reaches, Passes, RightmostIndex,
         BridgeTarget, RingsApart, OnceTogether, OffRing;
    var (outer, inner, e) := (Places(chain), Places(hole), RightmostIndex(hole));
    assert inner[e] == hole[e].at;
    RegionIsApart(outer, inner);
    var w := VisibleVertex(outer, inner[e]);
    var i: nat :| i < |outer| && outer[i] == w;
    SightPasses(chain, hole, i);
    BridgeTargetPassesIfAnyDoes(chain, hole);
  }

  // ----- a bridge that passes makes a stage -----

  /** A bridge that passes shares nothing with the edges beside its ends either. */
  lemma PassingIsCut(ring: seq<Vertex>, k: nat, from: Point, to: Point)
    requires Simple(Places(ring)) && k < |ring| && from != to && to == ring[k].at && OffRing(Places(ring), from)
    requires MeetsNothing(from, to, ring, k)
    ensures IsCut(Places(ring), from, to)
  {
    hide IsEdge, EdgesApart, OnEdge, SegmentsMeet, MeetsNothing, Along;
    var places := Places(ring);
    SimpleIsDistinct(places);
    assert places[k] == to;
    forall u, v | IsEdge(places, u, v) ensures EdgesApart(from, to, u, v) {
      var i := IndexOfEdge(places, u, v);
      EdgesAreProper(places, u, v);
      if u == to {
        BesideTarget(ring, k, from, u, v);
      } else if v == to {
        BesideTarget(ring, k, from, v, u);
        ApartTurned(from, to, v, u);
      } else {
        AwayFromTarget(ring, k, from, to, i);
      }
    }
  }

  lemma IndexOfEdge(ring: seq<Point>, u: Point, v: Point) returns (i: nat)
    requires IsEdge(ring, u, v)
    ensures EdgeAt(ring, i, u, v)
  {
    i :| EdgeAt(ring, i, u, v);
  }

  lemma AwayFromTarget(ring: seq<Vertex>, k: nat, from: Point, to: Point, i: nat)
    requires k < |ring| && i < |ring| && to == ring[k].at && OffRing(Places(ring), from)
    requires MeetsNothing(from, to, ring, k) && ring[i].at != to && ring[After(i, |ring|)].at != to
    ensures !SegmentsMeet(from, to, ring[i].at, ring[After(i, |ring|)].at)
    ensures EdgesApart(from, to, ring[i].at, ring[After(i, |ring|)].at)
  {
    hide IsEdge, OnEdge, Along;
    var places := Places(ring);
    EdgesOfCorner(places, i);
    assert ApartAt(from, to, ring, i);
    StartIsOn(places[i], places[After(i, |ring|)]);
    EndIsOn(places[i], places[After(i, |ring|)]);
  }

  /** The edge from the target to w: neither end of it or of the bridge is within the other. */
  lemma BesideTarget(ring: seq<Vertex>, k: nat, from: Point, to: Point, w: Point)
    requires Simple(Places(ring)) && k < |ring| && from != to && to == ring[k].at && OffRing(Places(ring), from)
    requires MeetsNothing(from, to, ring, k)
    requires IsEdge(Places(ring), to, w) || IsEdge(Places(ring), w, to)
    ensures EdgesApart(from, to, to, w)
  {
    hide IsEdge, EdgesApart, OnEdge, MeetsNothing, Along, OffRing;
    var places := Places(ring);
    SimpleIsDistinct(places);
    NeighbourIsOff(ring, k, from, to, w);
    FromIsOff(places, from, to, w);
    forall s: real, t: real | MeetAt(from, to, to, w, s, t)
      ensures IsEnd(Along(from, to, s), from, to) && IsEnd(Along(from, to, s), to, w)
    {
      SharedBeyond(from, to, w, s, t);
    }
    ApartBy(from, to, to, w);
  }

  lemma FromIsOff(places: seq<Point>, from: Point, to: Point, w: Point)
    requires OffRing(places, from) && (IsEdge(places, to, w) || IsEdge(places, w, to))
    ensures !OnEdge(to, w, from)
  {
    hide OnEdge;
    OnEdgeBack(to, w, from);
  }

  /** The neighbour of the target has another edge, which the bridge does not meet. */
  lemma NeighbourIsOff(ring: seq<Vertex>, k: nat, from: Point, to: Point, w: Point)
    requires Simple(Places(ring)) && k < |ring| && to == ring[k].at && OffRing(Places(ring), from)
    requires MeetsNothing(from, to, ring, k) && from != to
    requires IsEdge(Places(ring), to, w) || IsEdge(Places(ring), w, to)
    ensures w != to && !OnEdge(from, to, w)
  {
    hide EdgesApart, OnEdge, MeetsNothing, OffRing, SegmentsMeet, IsEdge, Simple;
    var places := Places(ring);
    SimpleIsDistinct(places);
    assert places[k] == to;
    var z: Point;
    if IsEdge(places, to, w) {
      EdgesAtCorner(places, k, to, w);
      z := BeyondNext(ring, k, from, to);
    } else {
      EdgesAtCorner(places, k, w, to);
      z := BeyondPrevious(ring, k, from, to);
    }
    if OnEdge(from, to, w) {
      EndOnMeets(from, to, w, z);
    }
  }

  lemma BeyondNext(ring: seq<Vertex>, k: nat, from: Point, to: Point) returns (z: Point)
    requires |ring| >= 3 && Distinct(Places(ring)) && k < |ring| && to == ring[k].at && OffRing(Places(ring), from)
    requires MeetsNothing(from, to, ring, k)
    ensures var w := ring[After(k, |ring|)].at; w != to && !SegmentsMeet(from, to, w, z)
  {
    hide OnEdge, MeetsNothing, OffRing, SegmentsMeet;
    var (places, n) := (Places(ring), |ring|);
    var i := After(k, n);
    assert places[i] != places[k] && places[After(i, n)] != places[k];
    z := ring[After(i, n)].at;
    AwayFromTarget(ring, k, from, to, i);
  }

  lemma BeyondPrevious(ring: seq<Vertex>, k: nat, from: Point, to: Point) returns (z: Point)
    requires |ring| >= 3 && Distinct(Places(ring)) && k < |ring| && to == ring[k].at && OffRing(Places(ring), from)
    requires MeetsNothing(from, to, ring, k)
    ensures var w := ring[Before(k, |ring|)].at; w != to && !SegmentsMeet(from, to, w, z)
  {
    hide OnEdge, MeetsNothing, OffRing, SegmentsMeet;
    var (places, n) := (Places(ring), |ring|);
    var j := Before(k, n);
    var i := Before(j, n);
    assert After(i, n) == j;
    assert places[i] != places[k] && places[j] != places[k];
    z := ring[i].at;
    AwayFromTarget(ring, k, from, to, i);
    MeetingIsMutual(from, to, z, ring[j].at);
  }

  /** Two segments from one end share more only if one has the other's far end on it. */
  lemma SharedBeyond(from: Point, to: Point, w: Point, s: real, t: real)
    requires from != to && to != w && MeetAt(from, to, to, w, s, t)
    requires !OnEdge(to, w, from) && !OnEdge(from, to, w)
    ensures Along(from, to, s) == to
  {
    hide OnSegment, Cross, Along;
    EndsAlong(from, to);
    EndsAlong(to, w);
    if Along(from, to, s) != to {
      var r := 1.0 - s;
      Backwards(from, to, s);
      OnItsOwnLine(to, w, t);
      CrossIsAffine(to, w, to, from, r);
      CornerSides(to, w, w);
      NoZeroFactorHere(r, Cross(to, w, from), Cross(to, w, to));
      NearerOne(to, from, w, r, t);
    }
  }

  lemma NoZeroFactorHere(r: real, x: real, y: real)
    requires y == 0.0
    ensures (1.0 - r) * y + r * x == 0.0 && r != 0.0 ==> x == 0.0
  {
    if r * x == 0.0 && r != 0.0 {
      NoZeroFactor(x, r);
    }
  }

  lemma NearerOne(b: Point, a: Point, c: Point, r: real, t: real)
    requires b != a && b != c && Cross(b, c, a) == 0.0 && IsFraction(r) && IsFraction(t) && r > 0.0
    requires Along(b, a, r) == Along(b, c, t)
    ensures OnEdge(b, c, a) || OnEdge(a, b, c)
  {
    var m := FractionOf(b, c, a);
    SameRay(b, c, m, r, t);
    hide Cross, Along, OnSegment;
    WhereAlong(b, c, r * m, t);
    if r * m == t {
      if m <= 1.0 {
        NotNegativeFactor(r, m);
        PointsAreOn(b, c, m);
      } else {
        var k := 1.0 / m;
        assert k * m == 1.0;
        BackAlong(b, c, m, k);
        Ratio(1.0, m);
        PointIsOn(b, a, k);
        OnEdgeBack(a, b, c);
      }
    }
  }

  lemma SameRay(b: Point, c: Point, m: real, r: real, t: real)
    ensures Along(b, Along(b, c, m), r) == Along(b, c, r * m)
  {
    PartWay(b, c, m, r);
  }

  // ----- the stage -----

  lemma PassingMakesBridge(chain: seq<Vertex>, hole: seq<Vertex>, at: nat)
    requires ReadyToBridge(chain, hole) && Passes(chain, hole, RightmostIndex(hole), at)
    ensures var (outer, inner, e) := (Places(chain), Places(hole), RightmostIndex(hole));
      Linked(outer[at], inner[e], Rotated(inner, e)[1..], Rotated(outer, at)[1..])
  {
    hide IsEdge, EdgesApart, Along, Winding, Simple, WindsLeft, KeepApart, IsCut, Free, Reaches, MeetsNothing,
         RightmostIndex, OffRing, RingsApart, OnceTogether, ApartFrom;
    var (outer, inner, e) := (Places(chain), Places(hole), RightmostIndex(hole));
    var (v, h) := (outer[at], inner[e]);
    RegionIsApart(outer, inner);
    assert h in inner && v in outer;
    ReachesExactlyWhenClear(chain, hole, e, at);
    PassingIsCut(chain, at, h, v);
    OtherWayIsOff(outer, inner, v);
    MeetsNothingBack(h, v, hole, e);
    PassingIsCut(hole, e, v, h);
    CutBack(outer, h, v);
    BridgeWinds(outer, inner, v, h);
    LinkedFrom(outer, inner, at, e);
  }

  lemma MeetsNothingBack(from: Point, to: Point, ring: seq<Vertex>, k: nat)
    requires MeetsNothing(from, to, ring, k)
    ensures MeetsNothing(to, from, ring, k)
  {
    hide SegmentsMeet;
    forall i | 0 <= i < |ring| && i != k && After(i, |ring|) != k ensures ApartAt(to, from, ring, i) {
      var (a, b) := (ring[i].at, ring[After(i, |ring|)].at);
      assert ApartAt(from, to, ring, i);
      MeetingIsMutual(to, from, a, b);
      MeetingIsMutual(a, b, to, from);
      MeetingIsMutual(a, b, from, to);
    }
  }

  lemma OtherWayIsOff(outer: seq<Point>, inner: seq<Point>, v: Point)
    requires IsRegion(outer, inner) && v in outer
    ensures OffRing(inner, v)
  {
    hide IsEdge, Simple, WindsLeft, OnEdge;
    SimpleIsDistinct(inner);
    forall a, b, c, d | IsEdge(inner, a, b) && IsEdge(outer, c, d) ensures !SegmentsMeet(a, b, c, d) {
      MeetingIsMutual(a, b, c, d);
    }
    VertexIsOff(inner, outer, v);
  }

  /** The middle of the bridge is inside the chain and outside the hole, so h is inside and v is outside. */
  lemma BridgeWinds(outer: seq<Point>, inner: seq<Point>, v: Point, h: Point)
    requires IsRegion(outer, inner) && v in outer && h in inner && v !in inner && h !in outer && v != h
    requires IsCut(outer, h, v) && IsCut(inner, v, h)
    requires Winding(outer, Along(h, v, 0.5)) % 2 == 1 && Winding(inner, Along(h, v, 0.5)) % 2 == 0
    ensures Winding(inner, v) + Winding(outer, h) == 1
  {
    hide IsEdge, EdgesApart, Along, Winding, Simple, WindsLeft, KeepApart, ApartFrom, IsCut;
    var m := Along(h, v, 0.5);
    EndsAlong(h, v);
    CutKeepsOff(outer, h, v);
    WindingOnEdge(outer, h, v, 0.0, 0.5);
    EndsAlong(v, h);
    Backwards(h, v, 0.5);
    CutKeepsOff(inner, v, h);
    WindingOnEdge(inner, v, h, 0.0, 0.5);
    WindsWithin(outer, m);
    WindsWithin(inner, m);
  }

  lemma LinkedFrom(outer: seq<Point>, inner: seq<Point>, at: nat, e: nat)
    requires Simple(outer) && Simple(inner) && at < |outer| && e < |inner| && RingsApart(inner, outer)
    requires AllOff(inner, outer) && OnceTogether(inner, outer)
    requires IsCut(outer, outer[at], inner[e]) && IsCut(inner, outer[at], inner[e])
    requires Winding(inner, outer[at]) + Winding(outer, inner[e]) == 1
    ensures Linked(outer[at], inner[e], Rotated(inner, e)[1..], Rotated(outer, at)[1..])
  {
    hide IsEdge, EdgesApart, Winding, Simple;
    var (v, h, r, o) := (outer[at], inner[e], Rotated(inner, e), Rotated(outer, at));
    assert r == [h] + r[1..] && o == [v] + o[1..];
    SimpleRotated(inner, e);
    SimpleRotated(outer, at);
    forall a, b ensures IsEdge(r, a, b) <==> IsEdge(inner, a, b) {
      EdgesRotated(inner, e, a, b);
    }
    forall a, b ensures IsEdge(o, a, b) <==> IsEdge(outer, a, b) {
      EdgesRotated(outer, at, a, b);
    }
    forall z ensures (z in r <==> z in inner) && (z in o <==> z in outer) {
      SameVertices(inner, e, z);
      SameVertices(outer, at, z);
    }
    forall p: Point ensures Winding(r, p) == Winding(inner, p) && Winding(o, p) == Winding(outer, p) {
      WindingRotated(inner, e, p);
      WindingRotated(outer, at, p);
    }
  }

  /** The chain with the hole bridged in is a stage. */
  lemma BridgeMakesStage(chain: seq<Vertex>, hole: seq<Vertex>)
    requires ReadyToBridge(chain, hole)
    ensures Bridge(chain, hole).Some? && IsStage(Places(Bridge(chain, hole).value))
  {
    hide Passes, BridgeTarget, RightmostIndex, Linked, ReadyToBridge, IsStage, BridgeRing;
    SomeBridgePasses(chain, hole);
    var (at, e) := (BridgeTarget(chain, hole).value, RightmostIndex(hole));
    var (outer, inner) := (Places(chain), Places(hole));
    PassingMakesBridge(chain, hole, at);
    PassesInRange(chain, hole, e, at);
    PlacesOfSpliced(chain, at, hole, e);
    var (x, y) := (Rotated(inner, e)[1..], Rotated(outer, at)[1..]);
    BridgeIsStage(outer[at], inner[e], x, y);
    SplicedIsTurned(outer, at, inner, e);
    StageUnrotated(Spliced(outer, at, inner, e), at);
  }

  lemma PassesInRange(chain: seq<Vertex>, hole: seq<Vertex>, e: nat, at: nat)
    requires e < |hole| && Passes(chain, hole, e, at)
    ensures at < |chain|
  {
  }

  lemma SplicedIsTurned(outer: seq<Point>, at: nat, inner: seq<Point>, e: nat)
    requires at < |outer| && e < |inner|
    ensures at <= |Spliced(outer, at, inner, e)|
    ensures Rotated(Spliced(outer, at, inner, e), at)
         == BridgeRing(outer[at], inner[e], Rotated(inner, e)[1..], Rotated(outer, at)[1..])
  {
    var ring := Spliced(outer, at, inner, e);
    assert ring == outer[..at] + ([outer[at]] + Rotated(inner, e) + [inner[e], outer[at]] + outer[at + 1..]);
  }
}
