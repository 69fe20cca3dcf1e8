/** Clipping an ear at the bridge leaves two loops that touch, and clipping one where they touch leaves one loop. */
module HookClips {
  import opened Geometry
  import opened EdgeSums
  import opened RingMeasures
  import opened SegmentCrossing
  import opened SimpleLoops
  import opened SegmentWinding
  import opened Nearby
  import opened EarWinding
  import opened LowestVertex
  import opened CornerCuts
  import opened EdgeJumps
  import opened CornerSectors
  import opened Diagonals
  import opened TwoEars
  import opened HungLoops
  import opened HungEars
  import opened HookEars
  import opened HoleStages
  import opened HoleClips

  // ----- what lies between two edges -----

  /** The loop goes left and winds once around z, or it goes right and does not. */
  ghost predicate FillsTowards(o: seq<Point>, z: Point) {
    (WindsLeft(o) && Winding(o, z) == 1) || (WindsLeft(Reversed(o)) && Winding(o, z) == 0)
  }

  /** Then the edge from v to y[0] does not leave v between those to z and from y's end. */
  lemma NextIsNotBetween(v: Point, y: seq<Point>, z: Point)
    requires Simple([v] + y) && z !in [v] + y && ApartFrom([v] + y, v, z) && FillsTowards([v] + y, z)
    ensures !InWedge(y[|y| - 1], v, z, y[0])
  {
    hide IsEdge, EdgesApart, Winding, Cross, ApartFrom, Simple, WindsLeft;
    var o := [v] + y;
    SimpleIsDistinct(o);
    var (a, c) := (y[|y| - 1], y[0]);
    assert o[Before(0, |o|)] == a && o[After(0, |o|)] == c;
    CornerSides(a, v, c);
    CrossTurned(v, c, a);
    CrossTurned(v, z, c);
    if InWedge(a, v, z, c) {
      var q := BesideEdge(o, 0, z);
      WindsWithin(o, q);
    }
  }

  /** Nor does the edge from y's end come to v between those from z and to y[0]. */
  lemma PreviousIsNotBetween(v: Point, y: seq<Point>, z: Point)
    requires Simple([v] + y) && z !in [v] + y && ApartFrom([v] + y, v, z) && FillsTowards([v] + y, z)
    ensures !InWedge(z, v, y[0], y[|y| - 1])
  {
    hide IsEdge, EdgesApart, Winding, Cross, ApartFrom, Simple, WindsLeft;
    var o := [v] + y;
    SimpleIsDistinct(o);
    var (a, c, n) := (y[|y| - 1], y[0], |y|);
    var back := Reversed(o);
    assert back[n] == v && back[Before(n, n + 1)] == c && back[After(n, n + 1)] == a;
    CornerSides(z, v, a);
    CrossTurned(v, c, a);
    if InWedge(z, v, c, a) {
      SimpleReversed(o);
      SameVertices(o, 0, z);
      ApartFromReversed(o, v, z);
      var q := BesideEdge(back, n, z);
      WindingReversed(o, q);
      WindingReversed(o, z);
      WindsWithin(o, q);
    }
  }

  lemma ApartFromReversed(o: seq<Point>, v: Point, z: Point)
    requires ApartFrom(o, v, z)
    ensures ApartFrom(Reversed(o), v, z)
  {
    hide IsEdge, EdgesApart;
    forall p, q | IsEdge(Reversed(o), p, q) ensures p != q && EdgesApart(v, z, p, q) {
      EdgesReversed(o, p, q);
      ApartTurned(v, z, q, p);
    }
  }

  // ----- the cut of an ear whose tip is met twice -----

  /** The cut keeps apart from an edge at the tip that does not go in between the sides. */
  lemma CutPassesTip(a: Point, b: Point, c: Point, z: Point)
    requires Cross(a, b, c) > 0.0 && b != z && !InWedge(a, b, c, z)
    requires (z == a || EdgesApart(b, z, a, b)) && (z == c || EdgesApart(b, z, b, c))
    ensures EdgesApart(a, c, b, z)
  {
    hide Cross, Along, EdgesApart, OnSegment, InWedge;
    Proper(a, b, c);
    EndsAlong(a, c);
    forall s: real, t: real | MeetAt(a, c, b, z, s, t)
      ensures IsEnd(Along(a, c, s), a, c) && IsEnd(Along(a, c, s), b, z)
    {
      var x := Along(a, c, s);
      MeansOn(a, c, b, z, s, t);
      if s == 0.0 {
        EndIsOn(b, a);
        OnEdgeBack(b, a, a);
        if z != a {
          ApartShare(b, z, a, b, a);
        }
      } else if s == 1.0 {
        EndIsOn(b, c);
        if z != c {
          ApartShare(b, z, b, c, c);
        }
      } else {
        InWedgeOnCut(a, b, c, s);
        OutsideTheWedge(a, b, c, z, x);
      }
    }
    ApartBy(a, c, b, z);
  }

  lemma InWedgeOnCut(a: Point, b: Point, c: Point, s: real)
    requires Cross(a, b, c) > 0.0 && 0.0 < s < 1.0
    ensures InWedge(a, b, c, Along(a, c, s))
  {
    SideStarts(a, b, c, s);
  }

  /** The cut of an ear at a clean corner meets no edge but at common ends. */
  lemma CutOfCleanEar(ring: seq<Point>)
    requires Tame(ring) && CleanCorner(ring) && IsEarOf(ring, 0)
    requires !IsEdge(ring, ring[|ring| - 1], ring[1]) && !IsEdge(ring, ring[1], ring[|ring| - 1])
    ensures IsCut(ring, ring[|ring| - 1], ring[1])
  {
    hide IsEdge, EdgesApart, Cross, IsClearOf, InWedge;
    var (a, b, c) := (ring[|ring| - 1], ring[0], ring[1]);
    EdgesOfCorner(ring, 0);
    forall u, v | IsEdge(ring, u, v) ensures EdgesApart(a, c, u, v) {
      EndsAreVertices(ring, u, v);
      if u == b {
        TipEdgeKeepsApart(ring, v);
        CutPassesTip(a, b, c, v);
      } else if v == b {
        TipEdgeKeepsApart(ring, u);
        CutPassesTip(a, b, c, u);
        ApartTurned(a, c, b, u);
      } else {
        DiagonalIsApart(a, b, c, u, v);
      }
    }
  }

  lemma TipEdgeKeepsApart(ring: seq<Point>, z: Point)
    requires Tame(ring) && |ring| > 3 && (IsEdge(ring, ring[0], z) || IsEdge(ring, z, ring[0]))
    ensures var (a, b, c) := (ring[|ring| - 1], ring[0], ring[1]);
      b != z && (z == a || EdgesApart(b, z, a, b)) && (z == c || EdgesApart(b, z, b, c))
  {
    hide IsEdge, EdgesApart;
    var (a, b, c) := (ring[|ring| - 1], ring[0], ring[1]);
    EdgesOfCorner(ring, 0);
    if IsEdge(ring, z, b) {
      if z != a {
        ApartTurned(z, b, a, b);
      }
      if z != c {
        ApartTurned(z, b, b, c);
      }
    }
  }

  // ----- the corner at the hook -----

  /** At the hook v of v + g + v + y the ear from y's end over v to g has no edge between its sides. */
  lemma HookCornerIsClean(v: Point, g: seq<Point>, y: seq<Point>)
    requires Simple([v] + y) && AllOff(g, [v] + y) && |g| >= 2 && Cross(y[|y| - 1], v, g[0]) > 0.0
    requires ApartFrom([v] + y, v, g[0]) && FillsTowards([v] + y, g[0])
    requires !InWedge(y[|y| - 1], v, g[0], g[|g| - 1])
    ensures CleanCorner([v] + g + [v] + y)
  {
    hide IsEdge, EdgesApart, Winding, Cross, ApartFrom, WindsLeft, FillsTowards;
    var (ring, a, c) := ([v] + g + [v] + y, y[|y| - 1], g[0]);
    SimpleIsDistinct([v] + y);
    assert c in g;
    NextIsNotBetween(v, y, c);
    CornerSides(a, v, c);
    CornerSides(v, c, c);
    assert ring[0] == v && ring[1] == c && ring[|ring| - 1] == a;
    forall p, q | IsEdge(ring, p, q)
      ensures (p == v ==> !InWedge(a, v, c, q)) && (q == v ==> !InWedge(a, v, c, p))
    {
      if p == v || q == v {
        EdgesAtHook(v, g, y, p, q);
      }
    }
  }

  lemma FillsAsOneOfEach(r: seq<Point>, s: seq<Point>, i: nat, j: nat)
    requires Simple(r) && Simple(s) && RingsApart(r, s) && OnceTogether(r, s)
    requires i < |r| && j < |s| && r[i] !in s && s[j] !in r && Winding(r, s[j]) + Winding(s, r[i]) == 1
    ensures FillsTowards(s, r[i]) && FillsTowards(r, s[j])
  {
    hide IsEdge, EdgesApart, Winding, Simple, WindsLeft, RingsApart;
    OneOfEach(r, s, i, j);
  }

  // ----- an ear at the near end of the bridge -----

  lemma WindingOfBridge(v: Point, h: Point, x: seq<Point>, y: seq<Point>, q: Point)
    ensures Winding(BridgeRing(v, h, x, y), q) == Winding([h] + x, q) + Winding([v] + y, q)
  {
    hide Winding;
    var g := [h] + x + [h];
    WindingOfHung([], v, g, y, q);
    WindingOfLasso(v, h, x, q);
    assert [] + [v] + g + [v] + y == BridgeRing(v, h, x, y) && [] + [v] + y == [v] + y;
  }

  lemma WindingOfPinch(p: Point, x: seq<Point>, y: seq<Point>, q: Point)
    ensures Winding(PinchRing(p, x, y), q) == Winding([p] + x, q) + Winding([p] + y, q)
  {
    hide Winding;
    WindingOfHung([], p, x, y, q);
    assert [] + [p] + x + [p] + y == PinchRing(p, x, y) && [] + [p] + y == [p] + y;
  }

  /** The ring's winding, less the triangle's where one is clipped at the start. */
  lemma WindingLessEar(ring: seq<Point>, q: Point)
    requires |ring| > 3 && IsEarOf(ring, 0)
    ensures Winding(ring, q) - 1 <= Winding(Without(ring, 0), q) <= Winding(ring, q)
    ensures IsOutside(ring[|ring| - 1], ring[0], ring[1], q) ==> Winding(Without(ring, 0), q) == Winding(ring, q)
  {
    hide Winding, TriangleSum, WindingTerm, Cross, IsOutside;
    EarTurns(ring, 0);
    WindingWithout(ring, 0, q);
    WindingOfTriangle(q, ring[|ring| - 1], ring[0], ring[1]);
    if IsOutside(ring[|ring| - 1], ring[0], ring[1], q) {
      NotInEar(ring[|ring| - 1], ring[0], ring[1], q);
    }
  }

  /** An edge of the outer loop, the bridge, or a cut that keeps apart from the inner loop. */
  ghost predicate IsOuterOrCut(v: Point, h: Point, x: seq<Point>, y: seq<Point>, a: Point, b: Point) {
    IsEdge([v] + y, a, b) || (a == h && b == v) || (a == v && b == h) || IsCut([h] + x, a, b)
  }

  /** What the outer loop becomes when the triangle over the bridge is taken from it. */
  ghost predicate TakesInBridge(v: Point, h: Point, x: seq<Point>, y: seq<Point>, wide: seq<Point>) {
    && x != [] && |wide| > 1 && wide[0] == h && (forall z :: z in wide <==> z == h || z in [v] + y)
    && Simple(wide) && (forall a, b :: IsEdge(wide, a, b) ==> IsOuterOrCut(v, h, x, y, a, b))
    && (forall q: Point :: Winding(wide, q) <= Winding([v] + y, q))
    && Winding(wide, x[0]) == Winding([v] + y, x[0])
    && (forall z :: z in x ==> z != h)
  }

  lemma BridgeIsTakenIn(v: Point, h: Point, x: seq<Point>, y: seq<Point>, wide: seq<Point>)
    requires Linked(v, h, x, y) && TakesInBridge(v, h, x, y, wide) && wide[1] in [v] + y
    ensures Pinched(h, x, wide[1..])
  {
    hide IsEdge, EdgesApart, Winding, Simple, IsCut, Distinct;
    var (r, o, rest) := ([h] + x, [v] + y, wide[1..]);
    assert [h] + rest == wide;
    SimpleIsDistinct(r);
    SimpleIsDistinct(o);
    assert r[1] == x[0] && x[0] in x && r[0] == h && h in r && o[0] == v;
    CutBack(r, v, h);
    forall a, b, c, d | IsEdge(r, a, b) && IsEdge(wide, c, d) ensures EdgesApart(a, b, c, d) {
      InnerVsWide(v, h, x, y, wide, a, b, c, d);
    }
    ApartBothWays(r, o);
    forall k | 0 <= k <= 1 ensures r[k] !in o {
      assert r[k] in r;
    }
    WindingAlongOther(o, r, 0, 1);
    forall z | z in x ensures z !in wide {
      assert z in r;
    }
    OffBothWays(h, v, x, y);
    var k: nat :| k < |o| && o[k] == wide[1];
    forall i | 0 <= i <= k ensures o[i] !in r {
      assert o[i] in o;
      assert i > 0 ==> o[i] == y[i - 1] && y[i - 1] in y;
    }
    WindingAlongOther(r, o, 0, k);
  }

  lemma InnerVsWide(v: Point, h: Point, x: seq<Point>, y: seq<Point>, wide: seq<Point>, a: Point, b: Point, c: Point,
      d: Point)
    requires Linked(v, h, x, y) && TakesInBridge(v, h, x, y, wide) && IsEdge([h] + x, a, b) && IsEdge(wide, c, d)
    ensures EdgesApart(a, b, c, d)
  {
    hide IsEdge, EdgesApart, Winding, Simple, Distinct;
    CutBack([h] + x, v, h);
    if !IsEdge([v] + y, c, d) {
      ApartTurned(c, d, a, b);
    }
  }

  lemma BridgeParts(v: Point, h: Point, x: seq<Point>, y: seq<Point>)
    requires Linked(v, h, x, y)
    ensures |x| >= 2 && |y| >= 2 && Distinct([h] + x) && Distinct([v] + y)
    ensures Tame(BridgeRing(v, h, x, y)) && AllOff([h] + x + [h], [v] + y) && AllOff([v] + y, [h] + x)
    ensures ApartFrom([v] + y, v, h) && FillsTowards([v] + y, h)
  {
    hide IsEdge, EdgesApart, Winding, Simple, WindsLeft, Tame, FillsTowards;
    var (r, o) := ([h] + x, [v] + y);
    SimpleIsDistinct(r);
    SimpleIsDistinct(o);
    BridgeIsTame(v, h, x, y);
    assert r[0] == h && h in r && o[0] == v;
    OffBothWays(h, v, x, y);
    forall a, b | IsEdge(o, a, b) ensures a != b && EdgesApart(v, h, a, b) {
      EdgesAreProper(o, a, b);
    }
    FillsAsOneOfEach(r, o, 0, 0);
  }

  /** An edge of the ring is no edge from the inner loop to the outer one but the bridge. */
  lemma NoEdgeBetween(v: Point, h: Point, x: seq<Point>, y: seq<Point>, a: Point)
    requires x != [] && y != [] && AllOff([h] + x + [h], [v] + y) && AllOff([v] + y, [h] + x) && a in y && a != v
    ensures !IsEdge(BridgeRing(v, h, x, y), a, h) && !IsEdge(BridgeRing(v, h, x, y), h, a)
  {
    hide IsEdge;
    var (ring, r, o) := (BridgeRing(v, h, x, y), [h] + x, [v] + y);
    assert a in o && h in [h] + x + [h];
    if IsEdge(ring, a, h) {
      BridgeEdges(v, h, x, y, a, h);
      EndsInEither(r, o, a, h);
    }
    if IsEdge(ring, h, a) {
      BridgeEdges(v, h, x, y, h, a);
      EndsInEither(r, o, h, a);
    }
  }

  lemma EndsInEither(r: seq<Point>, o: seq<Point>, a: Point, b: Point)
    ensures IsEdge(r, a, b) ==> a in r && b in r
    ensures IsEdge(o, a, b) ==> a in o && b in o
  {
  }

  lemma InnerEdgesOfBridge(v: Point, h: Point, x: seq<Point>, y: seq<Point>, a: Point, b: Point)
    requires x != [] && IsEdge([h] + x, a, b)
    ensures IsEdge(BridgeRing(v, h, x, y), a, b)
  {
    var (ring, r) := (BridgeRing(v, h, x, y), [h] + x);
    var i: nat :| EdgeAt(r, i, a, b);
    assert EdgeAt(ring, i + 1, a, b);
  }

  lemma CutOfInner(v: Point, h: Point, x: seq<Point>, y: seq<Point>, a: Point, b: Point)
    requires x != [] && IsCut(BridgeRing(v, h, x, y), a, b)
    ensures IsCut([h] + x, a, b)
  {
    hide IsEdge, EdgesApart;
    forall p, q | IsEdge([h] + x, p, q) ensures EdgesApart(a, b, p, q) {
      InnerEdgesOfBridge(v, h, x, y, p, q);
    }
  }

  /** Edges of h, v, y. */
  lemma EdgesOfWideStart(v: Point, h: Point, y: seq<Point>, a: Point, b: Point)
    requires y != [] && IsEdge([h, v] + y, a, b)
    ensures IsEdge([v] + y, a, b) || (a == h && b == v) || (a == y[|y| - 1] && b == h)
  {
    var wide := [h, v] + y;
    var i: nat :| EdgeAt(wide, i, a, b);
    if 0 < i < |wide| - 1 {
      assert EdgeAt([v] + y, i - 1, a, b);
    }
  }

  lemma OuterEdgesOfBridge(v: Point, h: Point, x: seq<Point>, y: seq<Point>, a: Point, b: Point)
    requires y != [] && (IsEdge([v] + y, a, b) || (a == h && b == v) || (a == v && b == h))
    ensures IsEdge(BridgeRing(v, h, x, y), a, b)
  {
    var (ring, m) := (BridgeRing(v, h, x, y), |x| + 3);
    if IsEdge([v] + y, a, b) {
      var i: nat :| EdgeAt([v] + y, i, a, b);
      assert EdgeAt(ring, i + m, a, b);
    } else if a == h {
      assert EdgeAt(ring, m - 1, a, b);
    } else {
      assert EdgeAt(ring, 0, a, b);
    }
  }

  /** The ear from y's end over the near end of the bridge. */
  lemma LinkedClipsStart(v: Point, h: Point, x: seq<Point>, y: seq<Point>)
    requires Linked(v, h, x, y) && IsEarOf(BridgeRing(v, h, x, y), 0)
    ensures Pinched(h, x, [v] + y) && Without(BridgeRing(v, h, x, y), 0) == PinchRing(h, x, [v] + y)
  {
    hide IsEdge, EdgesApart, Winding, Simple, IsCut, Cross, IsClearOf, Tame, CleanCorner, FillsTowards, ApartFrom,
         IsOutside, Linked, InWedge, IsCutOff;
    BridgeParts(v, h, x, y);
    var (ring, a, wide, g) := (BridgeRing(v, h, x, y), y[|y| - 1], [h, v] + y, [h] + x + [h]);
    assert ring[0] == v && ring[1] == h && ring[|ring| - 1] == a && a in y;
    EarTurns(ring, 0);
    HookTurnsBack(a, v, h);
    OuterIsSimple(v, h, x, y);
    HookCornerIsClean(v, g, y);
    PathIsDistinct(v, y);
    NoEdgeBetween(v, h, x, y, a);
    CutOfCleanEar(ring);
    WideIsCutOff(v, h, x, y);
    CutOffIsSimple(ring, wide, a, h);
    CutOfInner(v, h, x, y, a, h);
    var left := Without(ring, 0);
    assert left == PinchRing(h, x, [v] + y) && [h] + ([v] + y) == wide;
    forall q: Point ensures Winding(wide, q) <= Winding([v] + y, q) {
      WideWindsLess(v, h, x, y, left, [v] + y, q);
    }
    PathIsDistinct(h, x);
    assert x[0] in g && x[0] in x && a in [v] + y && v in [v] + y && x[0] in ring;
    LastIsOutsideEar(ring, x[0]);
    WideWindsLess(v, h, x, y, left, [v] + y, x[0]);
    forall p, q | IsEdge(wide, p, q) ensures IsOuterOrCut(v, h, x, y, p, q) {
      EdgesOfWideStart(v, h, y, p, q);
    }
    BridgeIsTakenIn(v, h, x, y, wide);
    assert wide[1..] == [v] + y;
  }

  lemma OuterIsSimple(v: Point, h: Point, x: seq<Point>, y: seq<Point>)
    requires Linked(v, h, x, y)
    ensures Simple([v] + y)
  {
  }

  lemma HookTurnsBack(a: Point, v: Point, h: Point)
    ensures !InWedge(a, v, h, h) && !InWedge(h, v, a, h)
  {
    CornerSides(v, h, h);
    CornerSides(h, v, a);
  }

  lemma WideIsCutOff(v: Point, h: Point, x: seq<Point>, y: seq<Point>)
    requires |y| >= 2 && Distinct([v] + y) && h !in [v] + y && IsCut(BridgeRing(v, h, x, y), y[|y| - 1], h)
    ensures IsCutOff(BridgeRing(v, h, x, y), [h, v] + y, y[|y| - 1], h)
  {
    hide IsEdge, EdgesApart;
    var (ring, wide, o) := (BridgeRing(v, h, x, y), [h, v] + y, [v] + y);
    assert wide == [h] + o;
    assert forall i :: 0 <= i < |o| ==> o[i] in o;
    assert y[|y| - 1] in y;
    forall p, q | IsEdge(wide, p, q) ensures (p == y[|y| - 1] && q == h) || IsEdge(ring, p, q) {
      EdgesOfWideStart(v, h, y, p, q);
      if !(p == y[|y| - 1] && q == h) {
        OuterEdgesOfBridge(v, h, x, y, p, q);
      }
    }
  }

  /** What is left, read as two loops that touch at h, tells how the widened outer loop winds. */
  lemma WideWindsLess(v: Point, h: Point, x: seq<Point>, y: seq<Point>, left: seq<Point>, rest: seq<Point>, q: Point)
    requires IsEarOf(BridgeRing(v, h, x, y), 0) && left == Without(BridgeRing(v, h, x, y), 0)
    requires left == PinchRing(h, x, rest)
    ensures Winding([h] + rest, q) <= Winding([v] + y, q)
    ensures var ring := BridgeRing(v, h, x, y);
      IsOutside(ring[|ring| - 1], ring[0], ring[1], q) ==> Winding([h] + rest, q) == Winding([v] + y, q)
  {
    hide Winding, IsEarOf, IsOutside;
    WindingOfBridge(v, h, x, y, q);
    WindingOfPinch(h, x, rest, q);
    WindingLessEar(BridgeRing(v, h, x, y), q);
  }

  // ----- an ear at the near end of the bridge, on the way back -----

  /** Edges of h, y, v. */
  lemma EdgesOfWideEnd(v: Point, h: Point, y: seq<Point>, a: Point, b: Point)
    requires y != [] && IsEdge([h] + y + [v], a, b)
    ensures IsEdge([v] + y, a, b) || (a == v && b == h) || (a == h && b == y[0])
  {
    var wide := [h] + y + [v];
    var i: nat :| EdgeAt(wide, i, a, b);
    if 0 < i < |wide| - 1 {
      assert EdgeAt([v] + y, i, a, b);
    }
  }

  lemma WideEndIsCutOff(v: Point, h: Point, x: seq<Point>, y: seq<Point>)
    requires |y| >= 2 && Distinct([v] + y) && h !in [v] + y && IsCut(BridgeRing(v, h, x, y), h, y[0])
    ensures IsCutOff(BridgeRing(v, h, x, y), [h] + y + [v], h, y[0])
  {
    hide IsEdge, EdgesApart;
    var (ring, wide, o) := (BridgeRing(v, h, x, y), [h] + y + [v], [v] + y);
    assert forall i :: 0 <= i < |o| ==> o[i] in o;
    forall i | 0 < i < |wide| ensures wide[i] == o[if i == |wide| - 1 then 0 else i] {
    }
    assert y[0] in y;
    forall p, q | IsEdge(wide, p, q) ensures (p == h && q == y[0]) || IsEdge(ring, p, q) {
      EdgesOfWideEnd(v, h, y, p, q);
      if !(p == h && q == y[0]) {
        OuterEdgesOfBridge(v, h, x, y, p, q);
      }
    }
  }

  /** The ring from its second visit to v. */
  function FromTheWayBack(v: Point, h: Point, x: seq<Point>, y: seq<Point>): seq<Point> {
    [v] + y + [v] + ([h] + x + [h])
  }

  lemma WayBackIsTurned(v: Point, h: Point, x: seq<Point>, y: seq<Point>)
    ensures FromTheWayBack(v, h, x, y) == Rotated(BridgeRing(v, h, x, y), |x| + 3)
  {
  }

  lemma WayBackIsClean(v: Point, h: Point, x: seq<Point>, y: seq<Point>)
    requires Linked(v, h, x, y) && IsEarOf(FromTheWayBack(v, h, x, y), 0)
    ensures Tame(FromTheWayBack(v, h, x, y)) && CleanCorner(FromTheWayBack(v, h, x, y))
  {
    hide IsEdge, EdgesApart, Winding, Simple, Cross, IsClearOf, Tame, FillsTowards, ApartFrom, IsOutside, Linked,
         InWedge;
    BridgeParts(v, h, x, y);
    var (ring, turned, g) := (BridgeRing(v, h, x, y), FromTheWayBack(v, h, x, y), [h] + x + [h]);
    WayBackIsTurned(v, h, x, y);
    TameRotated(ring, |x| + 3);
    EarTurns(turned, 0);
    OuterIsSimple(v, h, x, y);
    assert turned[0] == v && turned[1] == y[0] && turned[|turned| - 1] == h && h in g;
    PreviousIsNotBetween(v, y, h);
    NotBetweenItself(h, v, y[0]);
    forall p, q | IsEdge(turned, p, q)
      ensures (p == v ==> !InWedge(h, v, y[0], q)) && (q == v ==> !InWedge(h, v, y[0], p))
    {
      EdgesRotated(ring, |x| + 3, p, q);
      if p == v || q == v {
        EdgesAtHook(v, g, y, p, q);
      }
    }
  }

  lemma NotBetweenItself(a: Point, b: Point, c: Point)
    ensures !InWedge(a, b, c, a) && !InWedge(a, b, c, c)
  {
    CornerSides(a, b, c);
    CornerSides(b, c, a);
  }

  /** The ear from the near end of the bridge, on the way back, to the start of y. */
  lemma LinkedClipsBack(v: Point, h: Point, x: seq<Point>, y: seq<Point>)
    requires Linked(v, h, x, y) && IsEarOf(FromTheWayBack(v, h, x, y), 0)
    ensures Pinched(h, x, y + [v])
    ensures Rotated(Without(FromTheWayBack(v, h, x, y), 0), |y| + 1) == PinchRing(h, x, y + [v])
  {
    hide IsEdge, EdgesApart, Winding, Simple, IsCut, Cross, IsClearOf, Tame, CleanCorner, FillsTowards, ApartFrom,
         IsOutside, Linked, InWedge, IsCutOff;
    BridgeParts(v, h, x, y);
    var (ring, turned, wide, c) := (BridgeRing(v, h, x, y), FromTheWayBack(v, h, x, y), [h] + y + [v], y[0]);
    assert turned[0] == v && turned[1] == c && turned[|turned| - 1] == h && c in y;
    WayBackIsTurned(v, h, x, y);
    WayBackIsClean(v, h, x, y);
    PathIsDistinct(v, y);
    PathIsDistinct(h, x);
    NoEdgeBetween(v, h, x, y, c);
    EdgesRotated(ring, |x| + 3, h, c);
    EdgesRotated(ring, |x| + 3, c, h);
    CutOfCleanEar(turned);
    CutTurned(ring, |x| + 3, h, c);
    assert h in [h] + x + [h];
    WideEndIsCutOff(v, h, x, y);
    CutOffIsSimple(ring, wide, h, c);
    CutOfInner(v, h, x, y, h, c);
    var left := Without(turned, 0);
    assert Rotated(left, |y| + 1) == PinchRing(h, x, y + [v]) && [h] + (y + [v]) == wide;
    forall q: Point ensures Winding(wide, q) <= Winding([v] + y, q) {
      WideEndWindsLess(v, h, x, y, q);
    }
    assert x[0] in [h] + x + [h] && x[0] in x && c in [v] + y && v in [v] + y;
    assert x[0] in turned;
    LastIsOutsideEar(turned, x[0]);
    WideEndWindsLess(v, h, x, y, x[0]);
    forall p, q | IsEdge(wide, p, q) ensures IsOuterOrCut(v, h, x, y, p, q) {
      EdgesOfWideEnd(v, h, y, p, q);
    }
    BridgeIsTakenIn(v, h, x, y, wide);
    assert wide[1..] == y + [v];
  }

  lemma LastIsOutsideEar(ring: seq<Point>, z: Point)
    requires |ring| > 3 && IsEarOf(ring, 0) && z in ring
    requires z != ring[0] && z != ring[1] && z != ring[|ring| - 1]
    ensures IsOutside(ring[|ring| - 1], ring[0], ring[1], z)
  {
  }

  lemma CutTurned(ring: seq<Point>, k: nat, a: Point, b: Point)
    requires k <= |ring| && IsCut(Rotated(ring, k), a, b)
    ensures IsCut(ring, a, b)
  {
    hide IsEdge, EdgesApart;
    forall p, q | IsEdge(ring, p, q) ensures EdgesApart(a, b, p, q) {
      EdgesRotated(ring, k, p, q);
    }
  }

  lemma WideEndWindsLess(v: Point, h: Point, x: seq<Point>, y: seq<Point>, q: Point)
    requires y != [] && IsEarOf(FromTheWayBack(v, h, x, y), 0)
    ensures Winding([h] + y + [v], q) <= Winding([v] + y, q)
    ensures IsOutside(h, v, y[0], q) ==> Winding([h] + y + [v], q) == Winding([v] + y, q)
  {
    hide Winding, IsEarOf, IsOutside;
    var (ring, turned) := (BridgeRing(v, h, x, y), FromTheWayBack(v, h, x, y));
    var left := Without(turned, 0);
    assert turned[0] == v && turned[1] == y[0] && turned[|turned| - 1] == h;
    WayBackIsTurned(v, h, x, y);
    WindingRotated(ring, |x| + 3, q);
    WindingOfBridge(v, h, x, y, q);
    assert Rotated(left, |y| + 1) == PinchRing(h, x, y + [v]) && [h] + (y + [v]) == [h] + y + [v];
    WindingRotated(left, |y| + 1, q);
    WindingOfPinch(h, x, y + [v], q);
    WindingLessEar(turned, q);
  }
}
