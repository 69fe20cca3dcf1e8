/** A chain with one hole bridged in never stalls: at every stage there is an ear, and clipping it leads to a stage. */
module ChainStages {
  import opened Geometry
  import opened EdgeSums
  import opened RingMeasures
  import opened SegmentCrossing
  import opened SimpleLoops
  import opened SegmentWinding
  import opened Nearby
  import opened EarWinding
  import opened LowestVertex
  import opened CornerCuts
  import opened EdgeJumps
  import opened Diagonals
  import opened TwoEars
  import opened HungLoops
  import opened HungEars
  import opened HookEars
  import opened HoleStages
  import opened HoleClips
  import opened HookClips

  // ----- an ear where the loops touch -----

  lemma PinchParts(p: Point, x: seq<Point>, y: seq<Point>)
    requires Pinched(p, x, y)
    ensures |x| >= 2 && |y| >= 2 && Distinct([p] + x) && Distinct([p] + y) && Simple([p] + x) && Simple([p] + y)
    ensures Tame(PinchRing(p, x, y)) && AllOff(y, [p] + x)
    ensures ApartFrom([p] + y, p, x[0]) && FillsTowards([p] + y, x[0])
    ensures ApartFrom([p] + x, p, y[|y| - 1]) && FillsTowards([p] + x, y[|y| - 1])
  {
    hide IsEdge, EdgesApart, Winding, Simple, WindsLeft, Tame, RingsApart, FillsTowards;
    var (r, o) := ([p] + x, [p] + y);
    SimpleIsDistinct(r);
    SimpleIsDistinct(o);
    PinchIsTame(p, x, y);
    OffBothWays(p, p, x, y);
    assert r[0] == p && r[1] == x[0] && o[0] == p && o[1] == y[0] && o[|y|] == y[|y| - 1] && x[0] in x && y[0] in y;
    ApartBothWays(r, o);
    EdgesOfCorner(r, 0);
    KeepsApart(o, r, p, x[0]);
    EdgesOfCorner(o, 0);
    KeepsApart(r, o, y[|y| - 1], p);
    TurnsApart(r, y[|y| - 1], p);
    FillsAsOneOfEach(r, o, 1, 1);
    forall k | 1 <= k <= |y| ensures o[k] !in r {
      assert o[k] == y[k - 1] && y[k - 1] in y;
    }
    WindingAlongOther(r, o, 1, |y|);
    FillsAlike(r, y[0], y[|y| - 1]);
  }

  lemma TurnsApart(r: seq<Point>, a: Point, b: Point)
    requires ApartFrom(r, a, b)
    ensures ApartFrom(r, b, a)
  {
    hide IsEdge, EdgesApart;
    forall p, q | IsEdge(r, p, q) ensures p != q && EdgesApart(b, a, p, q) {
      ApartTurned(a, b, p, q);
    }
  }

  lemma FillsAlike(r: seq<Point>, a: Point, b: Point)
    requires FillsTowards(r, a) && Winding(r, a) == Winding(r, b)
    ensures FillsTowards(r, b)
  {
  }

  lemma NoEdgeAcrossPinch(p: Point, x: seq<Point>, y: seq<Point>, a: Point, b: Point)
    requires x != [] && y != [] && AllOff(x, [p] + y) && AllOff(y, [p] + x) && a in y && b in x
    ensures !IsEdge(PinchRing(p, x, y), a, b) && !IsEdge(PinchRing(p, x, y), b, a)
  {
    hide IsEdge;
    var (ring, r, o) := (PinchRing(p, x, y), [p] + x, [p] + y);
    if IsEdge(ring, a, b) {
      PinchEdges(p, x, y, a, b);
      EndsInEither(r, o, a, b);
    }
    if IsEdge(ring, b, a) {
      PinchEdges(p, x, y, b, a);
      EndsInEither(r, o, b, a);
    }
  }

  lemma LeftIsCutOff(ring: seq<Point>)
    requires |ring| > 3 && Distinct(Without(ring, 0)) && IsCut(ring, ring[|ring| - 1], ring[1])
    ensures IsCutOff(ring, Without(ring, 0), ring[|ring| - 1], ring[1])
  {
    hide IsEdge, EdgesApart;
    var left := Without(ring, 0);
    assert left[0] == ring[1] && left[|left| - 1] == ring[|ring| - 1];
    forall p, q | IsEdge(left, p, q) ensures (p == ring[|ring| - 1] && q == ring[1]) || IsEdge(ring, p, q) {
      EdgesOfLeft(ring, p, q);
    }
  }

  lemma EdgesOfLeft(ring: seq<Point>, p: Point, q: Point)
    requires |ring| > 3 && IsEdge(Without(ring, 0), p, q)
    ensures (p == ring[|ring| - 1] && q == ring[1]) || IsEdge(ring, p, q)
  {
    var left := Without(ring, 0);
    var i: nat :| EdgeAt(left, i, p, q);
    if i < |left| - 1 {
      assert EdgeAt(ring, i + 1, p, q);
    }
  }

  /** The ear over the vertex where the loops touch: one simple loop is left. */
  lemma PinchedClipsTip(p: Point, x: seq<Point>, y: seq<Point>)
    requires Pinched(p, x, y) && IsEarOf(PinchRing(p, x, y), 0)
    ensures Simple(Without(PinchRing(p, x, y), 0)) && WindsLeft(Without(PinchRing(p, x, y), 0))
  {
    hide IsEdge, EdgesApart, Winding, Simple, IsCut, Cross, IsClearOf, Tame, CleanCorner, FillsTowards, ApartFrom,
         IsOutside, InWedge, IsCutOff, WindsLeft, RingsApart;
    PinchParts(p, x, y);
    var (ring, a, c) := (PinchRing(p, x, y), y[|y| - 1], x[0]);
    var left := Without(ring, 0);
    assert ring[0] == p && ring[1] == c && ring[|ring| - 1] == a && a in y && c in x;
    EarTurns(ring, 0);
    assert a !in [p] + x;
    PreviousIsNotBetween(p, x, a);
    HookCornerIsClean(p, x, y);
    NoEdgeAcrossPinch(p, x, y, a, c);
    CutOfCleanEar(ring);
    assert left == x + [p] + y;
    LeftIsDistinct(p, x, y);
    LeftIsCutOff(ring);
    CutOffIsSimple(ring, left, a, c);
    LeftOrRight(left);
    if !WindsLeft(left) {
      LeftIsNotRight(p, x, y);
    }
  }

  lemma LeftIsDistinct(p: Point, x: seq<Point>, y: seq<Point>)
    requires Distinct([p] + x) && Distinct([p] + y) && AllOff(x, [p] + y) && AllOff(y, [p] + x)
    ensures Distinct(x + [p] + y)
  {
    var (r, o, left) := ([p] + x, [p] + y, x + [p] + y);
    assert left == x + o && left == Rotated(r, 1) + y;
    forall i, j | 0 <= i < j < |left| ensures left[i] != left[j] {
      if j <= |x| {
        InDistinct(Rotated(r, 1), i, j);
      } else if i >= |x| {
        InDistinct(o, i - |x|, j - |x|);
      } else {
        assert left[i] == x[i] && x[i] in x && left[j] == o[j - |x|] && o[j - |x|] in o;
      }
    }
  }

  lemma InDistinct(s: seq<Point>, i: nat, j: nat)
    requires Distinct(s) && i < j < |s|
    ensures s[i] != s[j]
  {
  }

  /** The triangle clipped, as a loop. */
  function EarLoop(ring: seq<Point>): seq<Point>
    requires |ring| > 3
  {
    [ring[|ring| - 1], ring[0], ring[1]]
  }

  lemma WindingOfEar(ring: seq<Point>, q: Point)
    requires |ring| > 3 && IsEarOf(ring, 0)
    ensures Winding(ring, q) == Winding(Without(ring, 0), q) + Winding(EarLoop(ring), q)
    ensures IsOutside(ring[|ring| - 1], ring[0], ring[1], q) ==> Winding(EarLoop(ring), q) == 0
  {
    hide Winding, TriangleSum, WindingTerm, Cross, IsOutside;
    EarTurns(ring, 0);
    WindingWithout(ring, 0, q);
    WindingExact(EarLoop(ring), q);
    CycleSumOfTriangle(WindingTerm(q), ring[|ring| - 1], ring[0], ring[1]);
    if IsOutside(ring[|ring| - 1], ring[0], ring[1], q) {
      NotInEar(ring[|ring| - 1], ring[0], ring[1], q);
    }
  }

  lemma EdgesOfTriangle(a: Point, b: Point, c: Point, p: Point, q: Point)
    requires IsEdge([a, b, c], p, q)
    ensures (p == a && q == b) || (p == b && q == c) || (p == c && q == a)
  {
  }

  /** The edge from x[0] to x[1] keeps apart from the triangle clipped at p, and x[1] is outside that. */
  lemma EarLoopKeepsApart(p: Point, x: seq<Point>, y: seq<Point>)
    requires Pinched(p, x, y) && IsEarOf(PinchRing(p, x, y), 0) && IsCut(PinchRing(p, x, y), y[|y| - 1], x[0])
    requires |x| >= 2 && |y| >= 2 && Tame(PinchRing(p, x, y)) && AllOff(y, [p] + x) && Distinct([p] + x)
    ensures ApartFrom(EarLoop(PinchRing(p, x, y)), x[0], x[1]) && x[1] !in EarLoop(PinchRing(p, x, y))
    ensures Winding(EarLoop(PinchRing(p, x, y)), x[1]) == 0 && x[0] != x[1]
  {
    hide EdgesApart, Winding, Cross, IsClearOf, IsOutside, Pinched;
    var (ring, a, c, d) := (PinchRing(p, x, y), y[|y| - 1], x[0], x[1]);
    var r := [p] + x;
    assert ring[0] == p && ring[1] == c && ring[2] == d && ring[|ring| - 1] == a && a in y;
    assert r[0] == p && r[1] == c && r[2] == d && d in r;
    LastIsOutsideEar(ring, d);
    WindingOfEar(ring, d);
    EdgesOfCorner(ring, 0);
    EdgesOfCorner(ring, 1);
    forall u, v | IsEdge(EarLoop(ring), u, v) ensures u != v && EdgesApart(c, d, u, v) {
      EdgesOfTriangle(a, p, c, u, v);
      if u == c && v == a {
        ApartTurned(a, c, c, d);
        ApartTurned(c, d, a, c);
      }
    }
  }

  /** Beside the edge from x[0] to x[1] the rings wind as the two loops there do. */
  lemma LeftIsNotRight(p: Point, x: seq<Point>, y: seq<Point>)
    requires Pinched(p, x, y) && IsEarOf(PinchRing(p, x, y), 0) && IsCut(PinchRing(p, x, y), y[|y| - 1], x[0])
    requires Simple(Without(PinchRing(p, x, y), 0))
    ensures !WindsLeft(Reversed(Without(PinchRing(p, x, y), 0)))
  {
    hide IsEdge, EdgesApart, Winding, Simple, IsCut, Cross, Tame, ApartFrom, IsOutside, WindsLeft, RingsApart, OnEdge,
         SegmentsMeet, IsEarOf, Along;
    PinchParts(p, x, y);
    var (ring, r, o, c, d) := (PinchRing(p, x, y), [p] + x, [p] + y, x[0], x[1]);
    var (left, ear) := (Without(ring, 0), EarLoop(ring));
    EarLoopKeepsApart(p, x, y);
    assert r[1] == c && r[2] == d && c in x && d in x && left[0] == c && left[1] == d && o[1] == y[0];
    EdgesOfCorner(r, 1);
    ApartBothWays(r, o);
    KeepsApart(o, r, c, d);
    EndsAlong(c, d);
    WindingOnEdge(o, c, d, 0.0, 0.5);
    WindingOnEdge(ear, c, d, 1.0, 0.5);
    ApartIsOff(o, c, d, 0.5);
    ApartIsOff(ear, c, d, 0.5);
    var m := Along(c, d, 0.5);
    var edges := EdgesOf(o) + EdgesOf(ear);
    forall e | e in edges ensures !OnEdge(e.0, e.1, m) {
      assert e in EdgesOf(o) ==> IsEdge(o, e.0, e.1);
      assert e in EdgesOf(ear) ==> IsEdge(ear, e.0, e.1);
    }
    var right, beyond := JumpAcross(left, 0, edges);
    WindsAsAtMiddle(o, m, right, beyond, edges);
    WindsAsAtMiddle(ear, m, right, beyond, edges);
    WindingOfEar(ring, right);
    WindingOfEar(ring, beyond);
    WindingOfPinch(p, x, y, right);
    WindingOfPinch(p, x, y, beyond);
    OffBothWays(p, p, x, y);
    assert y[0] in y;
    OneOfEach(r, o, 1, 1);
    WindsWithin(r, right);
    WindsWithin(r, beyond);
    WindsWithin(left, right);
    WindsWithin(left, beyond);
  }

  lemma WindsAsAtMiddle(r: seq<Point>, m: Point, right: Point, left: Point, edges: seq<(Point, Point)>)
    requires forall e :: e in EdgesOf(r) ==> e in edges
    requires forall e :: e in edges ==> !SegmentsMeet(m, right, e.0, e.1) && !SegmentsMeet(m, left, e.0, e.1)
    ensures Winding(r, right) == Winding(r, m) == Winding(r, left)
  {
    hide IsEdge, Winding, SegmentsMeet;
    forall u, v | IsEdge(r, u, v) ensures !SegmentsMeet(m, right, u, v) && !SegmentsMeet(m, left, u, v) {
      assert (u, v) in EdgesOf(r);
    }
    WindingAlong(r, m, right);
    WindingAlong(r, m, left);
  }

  // ----- stages, wherever the ring starts -----

  ghost predicate IsPinched(ring: seq<Point>) {
    exists k: nat, p: Point, x: seq<Point>, y: seq<Point> :: PinchedAt(ring, k, p, x, y)
  }

  ghost predicate PinchedAt(ring: seq<Point>, k: nat, p: Point, x: seq<Point>, y: seq<Point>) {
    k <= |ring| && Rotated(ring, k) == PinchRing(p, x, y) && Pinched(p, x, y)
  }

  ghost predicate IsLinked(ring: seq<Point>) {
    exists k: nat, v: Point, h: Point, x: seq<Point>, y: seq<Point> :: LinkedAt(ring, k, v, h, x, y)
  }

  ghost predicate LinkedAt(ring: seq<Point>, k: nat, v: Point, h: Point, x: seq<Point>, y: seq<Point>) {
    k <= |ring| && Rotated(ring, k) == BridgeRing(v, h, x, y) && Linked(v, h, x, y)
  }

  ghost predicate IsStage(ring: seq<Point>) {
    (Simple(ring) && WindsLeft(ring)) || IsPinched(ring) || IsLinked(ring)
  }

  lemma RotatedTwice<T>(ring: seq<T>, i: nat, j: nat)
    requires i <= |ring| && j <= |ring|
    ensures var k := if i + j <= |ring| then i + j else i + j - |ring|;
      k <= |ring| && Rotated(Rotated(ring, i), j) == Rotated(ring, k)
  {
  }

  lemma StageUnrotated(ring: seq<Point>, i: nat)
    requires i <= |ring| && IsStage(Rotated(ring, i))
    ensures IsStage(ring)
  {
    hide Pinched, Linked, Simple, StartsLeft;
    var (n, turned) := (|ring|, Rotated(ring, i));
    if Simple(turned) && WindsLeft(turned) {
      assert Rotated(turned, n - i) == ring;
      SimpleRotated(turned, n - i);
      var k :| 0 <= k < n && StartsLeft(Rotated(turned, k));
      RotatedTwice(ring, i, k);
      if i + k == n {
        assert Rotated(ring, n) == ring == Rotated(ring, 0);
      }
    } else if IsPinched(turned) {
      var k: nat, p: Point, x: seq<Point>, y: seq<Point> :| PinchedAt(turned, k, p, x, y);
      RotatedTwice(ring, i, k);
      assert PinchedAt(ring, if i + k <= n then i + k else i + k - n, p, x, y);
    } else {
      var k: nat, v: Point, h: Point, x: seq<Point>, y: seq<Point> :| LinkedAt(turned, k, v, h, x, y);
      RotatedTwice(ring, i, k);
      assert LinkedAt(ring, if i + k <= n then i + k else i + k - n, v, h, x, y);
    }
  }

  /** Clipping commutes with the choice of a start. */
  lemma WithoutRotated(ring: seq<Point>, r: nat, k: nat)
    requires r <= |ring| && k < |ring|
    ensures var i := if k >= r then k - r else k + |ring| - r;
      var s := if r <= k then r else r - 1;
      && i < |ring| && s <= |ring| - 1 && Without(Rotated(ring, r), i) == Rotated(Without(ring, k), s)
  {
  }

  lemma EarRotated(ring: seq<Point>, r: nat, k: nat)
    requires r <= |ring| && k < |ring| && IsEarOf(ring, k)
    ensures var i := if k >= r then k - r else k + |ring| - r; i < |ring| && IsEarOf(Rotated(ring, r), i)
  {
    hide IsClearOf, Cross;
    var (n, turned) := (|ring|, Rotated(ring, r));
    var i := if k >= r then k - r else k + n - r;
    assert turned[i] == ring[k] && turned[Before(i, n)] == ring[Before(k, n)] && turned[After(i, n)]
        == ring[After(k, n)];
    forall p | p in turned ensures p in ring {
      SameVertices(ring, r, p);
    }
  }

  /** If what clipping the turned ring leaves is a stage, so is what clipping the ring leaves. */
  lemma StageOfTurned(ring: seq<Point>, r: nat, k: nat)
    requires r <= |ring| && k < |ring|
    requires var i := if k >= r then k - r else k + |ring| - r; i < |ring| && IsStage(Without(Rotated(ring, r), i))
    ensures IsStage(Without(ring, k))
  {
    hide IsStage;
    WithoutRotated(ring, r, k);
    StageUnrotated(Without(ring, k), if r <= k then r else r - 1);
  }

  lemma PinchIsStage(p: Point, x: seq<Point>, y: seq<Point>)
    requires Pinched(p, x, y)
    ensures IsStage(PinchRing(p, x, y))
  {
    assert Rotated(PinchRing(p, x, y), 0) == PinchRing(p, x, y);
    assert PinchedAt(PinchRing(p, x, y), 0, p, x, y);
  }

  lemma BridgeIsStage(v: Point, h: Point, x: seq<Point>, y: seq<Point>)
    requires Linked(v, h, x, y)
    ensures IsStage(BridgeRing(v, h, x, y))
  {
    assert Rotated(BridgeRing(v, h, x, y), 0) == BridgeRing(v, h, x, y);
    assert LinkedAt(BridgeRing(v, h, x, y), 0, v, h, x, y);
  }

  // ----- every ear leads on -----

  lemma PinchedClipsOuter(p: Point, x: seq<Point>, y: seq<Point>, i: nat)
    requires Pinched(p, x, y) && i < |PinchRing(p, x, y)| && IsEarOf(PinchRing(p, x, y), i) && (i == 0 || i >= |x| + 2)
    ensures IsStage(Without(PinchRing(p, x, y), i))
  {
    hide Pinched, Simple, WindsLeft, IsEarOf;
    if i == 0 {
      PinchedClipsTip(p, x, y);
    } else {
      PinchedClipsY(p, x, y, i - |x| - 2);
      PinchIsStage(p, x, Without(y, i - |x| - 2));
    }
  }

  lemma PinchedClips(p: Point, x: seq<Point>, y: seq<Point>, i: nat)
    requires Pinched(p, x, y) && i < |PinchRing(p, x, y)| && IsEarOf(PinchRing(p, x, y), i)
    ensures IsStage(Without(PinchRing(p, x, y), i))
  {
    hide Pinched, IsStage, IsEarOf;
    if i == 0 || i >= |x| + 2 {
      PinchedClipsOuter(p, x, y, i);
    } else {
      var ring := PinchRing(p, x, y);
      PinchedSwaps(p, x, y);
      EarRotated(ring, |x| + 1, i);
      var j := if i >= |x| + 1 then i - |x| - 1 else i + |ring| - |x| - 1;
      PinchedClipsOuter(p, y, x, j);
      StageOfTurned(ring, |x| + 1, i);
    }
  }

  lemma LinkedClipsOuter(v: Point, h: Point, x: seq<Point>, y: seq<Point>, i: nat)
    requires Linked(v, h, x, y) && i < |BridgeRing(v, h, x, y)| && IsEarOf(BridgeRing(v, h, x, y), i)
    requires i == 0 || i >= |x| + 3
    ensures IsStage(Without(BridgeRing(v, h, x, y), i))
  {
    hide Linked, Pinched, IsEarOf, IsStage;
    var ring := BridgeRing(v, h, x, y);
    if i == 0 {
      LinkedClipsStart(v, h, x, y);
      PinchIsStage(h, x, [v] + y);
    } else if i == |x| + 3 {
      WayBackIsTurned(v, h, x, y);
      EarRotated(ring, |x| + 3, i);
      LinkedClipsBack(v, h, x, y);
      PinchIsStage(h, x, y + [v]);
      StageUnrotated(Without(FromTheWayBack(v, h, x, y), 0), |y| + 1);
      StageOfTurned(ring, |x| + 3, i);
    } else {
      LinkedClipsY(v, h, x, y, i - |x| - 4);
      BridgeIsStage(v, h, x, Without(y, i - |x| - 4));
    }
  }

  lemma LinkedClips(v: Point, h: Point, x: seq<Point>, y: seq<Point>, i: nat)
    requires Linked(v, h, x, y) && i < |BridgeRing(v, h, x, y)| && IsEarOf(BridgeRing(v, h, x, y), i)
    ensures IsStage(Without(BridgeRing(v, h, x, y), i))
  {
    hide Linked, IsStage, IsEarOf;
    if i == 0 || i >= |x| + 3 {
      LinkedClipsOuter(v, h, x, y, i);
    } else {
      var ring := BridgeRing(v, h, x, y);
      LinkedSwaps(v, h, x, y);
      EarRotated(ring, |x| + 2, i);
      var j := if i >= |x| + 2 then i - |x| - 2 else i + |ring| - |x| - 2;
      LinkedClipsOuter(h, v, y, x, j);
      StageOfTurned(ring, |x| + 2, i);
    }
  }

  /** Whatever ear of a stage is clipped, a stage is left. */
  lemma ClipKeepsStage(ring: seq<Point>, k: nat)
    requires IsStage(ring) && |ring| > 3 && k < |ring| && IsEarOf(ring, k)
    ensures IsStage(Without(ring, k))
  {
    hide Pinched, Linked, Simple, WindsLeft, IsEarOf, OnceAtMost;
    if Simple(ring) && WindsLeft(ring) {
      EarLeavesLeft(ring, k);
    } else if IsPinched(ring) {
      var r: nat, p: Point, x: seq<Point>, y: seq<Point> :| PinchedAt(ring, r, p, x, y);
      EarRotated(ring, r, k);
      PinchedClips(p, x, y, if k >= r then k - r else k + |ring| - r);
      StageOfTurned(ring, r, k);
    } else {
      var r: nat, v: Point, h: Point, x: seq<Point>, y: seq<Point> :| LinkedAt(ring, r, v, h, x, y);
      EarRotated(ring, r, k);
      LinkedClips(v, h, x, y, if k >= r then k - r else k + |ring| - r);
      StageOfTurned(ring, r, k);
    }
  }

  /** Every stage of more than three vertices has an ear. */
  lemma StageHasEar(ring: seq<Point>)
    requires IsStage(ring) && |ring| > 3
    ensures HasSomeEar(ring)
  {
    hide Pinched, Linked, Simple, WindsLeft, IsEarOf;
    if Simple(ring) && WindsLeft(ring) {
      var k := SomeEar(ring);
    } else if IsPinched(ring) {
      var r: nat, p: Point, x: seq<Point>, y: seq<Point> :| PinchedAt(ring, r, p, x, y);
      PinchedHasEar(p, x, y);
      EarFromStart(ring, r);
    } else {
      var r: nat, v: Point, h: Point, x: seq<Point>, y: seq<Point> :| LinkedAt(ring, r, v, h, x, y);
      LinkedHasEar(v, h, x, y);
      EarFromStart(ring, r);
    }
  }

  lemma EarFromStart(ring: seq<Point>, r: nat)
    requires r <= |ring| && HasSomeEar(Rotated(ring, r))
    ensures HasSomeEar(ring)
  {
    hide IsEarOf;
    if r == |ring| {
      assert Rotated(ring, r) == ring;
    } else {
      EarUnrotated(ring, r);
    }
  }

  /** A stage of three vertices is a triangle that turns left. */
  lemma SmallStage(ring: seq<Point>)
    requires IsStage(ring) && |ring| <= 3
    ensures |ring| == 3 && Cross(ring[0], ring[1], ring[2]) > 0.0
  {
    hide Simple, WindsLeft, Cross, IsPinched, IsLinked;
    LoopsAreLong(ring);
    SimpleIsDistinct(ring);
    TriangleTurns(ring, 1);
  }

  lemma LoopsAreLong(ring: seq<Point>)
    ensures IsPinched(ring) || IsLinked(ring) ==> |ring| > 3
  {
    hide Simple, Winding, RingsApart, OnceTogether, AllOff, IsCut;
    if IsPinched(ring) {
      var r: nat, p: Point, x: seq<Point>, y: seq<Point> :| PinchedAt(ring, r, p, x, y);
      SimpleIsDistinct([p] + x);
      assert |ring| == |Rotated(ring, r)|;
    } else if IsLinked(ring) {
      var r: nat, v: Point, h: Point, x: seq<Point>, y: seq<Point> :| LinkedAt(ring, r, v, h, x, y);
      assert |ring| == |Rotated(ring, r)|;
    }
  }
}
