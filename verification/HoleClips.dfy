/** Clipping an ear of a chain with one hole leads from one stage to the same or the next. */
module HoleClips {
  import opened Geometry
  import opened EdgeSums
  import opened RingMeasures
  import opened SegmentCrossing
  import opened SimpleLoops
  import opened SegmentWinding
  import opened Nearby
  import opened EarWinding
  import opened LowestVertex
  import opened CornerCuts
  import opened EdgeJumps
  import opened CornerSectors
  import opened Diagonals
  import opened TwoEars
  import opened HungLoops
  import opened HungEars
  import opened HookEars
  import opened HoleStages

  // ----- an ear of the outer loop -----

  /** No vertex of the other loop is in the triangle, which no edge of it enters either. */
  ghost predicate ClearOfEar(r: seq<Point>, a: Point, b: Point, c: Point) {
    forall z :: z in r ==> z != b && IsClearOf(a, b, c, z)
  }

  /** An ear's triangle winds around none of what is clear of it. */
  lemma NotInEar(a: Point, b: Point, c: Point, z: Point)
    requires Cross(a, b, c) > 0.0 && IsOutside(a, b, c, z)
    ensures TriangleSum(WindingTerm(z), a, b, c) == 0.0
  {
    hide Cross, TriangleSum, WindingTerm;
    WindingOfTriangle(z, a, b, c);
    WindingInside(z, a, b, c);
  }

  /** The cut keeps apart from a loop that is clear of the ear. */
  lemma CutKeepsApart(r: seq<Point>, o: seq<Point>, k: nat)
    requires k < |o| && |o| > 3 && Simple(r) && Simple(o) && RingsApart(r, o) && IsEarOf(o, k)
    requires var (a, b, c) := (o[Before(k, |o|)], o[k], o[After(k, |o|)]);
      ClearOfEar(r, a, b, c) && !(a in r && c in r)
    ensures RingsApart(r, Without(o, k))
  {
    hide IsEdge, EdgesApart, IsClearOf, Cross;
    var (a, b, c) := (o[Before(k, |o|)], o[k], o[After(k, |o|)]);
    EdgesOfCorner(o, k);
    forall u, v, p, q | IsEdge(r, u, v) && IsEdge(Without(o, k), p, q) ensures EdgesApart(u, v, p, q) {
      EdgesWithout(o, k, p, q);
      EndsAreVertices(r, u, v);
      if p == a && q == c {
        DiagonalIsApart(a, b, c, u, v);
        ApartTurned(a, c, u, v);
      }
    }
  }

  /** A loop of three vertices does not wind around what is outside its ear. */
  lemma TriangleWindsInside(o: seq<Point>, k: nat, z: Point)
    requires |o| == 3 && k < 3 && IsEarOf(o, k) && IsOutside(o[Before(k, 3)], o[k], o[After(k, 3)], z)
    ensures Winding(o, z) == 0
  {
    hide Winding, TriangleSum, WindingTerm, Cross;
    EarTurns(o, k);
    NotInEar(o[Before(k, 3)], o[k], o[After(k, 3)], z);
    WindingOfRotation(o, k, z);
  }

  /** Where the outer loop turns left at an ear, it is the one that winds left, if it has only three vertices. */
  lemma TriangleIsLeft(o: seq<Point>, k: nat)
    requires |o| == 3 && k < 3 && Simple(o) && IsEarOf(o, k)
    ensures WindsLeft(o)
  {
    hide Simple, CycleSum, WindsLeft;
    var (a, b, c) := (o[0], o[1], o[2]);
    CornerSides(a, b, c);
    CornerSides(b, c, a);
    assert o == [a, b, c];
    AreaOfTriangle(a, b, c);
    AreaTellsTheWay(o);
  }

  lemma EarOfOuter(ring: seq<Point>, i: nat, o: seq<Point>, k: nat)
    requires i < |ring| && k < |o| && IsEarOf(ring, i) && o[k] == ring[i]
    requires o[Before(k, |o|)] == ring[Before(i, |ring|)] && o[After(k, |o|)] == ring[After(i, |ring|)]
    requires forall z :: z in o ==> z in ring
    ensures IsEarOf(o, k)
  {
    hide Cross, IsClearOf;
  }

  /** The corner of the ring at y[j] is the corner of the outer loop there. */
  lemma CornerOfY(front: seq<Point>, p: Point, y: seq<Point>, j: nat)
    requires j < |y|
    ensures var (ring, o) := ([p] + front + [p] + y, [p] + y);
      var (i, k) := (|front| + 2 + j, j + 1);
      && ring[i] == o[k] == y[j] && o[Before(k, |o|)] == ring[Before(i, |ring|)]
      && o[After(k, |o|)] == ring[After(i, |ring|)]
  {
  }

  lemma WithoutY(front: seq<Point>, p: Point, y: seq<Point>, j: nat)
    requires j < |y|
    ensures Without([p] + front + [p] + y, |front| + 2 + j) == [p] + front + [p] + Without(y, j)
    ensures Without([p] + y, j + 1) == [p] + Without(y, j)
  {
  }

  lemma EarIsClearOfInner(ring: seq<Point>, i: nat, r: seq<Point>)
    requires i < |ring| && IsEarOf(ring, i) && (forall z :: z in r ==> z in ring) && ring[i] !in r
    ensures ClearOfEar(r, ring[Before(i, |ring|)], ring[i], ring[After(i, |ring|)])
  {
    hide Cross, IsClearOf;
  }

  lemma OnceWithout(r: seq<Point>, o: seq<Point>, k: nat)
    requires k < |o| && |o| > 3 && OnceTogether(r, o) && IsEarOf(o, k)
    ensures OnceTogether(r, Without(o, k))
  {
    hide Winding, TriangleSum, WindingTerm, Cross;
    EarTurns(o, k);
    forall p: Point ensures Winding(r, p) + Winding(Without(o, k), p) <= 1 {
      WindingWithout(o, k, p);
      WindingOfTriangle(p, o[Before(k, |o|)], o[k], o[After(k, |o|)]);
    }
  }

  lemma WindingOutsideEar(o: seq<Point>, k: nat, z: Point)
    requires k < |o| && |o| > 3 && IsEarOf(o, k) && IsOutside(o[Before(k, |o|)], o[k], o[After(k, |o|)], z)
    ensures Winding(Without(o, k), z) == Winding(o, z)
  {
    hide Winding, TriangleSum, WindingTerm, Cross;
    EarTurns(o, k);
    WindingWithout(o, k, z);
    NotInEar(o[Before(k, |o|)], o[k], o[After(k, |o|)], z);
  }

  lemma ClearIsOutside(a: Point, b: Point, c: Point, z: Point)
    requires IsClearOf(a, b, c, z) && z != a && z != c
    ensures IsOutside(a, b, c, z)
  {
  }

  // ----- an ear of a pinched ring away from the pinch -----

  lemma PinchedClipsY(p: Point, x: seq<Point>, y: seq<Point>, j: nat)
    requires Pinched(p, x, y) && j < |y| && IsEarOf(PinchRing(p, x, y), |x| + 2 + j)
    ensures Pinched(p, x, Without(y, j))
    ensures Without(PinchRing(p, x, y), |x| + 2 + j) == PinchRing(p, x, Without(y, j))
  {
    hide IsEdge, EdgesApart, Winding, Cross, Simple, IsEarOf, RingsApart, OnceTogether, IsClearOf, IsOutside, WindsLeft;
    var (ring, r, o) := (PinchRing(p, x, y), [p] + x, [p] + y);
    var (i, k) := (|x| + 2 + j, j + 1);
    CornerOfY(x, p, y, j);
    WithoutY(x, p, y, j);
    SimpleIsDistinct(r);
    SimpleIsDistinct(o);
    OffBothWays(p, p, x, y);
    assert r[1] == x[0] && x[0] in x && y[0] in y && y[j] in y;
    EarOfOuter(ring, i, o, k);
    EarIsClearOfInner(ring, i, r);
    var (a, b, c) := (o[Before(k, |o|)], o[k], o[After(k, |o|)]);
    assert a in o && c in o && x[0] in r;
    OuterCornerIsOff(p, x, y, j);
    ClearIsOutside(a, b, c, x[0]);
    OneOfEach(r, o, 1, 1);
    if |o| == 3 {
      TriangleIsLeft(o, k);
      BothWays(o);
      TriangleWindsInside(o, k, x[0]);
    }
    EarKeepsSimple(o, k);
    CutKeepsApart(r, o, k);
    OnceWithout(r, o, k);
    WindingOutsideEar(o, k, x[0]);
    FirstOfWithout(r, p, y, j);
    var rest := Without(y, j);
    assert forall z :: z in [p] + rest ==> z in o;
    assert Without(o, k) == [p] + rest;
  }

  lemma OuterCornerIsOff(p: Point, x: seq<Point>, y: seq<Point>, j: nat)
    requires j < |y| && Distinct([p] + y) && |y| >= 2 && AllOff(y, [p] + x)
    ensures var (o, k) := ([p] + y, j + 1); !(o[Before(k, |o|)] in [p] + x && o[After(k, |o|)] in [p] + x)
  {
    var o := [p] + y;
    if j > 0 {
      assert o[Before(j + 1, |o|)] == y[j - 1] && y[j - 1] in y;
    } else {
      assert o[After(j + 1, |o|)] == y[1] && y[1] in y;
    }
  }

  /** A loop does not wind both ways. */
  lemma BothWays(o: seq<Point>)
    requires Simple(o) && WindsLeft(o)
    ensures !WindsLeft(Reversed(o))
  {
    hide Simple, WindsLeft, CycleSum;
    AreaTellsTheWay(o);
  }

  /** What is left of y starts where the other loop winds as at y[0]. */
  lemma FirstOfWithout(r: seq<Point>, p: Point, y: seq<Point>, j: nat)
    requires Simple(r) && Simple([p] + y) && RingsApart(r, [p] + y) && AllOff(y, r) && j < |y| && |y| >= 2
    ensures Winding(r, Without(y, j)[0]) == Winding(r, y[0])
  {
    hide IsEdge, EdgesApart, Winding, Simple, RingsApart;
    var o := [p] + y;
    if j == 0 {
      assert Without(y, 0)[0] == y[1] == o[2] && y[0] == o[1];
      forall k | 1 <= k <= 2 ensures o[k] !in r {
        assert o[k] == y[k - 1] && y[k - 1] in y;
      }
      WindingAlongOther(r, o, 1, 2);
    }
  }

  // ----- an ear of a bridged ring away from the bridge -----

  lemma LinkedClipsY(v: Point, h: Point, x: seq<Point>, y: seq<Point>, j: nat)
    requires Linked(v, h, x, y) && j < |y| && IsEarOf(BridgeRing(v, h, x, y), |x| + 4 + j)
    ensures Linked(v, h, x, Without(y, j))
    ensures Without(BridgeRing(v, h, x, y), |x| + 4 + j) == BridgeRing(v, h, x, Without(y, j))
  {
    hide IsEdge, EdgesApart, Winding, Cross, Simple, IsEarOf, RingsApart, OnceTogether, IsClearOf, IsOutside, WindsLeft,
         IsCut;
    var (ring, r, o) := (BridgeRing(v, h, x, y), [h] + x, [v] + y);
    var (i, k) := (|x| + 4 + j, j + 1);
    CornerOfY([h] + x + [h], v, y, j);
    WithoutY([h] + x + [h], v, y, j);
    SimpleIsDistinct(r);
    SimpleIsDistinct(o);
    assert r[0] == h && h in r && o[0] == v && y[j] in y;
    OffBothWays(h, v, x, y);
    EarOfOuter(ring, i, o, k);
    EarIsClearOfInner(ring, i, r);
    var (a, b, c) := (o[Before(k, |o|)], o[k], o[After(k, |o|)]);
    assert a in o && c in o && b in o && v in o;
    ClearIsOutside(a, b, c, h);
    OneOfEach(r, o, 0, 0);
    if |o| == 3 {
      TriangleIsLeft(o, k);
      BothWays(o);
      TriangleWindsInside(o, k, h);
    }
    EarKeepsSimple(o, k);
    CutKeepsApart(r, o, k);
    OnceWithout(r, o, k);
    WindingOutsideEar(o, k, h);
    var rest := Without(y, j);
    assert forall z :: z in [v] + rest ==> z in o;
    assert Without(o, k) == [v] + rest;
    BridgeStaysCut(o, k, v, h);
  }

  lemma BridgeStaysCut(o: seq<Point>, k: nat, v: Point, h: Point)
    requires k < |o| && |o| > 3 && Simple(o) && IsEarOf(o, k) && IsCut(o, v, h) && v in o && v != o[k] && h !in o
    requires IsClearOf(o[Before(k, |o|)], o[k], o[After(k, |o|)], h)
    ensures IsCut(Without(o, k), v, h)
  {
    hide IsEdge, EdgesApart, Cross, IsClearOf;
    var (a, b, c) := (o[Before(k, |o|)], o[k], o[After(k, |o|)]);
    EdgesOfCorner(o, k);
    assert a in o && c in o;
    forall p, q | IsEdge(Without(o, k), p, q) ensures EdgesApart(v, h, p, q) {
      EdgesWithout(o, k, p, q);
      if p == a && q == c {
        DiagonalIsApart(a, b, c, v, h);
        ApartTurned(a, c, v, h);
      }
    }
  }
}
