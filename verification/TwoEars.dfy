/** A loop that does not touch itself winds at most once around anything, and has two ears that are not neighbours. */
module TwoEars {
  import opened Geometry
  import opened EdgeSums
  import opened RingMeasures
  import opened SegmentCrossing
  import opened SimpleLoops
  import opened SegmentWinding
  import opened Nearby
  import opened EarWinding
  import opened LowestVertex
  import opened CornerCuts
  import opened Diagonals

  ghost predicate OnceAtMost(ring: seq<Point>) {
    forall p: Point :: 0 <= Winding(ring, p) <= 1
  }

  /** The vertex b and its neighbours make an ear. */
  ghost predicate EarAt(ring: seq<Point>, a: Point, b: Point, c: Point) {
    && IsEdge(ring, a, b) && IsEdge(ring, b, c)
    && Cross(a, b, c) > 0.0 && forall p :: p in ring ==> p == b || IsClearOf(a, b, c, p)
  }

  ghost predicate HasEar(ring: seq<Point>, b: Point) {
    exists a: Point, c: Point :: EarAt(ring, a, b, c)
  }

  ghost predicate AreNeighbours(ring: seq<Point>, p: Point, q: Point) {
    IsEdge(ring, p, q) || IsEdge(ring, q, p)
  }

  ghost predicate HasTwoEars(ring: seq<Point>) {
    exists p: Point, q: Point :: p != q && !AreNeighbours(ring, p, q) && HasEar(ring, p) && HasEar(ring, q)
  }

  lemma EarFromIndex(ring: seq<Point>, k: nat)
    requires k < |ring| && IsEarOf(ring, k)
    ensures EarAt(ring, ring[Before(k, |ring|)], ring[k], ring[After(k, |ring|)]) && HasEar(ring, ring[k])
  {
    hide IsClearOf, Cross, IsEdge;
    EdgesOfCorner(ring, k);
    assert EarAt(ring, ring[Before(k, |ring|)], ring[k], ring[After(k, |ring|)]);
  }

  lemma IndexOfEar(ring: seq<Point>, a: Point, b: Point, c: Point) returns (k: nat)
    requires Distinct(ring) && EarAt(ring, a, b, c)
    ensures k < |ring| && ring[k] == b && IsEarOf(ring, k)
    ensures a == ring[Before(k, |ring|)] && c == ring[After(k, |ring|)]
  {
    hide IsClearOf, Cross;
    EndsAreVertices(ring, a, b);
    k :| 0 <= k < |ring| && ring[k] == b;
    EdgesAtCorner(ring, k, a, b);
    EdgesAtCorner(ring, k, b, c);
  }

  lemma NeighboursOf(ring: seq<Point>, b: Point) returns (a: Point, c: Point)
    requires HasEar(ring, b)
    ensures EarAt(ring, a, b, c)
  {
    a, c :| EarAt(ring, a, b, c);
  }

  // ----- what an ear leaves -----

  /** What clipping an ear leaves goes round the same way. */
  lemma {:induction false} EarLeavesLeft(ring: seq<Point>, k: nat)
    requires k < |ring| && |ring| > 3 && Simple(ring) && WindsLeft(ring) && IsEarOf(ring, k)
    ensures var rest := Without(ring, k); Simple(rest) && WindsLeft(rest) && OnceAtMost(rest)
    decreases |ring|, 0
  {
    hide IsEdge, EdgesApart, Winding, IsEarOf, Simple, HasTwoEars;
    var rest := Without(ring, k);
    EarKeepsSimple(ring, k);
    LeftOrRight(rest);
    if WindsLeft(rest) {
      SimpleHasTwoEars(rest);
    } else {
      SimpleReversed(rest);
      SimpleHasTwoEars(Reversed(rest));
      var start :| 0 <= start < |ring| && StartsLeft(Rotated(ring, start));
      SimpleRotated(ring, start);
      SimpleIsDistinct(Rotated(ring, start));
      var p := WindsSomewhere(Rotated(ring, start));
      WindingRotated(ring, start, p);
      var q := WindsLikeTheRest(ring, k, p);
      WindingReversed(rest, q);
    }
  }

  lemma InnerPoint(a: Point, b: Point, c: Point) returns (p: Point)
    requires Cross(a, b, c) > 0.0
    ensures Interior(a, b, c, p)
  {
    hide Cross, Along;
    var m := Along(a, c, 0.5);
    SideStarts(a, b, c, 0.5);
    p := Along(b, m, 0.5);
    CornerSides(a, b, c);
    CornerSides(c, a, b);
    SidesAtHalf(a, b, c, m);
  }

  lemma SidesAtHalf(a: Point, b: Point, c: Point, m: Point)
    requires Cross(a, b, c) > 0.0 && Cross(a, b, m) > 0.0 && Cross(b, c, m) > 0.0 && Cross(c, a, m) == 0.0
    ensures Interior(a, b, c, Along(b, m, 0.5))
  {
    SidesAtDepth(a, b, c, m, 0.5);
  }

  /** A loop winds around every point of an ear that is not on the loop. */
  lemma {:induction false} EarIsEnclosed(ring: seq<Point>, a: Point, b: Point, c: Point, p: Point)
    requires Simple(ring) && WindsLeft(ring) && EarAt(ring, a, b, c) && InsideTriangle(a, b, c, p) && OffRing(ring, p)
    ensures Winding(ring, p) >= 1
    decreases |ring|, 1
  {
    hide IsEdge, EdgesApart, Winding, Cross, OnSegment, TriangleSum, WindingTerm, Simple, IsClearOf;
    SimpleIsDistinct(ring);
    var k := IndexOfEar(ring, a, b, c);
    HeightsBalance(p, a, b, c);
    BoundaryIsOnASide(a, b, c, p);
    if |ring| == 3 {
      EdgesOfCorner(ring, After(k, 3));
      WindingInside(p, a, b, c);
      WindingOfRotation(ring, k, p);
    } else {
      var inner := InnerPoint(a, b, c);
      OffTheSides(a, b, c, p);
      WayToTheCut(ring, k, inner, p);
      WindingAlong(ring, inner, p);
      EarLeavesLeft(ring, k);
      WindingWithout(ring, k, inner);
      WindingInside(inner, a, b, c);
    }
  }

  lemma OffTheSides(a: Point, b: Point, c: Point, p: Point)
    requires Cross(a, b, c) > 0.0 && Cross(a, b, p) >= 0.0 && Cross(b, c, p) >= 0.0 && Cross(c, a, p) >= 0.0
    requires !OnEdge(a, b, p) && !OnEdge(b, c, p)
    ensures Cross(a, b, p) > 0.0 && Cross(b, c, p) > 0.0
  {
    hide Cross, OnSegment;
    CornerSides(a, b, c);
    if Cross(a, b, p) == 0.0 {
      var m := OnTheEdge(a, b, c, p);
      PointsAreOn(a, b, m);
    }
    if Cross(b, c, p) == 0.0 {
      var m := OnTheEdge(b, c, a, p);
      PointsAreOn(b, c, m);
    }
  }

  /** Three vertices, from any of them. */
  lemma WindingOfRotation(ring: seq<Point>, k: nat, p: Point)
    requires |ring| == 3 && k < 3
    ensures Winding(ring, p) as real == TriangleSum(WindingTerm(p), ring[Before(k, 3)], ring[k], ring[After(k, 3)])
  {
    hide Winding, WindingTerm;
    WindingExact(ring, p);
    assert ring == [ring[0], ring[1], ring[2]];
    CycleSumOfTriangle(WindingTerm(p), ring[0], ring[1], ring[2]);
  }

  // ----- ears of a part -----

  lemma TriangleTurns(ring: seq<Point>, k: nat)
    requires |ring| == 3 && k < 3 && WindsLeft(ring)
    ensures Cross(ring[Before(k, 3)], ring[k], ring[After(k, 3)]) > 0.0
  {
    var start :| 0 <= start < |ring| && StartsLeft(Rotated(ring, start));
    hide Cross;
    CornerSides(ring[0], ring[1], ring[2]);
    CornerSides(ring[1], ring[2], ring[0]);
    assert ring[Before(k, 3)] == ring[(k + 2) % 3] && ring[After(k, 3)] == ring[(k + 1) % 3];
  }

  /** An ear of the part whose tip is not an end of the cut. */
  lemma PartHasEar(part: seq<Point>, d: Point, e: Point) returns (a: Point, b: Point, c: Point)
    requires Simple(part) && WindsLeft(part) && AreNeighbours(part, d, e) && (|part| > 3 ==> HasTwoEars(part))
    ensures EarAt(part, a, b, c) && b != d && b != e
  {
    hide IsEdge, EdgesApart, Cross, IsClearOf;
    if |part| == 3 {
      var k: nat :| k < 3 && part[k] != d && part[k] != e;
      a, b, c := part[Before(k, 3)], part[k], part[After(k, 3)];
      TriangleTurns(part, k);
      EdgesOfCorner(part, k);
      EndsAreClear(a, b, c);
    } else {
      var p: Point, q: Point :| p != q && !AreNeighbours(part, p, q) && HasEar(part, p) && HasEar(part, q);
      b := if p == d || p == e then q else p;
      a, c :| EarAt(part, a, b, c);
    }
  }

  lemma EndsAreClear(a: Point, b: Point, c: Point)
    ensures IsClearOf(a, b, c, a) && IsClearOf(a, b, c, c)
  {
  }

  /** The part is cut off along d and e, and the other vertices of the ring are outside it. */
  ghost predicate IsPart(ring: seq<Point>, part: seq<Point>, d: Point, e: Point) {
    && AreNeighbours(part, d, e)
    && (forall u, v :: IsEdge(part, u, v) ==> IsEdge(ring, u, v) || (IsEnd(u, d, e) && IsEnd(v, d, e)))
    && (forall p :: p in ring && p !in part ==> Winding(part, p) <= 0 && OffRing(part, p))
  }

  /** Then an ear of the part away from the cut is an ear of the ring. */
  lemma {:induction false} EarOfPart(ring: seq<Point>, part: seq<Point>, d: Point, e: Point)
      returns (a: Point, b: Point, c: Point)
    requires IsPart(ring, part, d, e) && Simple(part) && WindsLeft(part) && (|part| > 3 ==> HasTwoEars(part))
    ensures EarAt(ring, a, b, c) && b in part && b != d && b != e
    decreases |part|, 2
  {
    hide IsEdge, Cross, Simple, Winding, InsideTriangle, WindsLeft, OffRing, HasTwoEars;
    a, b, c := PartHasEar(part, d, e);
    EndsAreVertices(part, a, b);
    forall p | p in ring ensures p == b || IsClearOf(a, b, c, p) {
      if p !in part && InsideTriangle(a, b, c, p) {
        EarIsEnclosed(part, a, b, c, p);
      }
    }
  }

  lemma RestIsPart(ring: seq<Point>)
    requires |ring| > 3 && Simple(ring) && StartsLeft(ring)
    ensures IsPart(ring, Without(ring, 0), ring[|ring| - 1], ring[1])
  {
    hide IsEdge, EdgesApart, Cross, OnSegment, Winding;
    var (n, rest) := (|ring|, Without(ring, 0));
    var (a, b, c) := (ring[n - 1], ring[0], ring[1]);
    EdgesOfCorner(rest, n - 2);
    Opposite(a, c, b);
    CornerSides(a, b, c);
    forall u, v | IsEdge(rest, u, v)
      ensures (IsEdge(ring, u, v) || (IsEnd(u, a, c) && IsEnd(v, a, c))) && !OnEdge(u, v, b)
    {
      EdgesWithout(ring, 0, u, v);
      if !(u == a && v == c) && OnEdge(u, v, b) {
        SimpleIsTame(ring);
        VertexOnEdge(ring, 0, u, v);
      }
    }
    forall q | q in rest ensures Below(b, q) {
    }
    BelowIsOutside(rest, b);
  }

  lemma PastTheCut(ring: seq<Point>, j: nat, p: Point) returns (i: nat)
    requires j < |ring| && p in ring && p !in Outward(ring, j)
    ensures j < i < |ring| && ring[i] == p
  {
    assert ring == Outward(ring, j) + ring[j + 1..];
    i :| j < i < |ring| && ring[i] == p;
  }

  lemma BeforeTheCut(ring: seq<Point>, j: nat, p: Point) returns (i: nat)
    requires 0 < j < |ring| && p in ring && p !in Homeward(ring, j)
    ensures 0 < i < j && ring[i] == p
  {
    assert ring == [ring[0]] + ring[1..j] + ring[j..];
    i :| 0 < i < j && ring[i] == p;
  }

  lemma OutwardIsPart(ring: seq<Point>, j: nat)
    requires Cuts(ring, j)
    ensures IsPart(ring, Outward(ring, j), ring[0], ring[j])
  {
    hide EdgesApart, Cross, OnSegment, Winding, IsCut;
    var part := Outward(ring, j);
    EdgesOfCorner(part, j);
    hide IsEdge;
    forall u, v | IsEdge(part, u, v)
      ensures IsEdge(ring, u, v) || (IsEnd(u, ring[0], ring[j]) && IsEnd(v, ring[0], ring[j]))
    {
      OutwardEdges(ring, j, u, v);
    }
    forall p | p in ring && p !in part ensures Winding(part, p) <= 0 && OffRing(part, p) {
      var i := PastTheCut(ring, j, p);
      BeyondIsOutside(ring, j, i);
      forall u, v | IsEdge(part, u, v) ensures !OnEdge(u, v, p) {
        OutwardApart(ring, j, i, u, v);
        ApartFromVertex(ring, i, part, u, v);
      }
    }
  }

  lemma ApartFromVertex(ring: seq<Point>, i: nat, part: seq<Point>, u: Point, v: Point)
    requires i < |ring| && Distinct(ring) && Distinct(part) && |part| > 1 && |ring| > 1 && IsEdge(part, u, v)
    requires ring[i] !in part && EdgesApart(ring[i], ring[After(i, |ring|)], u, v)
    ensures !OnEdge(u, v, ring[i])
  {
    hide EdgesApart, OnEdge, IsEdge;
    var (p, q) := (ring[i], ring[After(i, |ring|)]);
    EndsAreVertices(part, u, v);
    EdgesAreProper(part, u, v);
    EndIsOn(q, p);
    OnEdgeBack(q, p, p);
    if OnEdge(u, v, p) {
      ApartShare(p, q, u, v, p);
    }
  }

  lemma HomewardIsPart(ring: seq<Point>, j: nat)
    requires Cuts(ring, j)
    ensures IsPart(ring, Homeward(ring, j), ring[0], ring[j])
  {
    hide EdgesApart, Cross, OnSegment, Winding, IsCut;
    var part := Homeward(ring, j);
    EdgesOfCorner(part, 0);
    PartsAreSimple(ring, j);
    hide IsEdge;
    forall u, v | IsEdge(part, u, v)
      ensures IsEdge(ring, u, v) || (IsEnd(u, ring[0], ring[j]) && IsEnd(v, ring[0], ring[j]))
    {
      HomewardEdges(ring, j, u, v);
    }
    forall p | p in ring && p !in part ensures Winding(part, p) <= 0 && OffRing(part, p) {
      var i := BeforeTheCut(ring, j, p);
      BeforeIsOutside(ring, j, i);
      forall u, v | IsEdge(part, u, v) ensures !OnEdge(u, v, p) {
        HomewardApart(ring, j, i, u, v);
        ApartFromVertex(ring, i, part, u, v);
      }
    }
  }

  // ----- two ears -----

  lemma ApartByTheCut(ring: seq<Point>, j: nat, p: Point, q: Point)
    requires Distinct(ring) && 1 < j < |ring| - 1 && p in Outward(ring, j) && q in Homeward(ring, j)
    requires !IsEnd(p, ring[0], ring[j]) && !IsEnd(q, ring[0], ring[j])
    ensures p != q && !AreNeighbours(ring, p, q)
  {
    var i: nat :| i <= j && ring[i] == p;
    var h := IndexPast(ring, j, q);
    if IsEdge(ring, p, q) {
      EdgesAtCorner(ring, i, p, q);
    }
    if IsEdge(ring, q, p) {
      EdgesAtCorner(ring, h, q, p);
    }
  }

  lemma IndexPast(ring: seq<Point>, j: nat, q: Point) returns (h: nat)
    requires 0 < j < |ring| && q in Homeward(ring, j) && !IsEnd(q, ring[0], ring[j])
    ensures j < h < |ring| && ring[h] == q
  {
    var k :| 0 <= k < |Homeward(ring, j)| && Homeward(ring, j)[k] == q;
    h := k - 1 + j;
  }

  lemma {:induction false} EarsPastACut(ring: seq<Point>, j: nat)
    requires Cuts(ring, j)
    ensures HasTwoEars(ring)
    decreases |ring|, 3
  {
    hide IsEdge, EdgesApart, Cross, EarAt, IsPart, IsEnd, OnceAtMost, IsCut;
    PartsAreSimple(ring, j);
    PartsStartLeft(ring, j);
    var (out, home) := (Outward(ring, j), Homeward(ring, j));
    FromItsStart(out);
    FromItsStart(home);
    SimpleHasTwoEars(out);
    SimpleHasTwoEars(home);
    OutwardIsPart(ring, j);
    HomewardIsPart(ring, j);
    var a, p, c := EarOfPart(ring, out, ring[0], ring[j]);
    var d, q, f := EarOfPart(ring, home, ring[0], ring[j]);
    NotEnds(p, ring[0], ring[j]);
    NotEnds(q, ring[0], ring[j]);
    ApartByTheCut(ring, j, p, q);
    assert HasEar(ring, p) && HasEar(ring, q);
  }

  lemma NotEnds(p: Point, d: Point, e: Point)
    requires p != d && p != e
    ensures !IsEnd(p, d, e)
  {
  }

  lemma FromItsStart(ring: seq<Point>)
    requires StartsLeft(ring)
    ensures WindsLeft(ring)
  {
    assert Rotated(ring, 0) == ring;
  }

  lemma {:induction false} EarsWithTheFirst(ring: seq<Point>)
    requires |ring| > 3 && Simple(ring) && StartsLeft(ring) && IsEarOf(ring, 0)
    ensures HasTwoEars(ring)
    decreases |ring|, 3
  {
    hide EdgesApart, Cross, EarAt, IsPart, OnceAtMost, IsEarOf;
    var rest := Without(ring, 0);
    FromItsStart(ring);
    EarLeavesLeft(ring, 0);
    SimpleHasTwoEars(rest);
    RestIsPart(ring);
    var a, p, c := EarOfPart(ring, rest, ring[|ring| - 1], ring[1]);
    EarFromIndex(ring, 0);
    var b := ring[0];
    assert p != b;
    NotBesideTheFirst(ring, p);
    assert HasEar(ring, p) && HasEar(ring, b);
  }

  lemma NotBesideTheFirst(ring: seq<Point>, p: Point)
    requires |ring| > 3 && Distinct(ring) && p != ring[1] && p != ring[|ring| - 1]
    ensures !AreNeighbours(ring, p, ring[0])
  {
    if IsEdge(ring, p, ring[0]) {
      EdgesAtCorner(ring, 0, p, ring[0]);
    }
    if IsEdge(ring, ring[0], p) {
      EdgesAtCorner(ring, 0, ring[0], p);
    }
  }

  lemma EarsRotated(ring: seq<Point>, k: nat)
    requires k <= |ring| && HasTwoEars(Rotated(ring, k))
    ensures HasTwoEars(ring)
  {
    hide IsEdge, Cross, IsClearOf;
    var turned := Rotated(ring, k);
    forall u, v ensures IsEdge(turned, u, v) <==> IsEdge(ring, u, v) {
      EdgesRotated(ring, k, u, v);
    }
    forall p ensures p in turned <==> p in ring {
      SameVertices(ring, k, p);
    }
    forall a, b, c | EarAt(turned, a, b, c) ensures EarAt(ring, a, b, c) {
    }
    var p: Point, q: Point :| p != q && !AreNeighbours(turned, p, q) && HasEar(turned, p) && HasEar(turned, q);
    assert HasEar(ring, p) && HasEar(ring, q);
  }

  /**
   A loop of distinct vertices whose edges meet at common ends only, and which turns left at its lowest vertex,
   winds zero times or once around every point; and if it has more than three vertices, two of them that are not
   neighbours are ears.
   */
  lemma {:induction false} SimpleHasTwoEars(ring: seq<Point>)
    requires Simple(ring) && WindsLeft(ring)
    ensures OnceAtMost(ring)
    ensures |ring| > 3 ==> HasTwoEars(ring)
    decreases |ring|, 4
  {
    hide IsEdge, EdgesApart, Cross, Winding, TriangleSum, WindingTerm, EarAt, Simple, StartsLeft;
    SimpleIsDistinct(ring);
    if |ring| == 3 {
      TriangleTurns(ring, 1);
      forall p: Point ensures 0 <= Winding(ring, p) <= 1 {
        WindingOfRotation(ring, 1, p);
        WindingOfTriangle(p, ring[0], ring[1], ring[2]);
      }
    } else {
      var start :| 0 <= start < |ring| && StartsLeft(Rotated(ring, start));
      var turned := Rotated(ring, start);
      SimpleRotated(ring, start);
      if IsEarOf(turned, 0) {
        EarsWithTheFirst(turned);
      } else {
        var j := FindCut(turned);
        EarsPastACut(turned, j);
      }
      EarsRotated(ring, start);
      var b: Point :| HasEar(ring, b);
      var a, c := NeighboursOf(ring, b);
      var k := IndexOfEar(ring, a, b, c);
      EarLeavesLeft(ring, k);
      forall p: Point ensures 0 <= Winding(ring, p) <= 1 {
        var q := WindsLikeTheRest(ring, k, p);
      }
    }
  }

  lemma SomeEar(ring: seq<Point>) returns (k: nat)
    requires |ring| > 3 && Simple(ring) && WindsLeft(ring)
    ensures k < |ring| && IsEarOf(ring, k)
  {
    hide IsEdge, EdgesApart, EarAt, IsEarOf, WindsLeft;
    SimpleHasTwoEars(ring);
    var b: Point :| HasEar(ring, b);
    var a, c := NeighboursOf(ring, b);
    k := IndexOfEar(ring, a, b, c);
  }

  // ----- area -----

  lemma {:induction false} LeftHasArea(ring: seq<Point>)
    requires Simple(ring) && WindsLeft(ring)
    ensures IsCounterClockwise(ring)
    decreases |ring|
  {
    hide IsEdge, EdgesApart, Cross, CycleSum, WindsLeft, Simple, IsEarOf, TriangleSum;
    SimpleIsDistinct(ring);
    if |ring| == 3 {
      TriangleTurns(ring, 1);
      AreaOfTriangle(ring[0], ring[1], ring[2]);
      assert ring == [ring[0], ring[1], ring[2]];
    } else {
      var k := SomeEar(ring);
      EarTurns(ring, k);
      EarLeavesLeft(ring, k);
      LeftHasArea(Without(ring, k));
      AreaTermAntisymmetric();
      CycleSumWithout(AreaTerm, ring, k);
      AreaOfTriangle(ring[Before(k, |ring|)], ring[k], ring[After(k, |ring|)]);
    }
  }

  /** Which way a loop goes round that does not touch itself is told by its area, which is never zero. */
  lemma AreaTellsTheWay(ring: seq<Point>)
    requires Simple(ring)
    ensures WindsLeft(ring) <==> IsCounterClockwise(ring)
    ensures WindsLeft(Reversed(ring)) <==> SignedArea2(ring) < 0.0
    ensures SignedArea2(ring) != 0.0
  {
    hide CycleSum, Simple, WindsLeft;
    SimpleReversed(ring);
    LeftOrRight(ring);
    AreaTermAntisymmetric();
    CycleSumReversed(AreaTerm, ring);
    if WindsLeft(ring) {
      LeftHasArea(ring);
    }
    if WindsLeft(Reversed(ring)) {
      LeftHasArea(Reversed(ring));
    }
  }
}
