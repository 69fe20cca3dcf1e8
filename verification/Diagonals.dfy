/** Cutting a loop that does not touch itself in two, from its lowest vertex. */
module Diagonals {
  import opened Geometry
  import opened EdgeSums
  import opened RingMeasures
  import opened SegmentCrossing
  import opened SimpleLoops
  import opened SegmentWinding
  import opened Nearby
  import opened EarWinding
  import opened LowestVertex
  import opened CornerCuts
  import opened EdgeJumps

  // ----- the two parts -----

  /** From the start round to position j. */
  function Outward(ring: seq<Point>, j: nat): seq<Point>
    requires j < |ring|
  {
    ring[..j + 1]
  }

  /** From position j on, and back to the start. */
  function Homeward(ring: seq<Point>, j: nat): seq<Point>
    requires 0 < j < |ring|
  {
    [ring[0]] + ring[j..]
  }

  lemma OutwardEdges(ring: seq<Point>, j: nat, u: Point, v: Point)
    requires 1 < j < |ring| - 1 && IsEdge(Outward(ring, j), u, v)
    ensures (u == ring[j] && v == ring[0]) || IsEdge(ring, u, v)
  {
    var i: nat :| EdgeAt(Outward(ring, j), i, u, v);
    if i != j {
      assert EdgeAt(ring, i, u, v);
    }
  }

  lemma HomewardEdges(ring: seq<Point>, j: nat, u: Point, v: Point)
    requires 1 < j < |ring| - 1 && IsEdge(Homeward(ring, j), u, v)
    ensures (u == ring[0] && v == ring[j]) || IsEdge(ring, u, v)
  {
    var i: nat :| EdgeAt(Homeward(ring, j), i, u, v);
    if i != 0 {
      assert EdgeAt(ring, i - 1 + j, u, v);
    }
  }

  /** A part of a simple loop, whose edges are the loop's but for one cut. */
  lemma PartIsSimple(ring: seq<Point>, part: seq<Point>, p: Point, q: Point)
    requires Simple(ring) && |part| >= 3 && Distinct(part) && IsCut(ring, p, q)
    requires forall u, v :: IsEdge(part, u, v) ==> (u == p && v == q) || IsEdge(ring, u, v)
    ensures Simple(part)
  {
    hide EdgesApart, IsEdge;
    forall a, b, c, d | IsEdge(part, a, b) && IsEdge(part, c, d) && (a, b) != (c, d) ensures EdgesApart(a, b, c, d) {
      if a == p && b == q {
      } else if c == p && d == q {
        ApartTurned(p, q, a, b);
      }
    }
  }

  lemma PartsAreSimple(ring: seq<Point>, j: nat)
    requires Simple(ring) && 1 < j < |ring| - 1 && IsCut(ring, ring[0], ring[j])
    ensures Simple(Outward(ring, j)) && Simple(Homeward(ring, j))
  {
    hide EdgesApart, IsEdge;
    CutBack(ring, ring[0], ring[j]);
    forall u, v | IsEdge(Outward(ring, j), u, v) ensures (u == ring[j] && v == ring[0]) || IsEdge(ring, u, v) {
      OutwardEdges(ring, j, u, v);
    }
    forall u, v | IsEdge(Homeward(ring, j), u, v) ensures (u == ring[0] && v == ring[j]) || IsEdge(ring, u, v) {
      HomewardEdges(ring, j, u, v);
    }
    PartIsSimple(ring, Outward(ring, j), ring[j], ring[0]);
    PartIsSimple(ring, Homeward(ring, j), ring[0], ring[j]);
  }

  lemma PartsStartLeft(ring: seq<Point>, j: nat)
    requires StartsLeft(ring) && 1 < j < |ring| - 1
    requires Cross(ring[|ring| - 1], ring[0], ring[j]) > 0.0 && Cross(ring[0], ring[1], ring[j]) > 0.0
    ensures StartsLeft(Outward(ring, j)) && StartsLeft(Homeward(ring, j))
  {
    hide Cross;
    CornerSides(ring[0], ring[1], ring[j]);
    CornerSides(ring[j], ring[0], ring[1]);
  }

  // ----- each part is outside the other -----

  ghost predicate Cuts(ring: seq<Point>, j: nat) {
    && StartsLeft(ring) && Simple(ring) && 1 < j < |ring| - 1 && IsCut(ring, ring[0], ring[j])
    && Cross(ring[|ring| - 1], ring[0], ring[j]) > 0.0 && Cross(ring[0], ring[1], ring[j]) > 0.0
  }

  lemma OutwardApart(ring: seq<Point>, j: nat, i: nat, u: Point, v: Point)
    requires Cuts(ring, j) && j < i < |ring| && IsEdge(Outward(ring, j), u, v)
    ensures u != v && EdgesApart(ring[i], ring[After(i, |ring|)], u, v)
  {
    hide EdgesApart, Cross;
    EdgesAreProper(Outward(ring, j), u, v);
    var (p, q) := (ring[i], ring[After(i, |ring|)]);
    EdgesOfCorner(ring, i);
    OutwardEdges(ring, j, u, v);
    EndsAreVertices(Outward(ring, j), u, v);
    hide IsEdge;
    if u == ring[j] && v == ring[0] {
      CutBack(ring, ring[0], ring[j]);
      ApartTurned(u, v, p, q);
    } else {
      assert p !in Outward(ring, j);
    }
  }

  lemma HomewardApart(ring: seq<Point>, j: nat, i: nat, u: Point, v: Point)
    requires Cuts(ring, j) && i < j && IsEdge(Homeward(ring, j), u, v)
    ensures u != v && EdgesApart(ring[i], ring[i + 1], u, v)
  {
    hide EdgesApart, Cross;
    EdgesAreProper(Homeward(ring, j), u, v);
    var (p, q) := (ring[i], ring[i + 1]);
    EdgesOfCorner(ring, i);
    HomewardEdges(ring, j, u, v);
    HomewardCorner(ring, j, i, u, v);
    hide IsEdge;
    if u == ring[0] && v == ring[j] {
      ApartTurned(u, v, p, q);
    }
  }

  lemma HomewardCorner(ring: seq<Point>, j: nat, i: nat, u: Point, v: Point)
    requires Distinct(ring) && 1 < j < |ring| - 1 && i < j && IsEdge(Homeward(ring, j), u, v)
    ensures (u, v) != (ring[i], ring[i + 1])
  {
    var home := Homeward(ring, j);
    var k: nat :| EdgeAt(home, k, u, v);
    if k == 0 {
      assert v == ring[j];
    }
  }

  /** The vertices past the cut are outside the part before it. */
  lemma {:induction false} BeyondIsOutside(ring: seq<Point>, j: nat, i: nat)
    requires Cuts(ring, j) && j < i < |ring|
    ensures Winding(Outward(ring, j), ring[i]) == 0
    decreases |ring| - i
  {
    hide Winding, EdgesApart, Along, IsEdge, Cross;
    var part := Outward(ring, j);
    forall u, v | IsEdge(part, u, v) ensures u != v && EdgesApart(ring[i], ring[After(i, |ring|)], u, v) {
      OutwardApart(ring, j, i, u, v);
    }
    if i + 1 < |ring| {
      BeyondIsOutside(ring, j, i + 1);
      StepOutside(part, ring[i], ring[i + 1]);
    } else {
      var (a, b, c, v) := (ring[i], ring[0], ring[1], ring[j]);
      var t := NearLowest(part, a);
      forall u, w | IsEdge(part, u, w) ensures EdgesApart(b, a, u, w) {
        ApartTurned(a, b, u, w);
      }
      StepUpTo(part, b, a, t);
      CornerSides(a, b, c);
      Opposite(a, b, v);
      CornerSides(b, v, a);
      CornerSides(b, a, v);
    }
  }

  /** The vertices before the cut are outside the part past it. */
  lemma {:induction false} BeforeIsOutside(ring: seq<Point>, j: nat, i: nat)
    requires Cuts(ring, j) && 0 < i < j
    ensures Winding(Homeward(ring, j), ring[i]) == 0
  {
    hide Winding, EdgesApart, Along, IsEdge, Cross;
    var part := Homeward(ring, j);
    forall k: nat | k < j ensures ApartFrom(part, ring[k], ring[k + 1]) {
      forall u, v | IsEdge(part, u, v) ensures u != v && EdgesApart(ring[k], ring[k + 1], u, v) {
        HomewardApart(ring, j, k, u, v);
      }
    }
    if i > 1 {
      BeforeIsOutside(ring, j, i - 1);
      StepOutside(part, ring[i - 1], ring[i]);
    } else {
      var (a, b, c, v) := (ring[|ring| - 1], ring[0], ring[1], ring[j]);
      var t := NearLowest(part, c);
      StepUpTo(part, b, c, t);
      PreviousIsHigher(ring);
      PartsStartLeft(ring, j);
      PreviousIsHigher(Outward(ring, j));
      Opposite(a, b, c);
      CornerSides(b, c, v);
      Opposite(b, v, c);
    }
  }

  /** Where the first corner is not an ear, the loop can be cut from there. */
  lemma FindCut(ring: seq<Point>) returns (j: nat)
    requires |ring| > 3 && Simple(ring) && StartsLeft(ring) && !IsEarOf(ring, 0)
    ensures Cuts(ring, j)
  {
    hide EdgesApart, IsEdge, Cross, InsideTriangle, IsEarOf;
    SimpleIsTame(ring);
    CornersAreClean(ring);
    j := CutFromCorner(ring);
  }
}
