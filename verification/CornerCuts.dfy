/** The cut from a corner to the vertex deepest in it. */
module CornerCuts {
  import opened Geometry
  import opened EdgeSums
  import opened RingMeasures
  import opened SegmentCrossing
  import opened SimpleLoops
  import opened SegmentWinding
  import opened Nearby
  import opened EarWinding
  import opened LowestVertex

  /** Two edges have nothing in common but ends of both, or are one segment. A vertex may be met more than once. */
  ghost predicate Tame(ring: seq<Point>) {
    && (forall a, b :: IsEdge(ring, a, b) ==> a != b)
    && forall a, b, c, d :: IsEdge(ring, a, b) && IsEdge(ring, c, d)
         ==> (a, b) == (c, d) || (a, b) == (d, c) || EdgesApart(a, b, c, d)
  }

  lemma SimpleIsTame(ring: seq<Point>)
    requires Simple(ring)
    ensures Tame(ring)
  {
    hide EdgesApart, IsEdge;
    forall a, b | IsEdge(ring, a, b) ensures a != b {
      EdgesAreProper(ring, a, b);
    }
  }

  /** A vertex is on no edge but those it ends. */
  lemma VertexOnEdge(ring: seq<Point>, i: nat, u: Point, v: Point)
    requires Tame(ring) && i < |ring| && IsEdge(ring, u, v) && OnEdge(u, v, ring[i])
    ensures IsEnd(ring[i], u, v)
  {
    hide EdgesApart, IsEdge, OnEdge;
    var (p, q) := (ring[i], ring[After(i, |ring|)]);
    EdgesOfCorner(ring, i);
    EndIsOn(q, p);
    OnEdgeBack(q, p, p);
    if (u, v) != (p, q) && (u, v) != (q, p) {
      ApartShare(u, v, p, q, p);
    }
  }

  /** The segment shares with every edge of the ring at most an end of both. */
  ghost predicate IsCut(ring: seq<Point>, p: Point, q: Point) {
    forall u, v :: IsEdge(ring, u, v) ==> EdgesApart(p, q, u, v)
  }

  lemma CutBack(ring: seq<Point>, p: Point, q: Point)
    requires IsCut(ring, p, q)
    ensures IsCut(ring, q, p)
  {
    hide EdgesApart, IsEdge;
    forall u, v | IsEdge(ring, u, v) ensures EdgesApart(q, p, u, v) {
      ApartTurned(p, q, u, v);
    }
  }

  /** Strictly between the two sides of a left-turning corner. */
  predicate InWedge(a: Point, b: Point, c: Point, p: Point) {
    Cross(a, b, p) > 0.0 && Cross(b, c, p) > 0.0
  }

  /** The corner at the start turns left, and no edge at its tip goes in between its sides. */
  ghost predicate CleanCorner(ring: seq<Point>) {
    && |ring| > 3 && Cross(ring[|ring| - 1], ring[0], ring[1]) > 0.0
    && forall u, v :: IsEdge(ring, u, v) ==>
         && (u == ring[0] ==> !InWedge(ring[|ring| - 1], ring[0], ring[1], v))
         && (v == ring[0] ==> !InWedge(ring[|ring| - 1], ring[0], ring[1], u))
  }

  lemma CornersAreClean(ring: seq<Point>)
    requires |ring| > 3 && MetOnce(ring, 0) && Cross(ring[|ring| - 1], ring[0], ring[1]) > 0.0
    ensures CleanCorner(ring)
  {
    hide IsEdge, Cross;
    var (a, b, c) := (ring[|ring| - 1], ring[0], ring[1]);
    CornerSides(a, b, c);
    CornerSides(b, c, a);
    forall u, v | IsEdge(ring, u, v)
      ensures (u == b ==> !InWedge(a, b, c, v)) && (v == b ==> !InWedge(a, b, c, u))
    {
      EdgesAtCorner(ring, 0, u, v);
    }
  }

  /** A vertex in the way of the corner at the start. */
  predicate Obstructs(ring: seq<Point>, i: nat) {
    && i < |ring| && ring[i] != ring[0] && ring[i] != ring[1] && ring[i] != ring[|ring| - 1]
    && InsideTriangle(ring[|ring| - 1], ring[0], ring[1], ring[i])
  }

  /** How far on the corner's side of the line across it. */
  function Depth(ring: seq<Point>, i: nat): real
    requires |ring| >= 2 && i < |ring|
  {
    Cross(ring[1], ring[|ring| - 1], ring[i])
  }

  lemma {:induction false} DeepestUpTo(ring: seq<Point>, i: nat) returns (j: nat)
    requires |ring| > 3 && i < |ring| && exists k: nat :: k <= i && Obstructs(ring, k)
    ensures Obstructs(ring, j) && forall k: nat :: k <= i && Obstructs(ring, k) ==> Depth(ring, k) <= Depth(ring, j)
  {
    hide InsideTriangle, Depth;
    if i > 0 && exists k: nat :: k <= i - 1 && Obstructs(ring, k) {
      j := DeepestUpTo(ring, i - 1);
      if Obstructs(ring, i) && Depth(ring, i) > Depth(ring, j) {
        j := i;
      }
    } else {
      j := i;
    }
  }

  lemma NotAnEar(ring: seq<Point>) returns (k: nat)
    requires |ring| > 3 && Cross(ring[|ring| - 1], ring[0], ring[1]) > 0.0 && !IsEarOf(ring, 0)
    ensures Obstructs(ring, k)
  {
    hide Cross, InsideTriangle;
    var p :| p in ring && p != ring[0] && !IsClearOf(ring[|ring| - 1], ring[0], ring[1], p);
    k :| 0 <= k < |ring| && ring[k] == p;
  }

  /** The deepest of the vertices in the way. */
  ghost predicate IsDeepest(ring: seq<Point>, j: nat)
    requires |ring| >= 2
  {
    Obstructs(ring, j) && forall k: nat :: Obstructs(ring, k) ==> Depth(ring, k) <= Depth(ring, j)
  }

  /** A vertex in the corner is strictly between its sides. */
  lemma BetweenTheSides(ring: seq<Point>, j: nat)
    requires CleanCorner(ring) && Tame(ring) && Obstructs(ring, j)
    ensures var (a, b, c) := (ring[|ring| - 1], ring[0], ring[1]);
      InWedge(a, b, c, ring[j]) && Cross(c, a, ring[j]) >= 0.0
  {
    hide Cross, EdgesApart, IsEdge, OnSegment;
    var (a, b, c, v) := (ring[|ring| - 1], ring[0], ring[1], ring[j]);
    HeightsBalance(v, a, b, c);
    EdgesOfCorner(ring, 0);
    if Cross(a, b, v) == 0.0 {
      var m := OnTheEdge(a, b, c, v);
      PointsAreOn(a, b, m);
      VertexOnEdge(ring, j, a, b);
    }
    if Cross(b, c, v) == 0.0 {
      CornerSides(a, b, c);
      var m := OnTheEdge(b, c, a, v);
      PointsAreOn(b, c, m);
      VertexOnEdge(ring, j, b, c);
    }
  }

  lemma DeeperThanVertices(ring: seq<Point>, j: nat, i: nat, level: real)
    requires |ring| > 3 && i < |ring| && IsDeepest(ring, j) && ring[i] != ring[0]
    requires level > Depth(ring, j) && level > 0.0
    ensures !InTip(ring[|ring| - 1], ring[0], ring[1], level, ring[i])
  {
    CornerSides(ring[1], ring[|ring| - 1], ring[0]);
    hide Cross, InsideTriangle;
    assert Obstructs(ring, i) ==> Depth(ring, i) <= Depth(ring, j);
  }

  /** From the tip to the deepest vertex in the way nothing is crossed. */
  lemma DeepestIsCut(ring: seq<Point>, j: nat)
    requires CleanCorner(ring) && Tame(ring) && IsDeepest(ring, j)
    ensures IsCut(ring, ring[0], ring[j])
  {
    hide Cross, EdgesApart, IsEdge, Along, InsideTriangle;
    var (b, v) := (ring[0], ring[j]);
    forall u, w | IsEdge(ring, u, w) ensures EdgesApart(b, v, u, w) {
      forall s: real, t: real | MeetAt(b, v, u, w, s, t)
        ensures IsEnd(Along(b, v, s), b, v) && IsEnd(Along(b, v, s), u, w)
      {
        EndsAlong(b, v);
        MeansOn(b, v, u, w, s, t);
        if s == 0.0 {
          VertexOnEdge(ring, 0, u, w);
        } else if s == 1.0 {
          VertexOnEdge(ring, j, u, w);
        } else {
          InsideTheTip(ring, j, s, u, w);
        }
      }
      ApartBy(b, v, u, w);
    }
  }

  lemma InsideTheTip(ring: seq<Point>, j: nat, s: real, u: Point, w: Point)
    requires CleanCorner(ring) && Tame(ring) && IsDeepest(ring, j)
    requires 0.0 < s < 1.0 && IsEdge(ring, u, w)
    ensures !OnEdge(u, w, Along(ring[0], ring[j], s))
  {
    hide Cross, EdgesApart, IsEdge, Along, InTip, InsideTriangle, OnSegment;
    var (a, b, c, v) := (ring[|ring| - 1], ring[0], ring[1], ring[j]);
    var x := Along(b, v, s);
    BetweenTheSides(ring, j);
    SidesAtDepth(a, b, c, v, s);
    EndsAreVertices(ring, u, w);
    EdgesOfCorner(ring, 0);
    if u == b {
      OutsideTheWedge(a, b, c, w, x);
    } else if w == b {
      OutsideTheWedge(a, b, c, u, x);
      OnEdgeBack(b, u, x);
    } else {
      var i: nat :| i < |ring| && ring[i] == u;
      var k: nat :| k < |ring| && ring[k] == w;
      DeeperThanVertices(ring, j, i, Cross(c, a, x));
      DeeperThanVertices(ring, j, k, Cross(c, a, x));
      TipIsClear(a, b, c, u, w, x);
    }
  }

  lemma OutsideTheWedge(a: Point, b: Point, c: Point, w: Point, x: Point)
    requires b != w && !InWedge(a, b, c, w) && InWedge(a, b, c, x)
    ensures !OnEdge(b, w, x)
  {
    hide Cross, OnSegment, Along, Mean;
    if OnEdge(b, w, x) {
      var t := FractionOn(b, w, x);
      SidesAlong(a, b, b, w, t);
      SidesAlong(b, c, b, w, t);
      CornerSides(a, b, c);
      CornerSides(b, c, a);
      ToAndFromZero(Cross(a, b, w), t);
      ToAndFromZero(Cross(b, c, w), t);
      SignOfTerm(t, Cross(a, b, w));
      SignOfTerm(t, Cross(b, c, w));
    }
  }

  lemma SidesAtDepth(a: Point, b: Point, c: Point, v: Point, s: real)
    requires 0.0 < s < 1.0 && Cross(a, b, v) > 0.0 && Cross(b, c, v) > 0.0 && Cross(c, a, v) >= 0.0
    ensures var x := Along(b, v, s);
      Cross(a, b, x) > 0.0 && Cross(b, c, x) > 0.0 && Cross(c, a, x) > Cross(c, a, v) && Cross(c, a, x) > 0.0
  {
    HeightsBalance(v, a, b, c);
    CornerSides(a, b, c);
    CornerSides(b, c, a);
    SidesAlong(a, b, b, v, s);
    SidesAlong(b, c, b, v, s);
    SidesAlong(c, a, b, v, s);
    hide Cross, Along, Mean;
    PartsArePositive(Cross(a, b, v), s);
    PartsArePositive(Cross(b, c, v), s);
    MeanIsAboveLower(Cross(c, a, b), Cross(c, a, v), s);
  }

  lemma MeanIsAboveLower(x: real, y: real, s: real)
    requires x > y && 0.0 < s < 1.0
    ensures Mean(x, y, s) > y
  {
    var (d, r) := (x - y, 1.0 - s);
    SignOfProduct(d, r);
    assert Mean(x, y, s) == d * r + y;
  }

  /** Where the first corner is not an ear, there is a cut from its tip to another vertex. */
  lemma CutFromCorner(ring: seq<Point>) returns (j: nat)
    requires CleanCorner(ring) && Tame(ring) && !IsEarOf(ring, 0)
    ensures Obstructs(ring, j) && IsCut(ring, ring[0], ring[j])
    ensures InWedge(ring[|ring| - 1], ring[0], ring[1], ring[j])
  {
    hide EdgesApart, IsEdge, Cross, InsideTriangle, IsEarOf;
    var k := NotAnEar(ring);
    j := DeepestUpTo(ring, |ring| - 1);
    BetweenTheSides(ring, j);
    DeepestIsCut(ring, j);
  }
}
