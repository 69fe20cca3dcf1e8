/** Which side of a loop one is on, setting out from one of its vertices between two edges. */
module CornerSectors {
  import opened Geometry
  import opened EdgeSums
  import opened RingMeasures
  import opened SegmentCrossing
  import opened SimpleLoops
  import opened SegmentWinding
  import opened Nearby
  import opened EarWinding
  import opened LowestVertex
  import opened CornerCuts
  import opened EdgeJumps

  /** One side of the edge's line or box has both points off it. */
  ghost predicate BothClear(p: Point, q: Point, x: Point, y: Point) {
    exists i: nat :: i < 6 && Clearance(p, q, x, i) > 0.0 && Clearance(p, q, y, i) > 0.0
  }

  lemma ClearBetween(p: Point, q: Point, x: Point, y: Point, t: real)
    requires BothClear(p, q, x, y) && IsFraction(t)
    ensures !OnEdge(p, q, Along(x, y, t))
  {
    hide Clearance, OnEdge, Along;
    var i: nat :| i < 6 && Clearance(p, q, x, i) > 0.0 && Clearance(p, q, y, i) > 0.0;
    var (f, g) := (Clearance(p, q, x, i), Clearance(p, q, y, i));
    ClearanceAlong(p, q, x, y, t, i);
    assert f + t * (g - f) == Mean(f, g, t);
    MeanIsPositive(f, g, t);
    OffByClearance(p, q, Along(x, y, t));
  }

  lemma SoonBothClear(v: Point, c: Point, z: Point, p: Point, q: Point)
    requires !OnEdge(p, q, v)
    ensures Soon(t => BothClear(p, q, Along(v, c, t), Along(v, z, t)))
  {
    hide Clearance, OnEdge, Along;
    var f := (t: real) => BothClear(p, q, Along(v, c, t), Along(v, z, t));
    OffByClearance(p, q, v);
    var i: nat :| i < 6 && Clearance(p, q, v, i) > 0.0;
    var gap := Clearance(p, q, v, i);
    var (k, l) := (Clearance(p, q, c, i) - gap, Clearance(p, q, z, i) - gap);
    var d := StaysPositive(gap, k);
    var e := StaysPositive(gap, l);
    forall t: real | 0.0 < t < Min(d, e) ensures f(t) {
      assert Positive(gap, k, t) && Positive(gap, l, t);
      ClearanceAlong(p, q, v, c, t, i);
      ClearanceAlong(p, q, v, z, t, i);
    }
    SoonFrom(f, Min(d, e));
  }

  /** The thin triangle at v between the directions of c and z keeps off the edges that are not at v. */
  ghost predicate IsThin(ring: seq<Point>, v: Point, c: Point, z: Point, t: real) {
    forall p, q :: IsEdge(ring, p, q) && p != v && q != v ==> BothClear(p, q, Along(v, c, t), Along(v, z, t))
  }

  lemma ThinTriangle(ring: seq<Point>, k: nat, z: Point) returns (t: real)
    requires Tame(ring) && k < |ring|
    ensures 0.0 < t < 1.0 && IsThin(ring, ring[k], ring[After(k, |ring|)], z, t)
  {
    hide IsEdge, EdgesApart, OnEdge, BothClear, Along;
    var (v, c) := (ring[k], ring[After(k, |ring|)]);
    var edges := EdgesOf(ring);
    var g := (p: Point, q: Point, t: real) => p == v || q == v || BothClear(p, q, Along(v, c, t), Along(v, z, t));
    forall e | e in edges ensures Soon(OfEdge(g, e.0, e.1)) {
      if e.0 == v || e.1 == v {
        forall t: real | 0.0 < t < 1.0 ensures OfEdge(g, e.0, e.1)(t) {
        }
        SoonFrom(OfEdge(g, e.0, e.1), 1.0);
      } else {
        assert IsEdge(ring, e.0, e.1);
        if OnEdge(e.0, e.1, v) {
          VertexOnEdge(ring, k, e.0, e.1);
        }
        SoonBothClear(v, c, z, e.0, e.1);
        var f := (t: real) => BothClear(e.0, e.1, Along(v, c, t), Along(v, z, t));
        SoonBoth(f, f, OfEdge(g, e.0, e.1));
      }
    }
    SoonAll(g, edges);
    var f := (t: real) => AllPass(g, edges, t);
    var far: real :| TrueUpTo(f, far);
    t := far / 2.0;
    assert f(t);
    forall p, q | IsEdge(ring, p, q) && p != v && q != v ensures BothClear(p, q, Along(v, c, t), Along(v, z, t)) {
      assert (p, q) in edges;
      assert g(p, q, t);
    }
  }

  /** Strictly between two directions at v that turn left from the first to the second. */
  predicate IsBetween(v: Point, first: Point, p: Point, second: Point) {
    Cross(v, first, p) > 0.0 && Cross(v, p, second) > 0.0
  }

  /** The sides of the thin triangle seen from v. */
  lemma InsideThin(v: Point, c: Point, z: Point, t: real, r: real)
    requires 0.0 < t < 1.0 && 0.0 < r < 1.0
    ensures var x := Along(Along(v, c, t), Along(v, z, t), r);
      && Cross(v, c, x) == r * (t * Cross(v, c, z)) && Cross(v, x, z) == (1.0 - r) * (t * Cross(v, c, z))
  {
    var (m, y) := (Along(v, c, t), Along(v, z, t));
    var x := Along(m, y, r);
    hide Cross, Along, Mean;
    SidesAlong(v, c, m, y, r);
    SidesAlong(v, c, v, z, t);
    OnItsOwnLine(v, c, t);
    CornerSides(v, c, c);
    ToAndFromZero(Cross(v, c, y), r);
    ToAndFromZero(Cross(v, c, z), t);
    SidesAlong(v, z, m, y, r);
    SidesAlong(v, z, v, c, t);
    OnItsOwnLine(v, z, t);
    CornerSides(v, z, z);
    ToAndFromZero(Cross(v, z, m), r);
    ToAndFromZero(Cross(v, z, c), t);
    CrossTurned(v, z, x);
    CrossTurned(v, z, c);
    NegatedProduct(1.0 - r, t, Cross(v, z, c));
  }

  lemma CrossTurned(v: Point, p: Point, q: Point)
    ensures Cross(v, q, p) == -Cross(v, p, q)
  {
  }

  lemma NegatedProduct(r: real, t: real, x: real)
    ensures r * (t * -x) == -(r * (t * x))
  {
  }

  lemma AlongRay(v: Point, a: Point, x: Point, p: Point)
    requires v != a && OnEdge(v, a, x) && Cross(v, p, x) > 0.0
    ensures Cross(v, p, a) > 0.0
  {
    hide Cross, OnSegment, Along, Mean;
    var t := FractionOn(v, a, x);
    SidesAlong(v, p, v, a, t);
    CornerSides(v, p, p);
    ToAndFromZero(Cross(v, p, a), t);
    SignOfTerm(t, Cross(v, p, a));
  }

  lemma AlongRayBack(v: Point, a: Point, x: Point, p: Point)
    requires v != a && OnEdge(v, a, x) && Cross(v, x, p) > 0.0
    ensures Cross(v, a, p) > 0.0
  {
    hide Cross, OnSegment, Along, Mean;
    var t := FractionOn(v, a, x);
    CrossTurned(v, p, x);
    CrossTurned(v, p, a);
    SidesAlong(v, p, v, a, t);
    CornerSides(v, p, p);
    ToAndFromZero(Cross(v, p, a), t);
    SignOfTerm(t, Cross(v, p, a));
  }

  /** Inside the thin triangle one is between the two directions. */
  lemma ThinSides(v: Point, c: Point, z: Point, t: real, r: real)
    requires 0.0 < t < 1.0 && 0.0 < r < 1.0 && Cross(v, c, z) != 0.0
    ensures var x := Along(Along(v, c, t), Along(v, z, t), r);
      && Cross(v, c, x) != 0.0
      && if Cross(v, c, z) > 0.0 then IsBetween(v, c, x, z) else Cross(v, c, x) < 0.0 && Cross(v, x, z) < 0.0
  {
    hide Cross, Along;
    InsideThin(v, c, z, t, r);
    var x := Along(Along(v, c, t), Along(v, z, t), r);
    ThinSigns(Cross(v, c, z), t, r, t * Cross(v, c, z), Cross(v, c, x), Cross(v, x, z));
  }

  /** Nothing of the loop is in the thin triangle, but for the edge along its side. */
  lemma ThinIsOff(ring: seq<Point>, k: nat, z: Point, t: real, r: real)
    requires Simple(ring) && k < |ring| && 0.0 < t < 1.0 && 0.0 < r <= 1.0
    requires var (a, v, c) := (ring[Before(k, |ring|)], ring[k], ring[After(k, |ring|)]);
      && z !in ring && ApartFrom(ring, v, z) && IsThin(ring, v, c, z, t) && Cross(v, c, z) != 0.0
      && (if Cross(v, c, z) > 0.0 then !IsBetween(v, c, a, z) else !IsBetween(v, z, a, c))
    ensures var (v, c) := (ring[k], ring[After(k, |ring|)]);
      OffRing(ring, Along(Along(v, c, t), Along(v, z, t), r))
  {
    hide IsEdge, EdgesApart, OnEdge, BothClear, Along, Cross, ApartFrom;
    var (v, c) := (ring[k], ring[After(k, |ring|)]);
    var (m, y) := (Along(v, c, t), Along(v, z, t));
    var x := Along(m, y, r);
    if r == 1.0 {
      EndsAlong(m, y);
      ApartIsOff(ring, v, z, t);
    } else {
      forall p, q | IsEdge(ring, p, q) ensures !OnEdge(p, q, x) {
        EdgeIsOffThin(ring, k, z, t, r, p, q);
      }
    }
  }

  lemma EdgeIsOffThin(ring: seq<Point>, k: nat, z: Point, t: real, r: real, p: Point, q: Point)
    requires Simple(ring) && k < |ring| && 0.0 < t < 1.0 && 0.0 < r < 1.0 && IsEdge(ring, p, q)
    requires var (a, v, c) := (ring[Before(k, |ring|)], ring[k], ring[After(k, |ring|)]);
      && IsThin(ring, v, c, z, t) && Cross(v, c, z) != 0.0
      && (if Cross(v, c, z) > 0.0 then !IsBetween(v, c, a, z) else !IsBetween(v, z, a, c))
    ensures var (v, c) := (ring[k], ring[After(k, |ring|)]);
      !OnEdge(p, q, Along(Along(v, c, t), Along(v, z, t), r))
  {
    hide IsEdge, EdgesApart, OnEdge, BothClear, Along, Cross, IsBetween;
    var (a, v, c) := (ring[Before(k, |ring|)], ring[k], ring[After(k, |ring|)]);
    EdgesAtCorner(ring, k, p, q);
    EdgesAreProper(ring, p, q);
    ThinSides(v, c, z, t, r);
    if p == v {
      OffOwnLine(v, c, Along(Along(v, c, t), Along(v, z, t), r));
    } else if q == v {
      OffTheOther(a, v, c, z, Along(Along(v, c, t), Along(v, z, t), r));
    } else {
      ClearBetween(p, q, Along(v, c, t), Along(v, z, t), r);
    }
  }

  lemma ThinSigns(area: real, t: real, r: real, part: real, first: real, second: real)
    requires area != 0.0 && 0.0 < t < 1.0 && 0.0 < r < 1.0
    requires part == t * area && first == r * part && second == (1.0 - r) * part
    ensures if area > 0.0 then first > 0.0 && second > 0.0 else first < 0.0 && second < 0.0
  {
    SignOfProduct(t, area);
    assert first + second == part;
    ShareOf(r, part, first);
  }

  /** A proper share of a quantity, and what it leaves. */
  lemma ShareOf(r: real, whole: real, share: real)
    requires 0.0 < r < 1.0 && share == r * whole
    ensures whole > 0.0 ==> 0.0 < share < whole
    ensures whole < 0.0 ==> whole < share < 0.0
  {
    var rest := 1.0 - r;
    SignOfProduct(r, whole);
    SignOfProduct(rest, whole);
    assert rest * whole == whole - share;
  }

  lemma Commuted(x: real, y: real)
    ensures x * y == y * x
  {
  }

  lemma OffOwnLine(v: Point, c: Point, x: Point)
    requires Cross(v, c, x) != 0.0
    ensures !OnEdge(v, c, x)
  {
  }

  lemma OffTheOther(a: Point, v: Point, c: Point, z: Point, x: Point)
    requires a != v && (if Cross(v, c, z) > 0.0 then !IsBetween(v, c, a, z) else !IsBetween(v, z, a, c))
    requires if Cross(v, c, z) > 0.0 then IsBetween(v, c, x, z) else Cross(v, c, x) < 0.0 && Cross(v, x, z) < 0.0
    ensures !OnEdge(a, v, x)
  {
    hide Cross, OnEdge;
    OnEdgeBack(a, v, x);
    CrossTurned(v, x, c);
    CrossTurned(v, x, z);
    if OnEdge(v, a, x) {
      if Cross(v, c, z) > 0.0 {
        AlongRay(v, a, x, c);
        AlongRayBack(v, a, x, z);
      } else {
        AlongRay(v, a, x, z);
        AlongRayBack(v, a, x, c);
      }
    }
  }

  /**
   From a vertex v of a simple loop one sets out towards z, on one side of the edge that leaves v and with the edge
   that comes to v not in between. Then the loop winds around z as it does beside the edge that leaves v, which is
   once less than somewhere if z is on the right, and once more if it is on the left.
   */
  lemma BesideEdge(ring: seq<Point>, k: nat, z: Point) returns (q: Point)
    requires Simple(ring) && k < |ring|
    requires var (a, v, c) := (ring[Before(k, |ring|)], ring[k], ring[After(k, |ring|)]);
      && z !in ring && ApartFrom(ring, v, z) && Cross(v, c, z) != 0.0
      && (if Cross(v, c, z) > 0.0 then !IsBetween(v, c, a, z) else !IsBetween(v, z, a, c))
    ensures Winding(ring, q)
         == Winding(ring, z) + if Cross(ring[k], ring[After(k, |ring|)], z) < 0.0 then 1 else -1
  {
    hide IsEdge, EdgesApart, OnEdge, BothClear, Along, Cross, ApartFrom, Winding, IsThin, SegmentsMeet, OffRing,
         RightSide, LeftSide, Tame;
    var (v, c) := (ring[k], ring[After(k, |ring|)]);
    EdgesOfCorner(ring, k);
    EdgesAreProper(ring, v, c);
    SimpleIsTame(ring);
    var t := ThinTriangle(ring, k, z);
    var (m, x) := (Along(v, c, t), Along(v, z, t));
    SideOfAlong(v, c, z, t);
    SidesAreBeside(v, c);
    var r: real, l: real;
    if Cross(v, c, z) < 0.0 {
      r, l := JumpAt(ring, k, m, x, LeftSide(v, c), []);
      q := Along(m, LeftSide(v, c), l);
    } else {
      l, r := JumpAt(ring, k, m, RightSide(v, c), x, []);
      q := Along(m, RightSide(v, c), l);
    }
    forall s: real | IsFraction(s) ensures OffRing(ring, Along(Along(m, x, r), x, s)) {
      var u := FromWithin(m, x, r, s);
      ThinIsOff(ring, k, z, t, u);
    }
    MissesWhenOff(Along(m, x, r), x, ring);
    WindingAlong(ring, Along(m, x, r), x);
    StepUpTo(ring, v, z, t);
  }

  lemma SideOfAlong(v: Point, c: Point, z: Point, t: real)
    requires t > 0.0
    ensures (Cross(v, c, Along(v, z, t)) > 0.0 <==> Cross(v, c, z) > 0.0)
         && (Cross(v, c, Along(v, z, t)) < 0.0 <==> Cross(v, c, z) < 0.0)
  {
    hide Cross, Along, Mean;
    SidesAlong(v, c, v, z, t);
    CornerSides(v, c, c);
    ToAndFromZero(Cross(v, c, z), t);
    SignOfProduct(Cross(v, c, z), t);
    Commuted(t, Cross(v, c, z));
  }

  lemma FromWithin(m: Point, x: Point, r: real, s: real) returns (u: real)
    requires 0.0 < r <= 1.0 && IsFraction(s)
    ensures 0.0 < u <= 1.0 && Along(Along(m, x, r), x, s) == Along(m, x, u)
  {
    hide Along, Mean;
    EndsAlong(m, x);
    BetweenFractions(m, x, r, 1.0, s);
    u := Mean(r, 1.0, s);
  }
}
