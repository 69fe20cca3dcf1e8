/** What holds of all points close enough to a given one. */
module Nearby {
  import opened Geometry
  import opened EdgeSums
  import opened RingMeasures
  import opened SegmentCrossing
  import opened SimpleLoops
  import opened SegmentWinding

  /** True of every distance up to e. */
  ghost predicate TrueUpTo(f: real -> bool, e: real) {
    0.0 < e <= 1.0 && forall t: real :: 0.0 < t <= e ==> f(t)
  }

  /** True of every distance small enough. */
  ghost predicate Soon(f: real -> bool) {
    exists e: real :: TrueUpTo(f, e)
  }

  lemma OneDistance(f: real -> bool) returns (t: real)
    requires Soon(f)
    ensures 0.0 < t <= 1.0 && f(t)
  {
    t :| TrueUpTo(f, t);
  }

  lemma SoonBoth(f: real -> bool, g: real -> bool, h: real -> bool)
    requires Soon(f) && Soon(g) && forall t: real :: f(t) && g(t) ==> h(t)
    ensures Soon(h)
  {
    var d: real, e: real :| TrueUpTo(f, d) && TrueUpTo(g, e);
    assert TrueUpTo(h, Min(d, e));
  }

  lemma SoonFrom(f: real -> bool, e: real)
    requires 0.0 < e && forall t: real :: 0.0 < t < e ==> f(t)
    ensures Soon(f)
  {
    assert TrueUpTo(f, Min(e / 2.0, 1.0));
  }

  type EdgeTest = (Point, Point, real) -> bool

  ghost function OfEdge(g: EdgeTest, u: Point, v: Point): real -> bool {
    t => g(u, v, t)
  }

  ghost predicate AllPass(g: EdgeTest, edges: seq<(Point, Point)>, t: real) {
    forall e :: e in edges ==> g(e.0, e.1, t)
  }

  /** What is soon true of each of finitely many edges is soon true of all of them. */
  lemma {:induction false} SoonAll(g: EdgeTest, edges: seq<(Point, Point)>)
    requires forall e :: e in edges ==> Soon(OfEdge(g, e.0, e.1))
    ensures Soon(t => AllPass(g, edges, t))
  {
    if edges == [] {
      SoonFrom(t => AllPass(g, edges, t), 1.0);
    } else {
      var (first, rest) := (edges[0], edges[1..]);
      SoonAll(g, rest);
      forall t: real | g(first.0, first.1, t) && AllPass(g, rest, t) ensures AllPass(g, edges, t) {
        forall e | e in edges ensures g(e.0, e.1, t) {
          assert e == first || e in rest;
        }
      }
      SoonBoth(OfEdge(g, first.0, first.1), t => AllPass(g, rest, t), t => AllPass(g, edges, t));
    }
  }

  /** Still positive, after a time t of steady change. */
  predicate Positive(x: real, k: real, t: real) {
    x + t * k > 0.0
  }

  lemma StaysPositive(x: real, k: real) returns (e: real)
    requires x > 0.0
    ensures 0.0 < e <= 1.0 && forall t: real :: 0.0 < t < e ==> Positive(x, k, t)
  {
    if k >= 0.0 {
      e := 1.0;
      forall t: real | 0.0 < t < e ensures Positive(x, k, t) {
        SignOfTerm(t, k);
      }
    } else {
      var zero := x / -k;
      assert zero * -k == x;
      SignOfProduct(zero, -k);
      e := Min(zero, 1.0);
      forall t: real | 0.0 < t < e ensures Positive(x, k, t) {
        SignOfProduct(t - zero, -k);
        assert (t - zero) * -k == -(t * k) - zero * -k;
      }
    }
  }

  // ----- off the ring -----

  /** A point of the closed edge. */
  predicate OnEdge(u: Point, v: Point, x: Point) {
    Cross(u, v, x) == 0.0 && OnSegment(u, v, x)
  }

  lemma OnEdgeBack(u: Point, v: Point, x: Point)
    ensures OnEdge(u, v, x) <==> OnEdge(v, u, x)
  {
    Opposite(u, v, x);
  }

  ghost predicate OffRing(ring: seq<Point>, x: Point) {
    forall u, v :: IsEdge(ring, u, v) ==> !OnEdge(u, v, x)
  }

  /** A step to the right and, less steeply than any edge, up. */
  function Beside(p: Point, rise: real, t: real): Point {
    Point(p.x + t, p.y + t * rise)
  }

  predicate Steeper(u: Point, v: Point, rise: real) {
    rise > 0.0 && (u.y < v.y ==> (v.x - u.x) * rise < v.y - u.y) && (u.y > v.y ==> (u.x - v.x) * rise < u.y - v.y)
  }

  lemma SoonSteeper(u: Point, v: Point)
    ensures Soon(OfEdge(Steeper, u, v))
  {
    if u.y == v.y {
      forall t: real | 0.0 < t < 1.0 ensures OfEdge(Steeper, u, v)(t) {
        assert Steeper(u, v, t);
      }
      SoonFrom(OfEdge(Steeper, u, v), 1.0);
    } else {
      var (h, k) := if u.y < v.y then (v.y - u.y, u.x - v.x) else (u.y - v.y, v.x - u.x);
      var e := StaysPositive(h, k);
      forall t: real | 0.0 < t < e ensures Steeper(u, v, t) {
        assert Positive(h, k, t);
        assert t * k == -(-k * t);
      }
      SoonFrom(OfEdge(Steeper, u, v), e);
    }
  }

  /** Counted alike from the point beside, which is not on the edge. */
  predicate Settled(p: Point, rise: real, u: Point, v: Point, t: real) {
    Turn(Beside(p, rise, t), u, v) == Turn(p, u, v) && !OnEdge(u, v, Beside(p, rise, t))
  }

  lemma CrossBeside(u: Point, v: Point, p: Point, rise: real, t: real)
    ensures Cross(u, v, Beside(p, rise, t)) == Cross(u, v, p) + t * ((v.x - u.x) * rise - (v.y - u.y))
  {
  }

  /** Below both ends one stays below them for a while, and above or level with both one is above them at once. */
  lemma SettlesAside(p: Point, rise: real, u: Point, v: Point)
    requires rise > 0.0 && (p.y < Min(u.y, v.y) || p.y >= Max(u.y, v.y))
    ensures Soon(t => Settled(p, rise, u, v, t))
  {
    var f := (t: real) => Settled(p, rise, u, v, t);
    if p.y < Min(u.y, v.y) {
      var (gap, fall) := (Min(u.y, v.y) - p.y, -rise);
      var e := StaysPositive(gap, fall);
      forall t: real | 0.0 < t < e ensures f(t) {
        assert Positive(gap, fall, t);
        assert t * fall == -(t * rise);
      }
      SoonFrom(f, e);
    } else {
      forall t: real | 0.0 < t < 1.0 ensures f(t) {
        SignOfProduct(t, rise);
      }
      SoonFrom(f, 1.0);
    }
  }

  /** Beside p one is on the left of the edge as p is, and otherwise on the right. */
  lemma BesideOnSide(p: Point, rise: real, u: Point, v: Point, t: real)
    requires Steeper(u, v, rise) && u.y < v.y && t > 0.0
    requires Cross(u, v, p) > 0.0 ==> Positive(Cross(u, v, p), (v.x - u.x) * rise - (v.y - u.y), t)
    ensures var side := Cross(u, v, Beside(p, rise, t)); side != 0.0 && (side > 0.0 <==> Cross(u, v, p) > 0.0)
  {
    var k := (v.x - u.x) * rise - (v.y - u.y);
    CrossBeside(u, v, p, rise, t);
    hide Cross;
    SignOfProduct(k, t);
  }

  lemma SettlesRising(p: Point, rise: real, u: Point, v: Point)
    requires Steeper(u, v, rise) && u.y <= p.y < v.y
    ensures Soon(t => Settled(p, rise, u, v, t))
  {
    hide Turn, Cross, OnSegment, Steeper;
    var f := (t: real) => Settled(p, rise, u, v, t);
    var (gap, fall) := (v.y - p.y, -rise);
    var d := StaysPositive(gap, fall);
    var e := 1.0;
    if Cross(u, v, p) > 0.0 {
      e := StaysPositive(Cross(u, v, p), (v.x - u.x) * rise - (v.y - u.y));
    }
    RisePositive(u, v, rise);
    forall t: real | 0.0 < t < Min(d, e) ensures f(t) {
      assert Positive(gap, fall, t);
      assert t * fall == -(t * rise);
      SignOfProduct(t, rise);
      BesideOnSide(p, rise, u, v, t);
      TurnBySide(p, u, v);
      TurnBySide(Beside(p, rise, t), u, v);
    }
    SoonFrom(f, Min(d, e));
  }

  lemma RisePositive(u: Point, v: Point, rise: real)
    requires Steeper(u, v, rise)
    ensures rise > 0.0
  {
  }

  lemma Settles(p: Point, rise: real, u: Point, v: Point)
    requires Steeper(u, v, rise)
    ensures Soon(t => Settled(p, rise, u, v, t))
  {
    hide Turn, OnEdge;
    if p.y < Min(u.y, v.y) || p.y >= Max(u.y, v.y) {
      SettlesAside(p, rise, u, v);
    } else if u.y < v.y {
      SettlesRising(p, rise, u, v);
    } else {
      SettlesRising(p, rise, v, u);
      forall t: real | Settled(p, rise, v, u, t) ensures Settled(p, rise, u, v, t) {
        TurnBack(p, u, v);
        TurnBack(Beside(p, rise, t), u, v);
        OnEdgeBack(u, v, Beside(p, rise, t));
      }
      var g := (t: real) => Settled(p, rise, v, u, t);
      SoonBoth(g, g, t => Settled(p, rise, u, v, t));
    }
  }

  /** Every point has one beside it that is on none of the edges and is counted by each as the point is. */
  lemma PointBeside(edges: seq<(Point, Point)>, p: Point) returns (q: Point)
    ensures forall e :: e in edges ==> Turn(q, e.0, e.1) == Turn(p, e.0, e.1) && !OnEdge(e.0, e.1, q)
  {
    hide Turn, OnEdge, Steeper;
    forall e | e in edges ensures Soon(OfEdge(Steeper, e.0, e.1)) {
      SoonSteeper(e.0, e.1);
    }
    SoonAll(Steeper, edges);
    var rise := OneDistance(t => AllPass(Steeper, edges, t));
    var g := (u: Point, v: Point, t: real) => Settled(p, rise, u, v, t);
    forall e | e in edges ensures Soon(OfEdge(g, e.0, e.1)) {
      Settles(p, rise, e.0, e.1);
      var f := (t: real) => Settled(p, rise, e.0, e.1, t);
      SoonBoth(f, f, OfEdge(g, e.0, e.1));
    }
    SoonAll(g, edges);
    var t := OneDistance(t => AllPass(g, edges, t));
    q := Beside(p, rise, t);
    assert forall e :: e in edges ==> g(e.0, e.1, t);
  }

  // ----- away from an edge -----

  lemma AlongStep(p: Point, q: Point, t: real)
    ensures Along(p, q, t) == Point(p.x + t * (q.x - p.x), p.y + t * (q.y - p.y))
  {
    var (dx, dy) := (q.x - p.x, q.y - p.y);
    assert Along(p, q, t) == Point(p.x + t * dx, p.y + t * dy);
  }

  /** What can keep a point off the edge: one side of its line or the other, or a side of its box. */
  function Clearance(u: Point, v: Point, x: Point, i: nat): real {
    if i == 0 then Cross(u, v, x)
    else if i == 1 then -Cross(u, v, x)
    else if i == 2 then Min(u.x, v.x) - x.x
    else if i == 3 then x.x - Max(u.x, v.x)
    else if i == 4 then Min(u.y, v.y) - x.y
    else x.y - Max(u.y, v.y)
  }

  lemma OffByClearance(u: Point, v: Point, x: Point)
    ensures !OnEdge(u, v, x) <==> exists i: nat :: i < 6 && Clearance(u, v, x, i) > 0.0
  {
    if !OnEdge(u, v, x) {
      assert || Clearance(u, v, x, 0) > 0.0 || Clearance(u, v, x, 1) > 0.0 || Clearance(u, v, x, 2) > 0.0
             || Clearance(u, v, x, 3) > 0.0 || Clearance(u, v, x, 4) > 0.0 || Clearance(u, v, x, 5) > 0.0;
    }
  }

  lemma ClearanceAlong(u: Point, v: Point, p: Point, q: Point, t: real, i: nat)
    ensures Clearance(u, v, Along(p, q, t), i)
         == Clearance(u, v, p, i) + t * (Clearance(u, v, q, i) - Clearance(u, v, p, i))
  {
    if i <= 1 {
      CrossIsAffine(u, v, p, q, t);
      AffineStep(Cross(u, v, p), Cross(u, v, q), t);
      Negated(Cross(u, v, p), Cross(u, v, q), t);
    } else {
      AlongStep(p, q, t);
      Negated(p.x, q.x, t);
      Negated(p.y, q.y, t);
    }
  }

  lemma LeavesEdge(u: Point, v: Point, p: Point, q: Point)
    requires !OnEdge(u, v, p)
    ensures Soon(t => !OnEdge(u, v, Along(p, q, t)))
  {
    hide OnEdge, Clearance, Along;
    var f := (t: real) => !OnEdge(u, v, Along(p, q, t));
    OffByClearance(u, v, p);
    var i: nat :| i < 6 && Clearance(u, v, p, i) > 0.0;
    var (gap, k) := (Clearance(u, v, p, i), Clearance(u, v, q, i) - Clearance(u, v, p, i));
    var e := StaysPositive(gap, k);
    forall t: real | 0.0 < t < e ensures f(t) {
      assert Positive(gap, k, t);
      ClearanceAlong(u, v, p, q, t, i);
      OffByClearance(u, v, Along(p, q, t));
    }
    SoonFrom(f, e);
  }

  lemma AffineStep(x: real, y: real, t: real)
    ensures (1.0 - t) * x + t * y == x + t * (y - x)
  {
  }

  lemma Negated(x: real, y: real, t: real)
    ensures t * (x - y) == -(t * (y - x))
  {
  }

  function EdgesOf(ring: seq<Point>): (edges: seq<(Point, Point)>)
    ensures forall u, v :: IsEdge(ring, u, v) <==> (u, v) in edges
  {
    var edges := seq(|ring|, i requires 0 <= i < |ring| => (ring[i], ring[After(i, |ring|)]));
    assert forall i: nat, u, v :: EdgeAt(ring, i, u, v) ==> edges[i] == (u, v);
    assert forall i :: 0 <= i < |edges| ==> EdgeAt(ring, i, edges[i].0, edges[i].1);
    edges
  }

  /** From a point on none of the edges one can go a little in any direction without meeting them. */
  lemma LeavesEdges(edges: seq<(Point, Point)>, p: Point, q: Point) returns (r: real)
    requires forall e :: e in edges ==> !OnEdge(e.0, e.1, p)
    ensures 0.0 < r <= 1.0 && forall e :: e in edges ==> !SegmentsMeet(p, Along(p, q, r), e.0, e.1)
  {
    hide OnEdge, Along, SegmentsMeet;
    var g := (u: Point, v: Point, t: real) => !OnEdge(u, v, Along(p, q, t));
    forall e | e in edges ensures Soon(OfEdge(g, e.0, e.1)) {
      LeavesEdge(e.0, e.1, p, q);
      var f := (t: real) => !OnEdge(e.0, e.1, Along(p, q, t));
      SoonBoth(f, f, OfEdge(g, e.0, e.1));
    }
    SoonAll(g, edges);
    var f := (t: real) => AllPass(g, edges, t);
    r :| TrueUpTo(f, r);
    forall e | e in edges ensures !SegmentsMeet(p, Along(p, q, r), e.0, e.1) {
      forall t: real | 0.0 < t <= r ensures !OnEdge(e.0, e.1, Along(p, q, t)) {
        assert f(t);
        assert g(e.0, e.1, t);
      }
      StaysOff(e.0, e.1, p, q, r);
    }
  }

  lemma LeavesRing(ring: seq<Point>, p: Point, q: Point) returns (r: real)
    requires OffRing(ring, p)
    ensures 0.0 < r <= 1.0 && Misses(p, Along(p, q, r), ring)
  {
    hide OnEdge, IsEdge, Along, SegmentsMeet;
    r := LeavesEdges(EdgesOf(ring), p, q);
    forall u, v | IsEdge(ring, u, v) ensures !SegmentsMeet(p, Along(p, q, r), u, v) {
      assert (u, v) in EdgesOf(ring);
    }
  }

  lemma StaysOff(u: Point, v: Point, p: Point, q: Point, r: real)
    requires 0.0 < r <= 1.0 && !OnEdge(u, v, p) && forall t: real :: 0.0 < t <= r ==> !OnEdge(u, v, Along(p, q, t))
    ensures !SegmentsMeet(p, Along(p, q, r), u, v)
  {
    hide OnEdge, Along;
    forall s: real, t: real ensures !MeetAt(p, Along(p, q, r), u, v, s, t) {
      if MeetAt(p, Along(p, q, r), u, v, s, t) {
        PartWay(p, q, r, s);
        PartIsFraction(r, s);
        EndsAlong(p, q);
        MeansOn(p, Along(p, q, r), u, v, s, t);
      }
    }
  }

  lemma PartWay(p: Point, q: Point, r: real, s: real)
    ensures Along(p, Along(p, q, r), s) == Along(p, q, s * r)
  {
    PartOf(p.x, q.x - p.x, r, s);
    PartOf(p.y, q.y - p.y, r, s);
  }

  lemma PartOf(p: real, d: real, r: real, s: real)
    ensures p + s * ((p + r * d) - p) == p + s * r * d
  {
  }

  lemma PartIsFraction(r: real, s: real)
    requires 0.0 < r <= 1.0 && IsFraction(s)
    ensures 0.0 <= s * r <= r && (s * r == 0.0 ==> s == 0.0)
  {
    SignOfProduct(s, r);
    SignOfProduct(1.0 - s, r);
    assert (1.0 - s) * r == r - s * r;
  }

  lemma MeansOn(p: Point, q: Point, u: Point, v: Point, s: real, t: real)
    requires MeetAt(p, q, u, v, s, t)
    ensures OnEdge(u, v, Along(p, q, s)) && OnEdge(p, q, Along(p, q, s))
  {
    PointsAreOn(u, v, t);
    PointsAreOn(p, q, s);
  }

  /** A segment misses the ring when none of its points is on it. */
  lemma MissesWhenOff(p: Point, q: Point, ring: seq<Point>)
    requires forall t: real :: IsFraction(t) ==> OffRing(ring, Along(p, q, t))
    ensures Misses(p, q, ring)
  {
    hide OnEdge, IsEdge, Along;
    forall u, v, s: real, t: real | IsEdge(ring, u, v) && MeetAt(p, q, u, v, s, t) ensures false {
      MeansOn(p, q, u, v, s, t);
    }
  }
}
