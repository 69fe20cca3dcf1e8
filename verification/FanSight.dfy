/** In the triangle of a ray, below whatever vertex stands there, some reflex vertex stands. */
module FanSight {
  import opened Options
  import opened Geometry
  import opened EdgeSums
  import opened RingMeasures
  import opened SegmentCrossing
  import opened SimpleLoops
  import opened SegmentWinding
  import opened Nearby
  import opened EarWinding
  import opened LowestVertex
  import opened CornerCuts
  import opened CornerSectors
  import opened EdgeJumps
  import opened Bridging
  import opened RaySight
  import opened TwoEars
  import opened Sight
  import opened Fans
  import opened Views

  /** A fan from inside a loop that runs counter-clockwise. */
  ghost predicate IsInnerFan(left: bool, ring: seq<Point>, o: Point, x: Point, c: Point, w: Point) {
    IsFan(left, ring, o, x, c, w) && OnceAtMost(ring) && Winding(ring, o) == 1 && o !in ring
  }

  /** The loop comes to x, where the fan's edge starts, from the fan's side of the ray too. */
  ghost predicate IsTouched(left: bool, ring: seq<Point>, o: Point, x: Point, c: Point) {
    exists n :: Joined(ring, x, n) && n != c && Side(left, o, x, n) > 0.0
  }

  /** A vertex in the triangle; x counts only where the loop touches the ray there. */
  ghost predicate Stands(left: bool, ring: seq<Point>, o: Point, x: Point, c: Point, a: Point) {
    a in ring && a != o && a != c && InFan(left, o, x, c, a) && (a == x ==> IsTouched(left, ring, o, x, c))
  }

  /** Seen at a lesser angle, or at the same and nearer. */
  predicate IsLower(o: Point, b: Point, a: Point)
    requires a != o && b != o
  {
    SquaredAngle(o, b) < SquaredAngle(o, a) || (SquaredAngle(o, b) == SquaredAngle(o, a) && b.x < a.x)
  }

  ghost function LowerOnes(left: bool, ring: seq<Point>, o: Point, x: Point, c: Point, a: Point): set<Point>
    requires a != o
  {
    set b | b in ring && b != o && InFan(left, o, x, c, b) && IsLower(o, b, a)
  }

  lemma FewerBelow(left: bool, ring: seq<Point>, o: Point, x: Point, c: Point, a: Point, b: Point)
    requires Stands(left, ring, o, x, c, b) && a != o && IsLower(o, b, a)
    ensures |LowerOnes(left, ring, o, x, c, b)| < |LowerOnes(left, ring, o, x, c, a)|
  {
    hide SquaredAngle, InFan;
    Sight.Smaller(LowerOnes(left, ring, o, x, c, b), LowerOnes(left, ring, o, x, c, a), b);
  }

  // ----- on the way there -----

  lemma WithinFan(left: bool, o: Point, x: Point, c: Point, a: Point, t: real)
    requires Side(left, o, x, c) > 0.0 && InFan(left, o, x, c, a) && 0.0 < t < 1.0
    ensures var z := Along(o, a, t);
      && InFan(left, o, x, c, z) && Side(left, x, c, z) > 0.0 && Side(left, o, a, z) == 0.0
      && (Side(left, o, x, a) > 0.0 <==> Side(left, o, x, z) > 0.0)
  {
    var z := Along(o, a, t);
    SideAlong(left, o, x, o, a, t);
    SideAlong(left, x, c, o, a, t);
    SideAlong(left, c, o, o, a, t);
    SideAlong(left, o, a, o, a, t);
    SideTurns(left, o, x, c);
    SideTurns(left, o, x, o);
    SideTurns(left, c, o, o);
    SideTurns(left, o, a, a);
    hide Along, Side, Mean;
    Weighed(0.0, Side(left, o, x, a), t);
    Weighed(Side(left, x, c, o), Side(left, x, c, a), t);
    Weighed(0.0, Side(left, c, o, a), t);
    Weighed(0.0, 0.0, t);
  }

  /** Below the line of sight to a point on the way is below that to where it leads. */
  lemma BelowOnWay(left: bool, o: Point, a: Point, t: real, p: Point)
    requires 0.0 < t < 1.0
    ensures Side(left, o, a, p) < 0.0 <==> Side(left, o, Along(o, a, t), p) < 0.0
  {
    SideAlong(left, p, o, o, a, t);
    SideTurns(left, o, a, p);
    SideTurns(left, o, Along(o, a, t), p);
    SideTurns(left, p, o, o);
    hide Along, Side, Mean;
    WeighedNegative(Side(left, p, o, a), t);
  }

  lemma FanBySides(left: bool, o: Point, x: Point, c: Point, a: Point)
    ensures InFan(left, o, x, c, a)
       <==> Side(left, o, x, a) >= 0.0 && Side(left, x, c, a) >= 0.0 && Side(left, c, o, a) >= 0.0
  {
  }

  lemma Weighed(p: real, q: real, t: real)
    requires 0.0 < t < 1.0
    ensures p >= 0.0 && q >= 0.0 ==> Mean(p, q, t) >= 0.0
    ensures p > 0.0 && q >= 0.0 ==> Mean(p, q, t) > 0.0
    ensures p == 0.0 ==> (Mean(p, q, t) > 0.0 <==> q > 0.0) && (q == 0.0 ==> Mean(p, q, t) == 0.0)
  {
    var r := 1.0 - t;
    var (first, second) := (r * p, t * q);
    SignOfTerm(r, p);
    SignOfTerm(t, q);
    assert p == 0.0 ==> first == 0.0;
    assert q == 0.0 ==> second == 0.0;
    assert Mean(p, q, t) == first + second;
  }

  lemma WeighedNegative(q: real, t: real)
    requires 0.0 < t < 1.0
    ensures Mean(0.0, q, t) < 0.0 <==> q < 0.0
  {
    SignOfProduct(q, t);
    Commuted(q, t);
  }

  /** A vertex that stands on the ray's line is on the ray, before x or at it. */
  lemma OnItsRay(left: bool, o: Point, x: Point, c: Point, a: Point) returns (s: real)
    requires Side(left, o, x, c) > 0.0 && x.y == o.y && x.x > o.x && c.x >= x.x
    requires InFan(left, o, x, c, a) && a != o && Side(left, o, x, a) == 0.0
    ensures 0.0 < s <= 1.0 && a == Along(o, x, s) && a.y == o.y && o.x < a.x <= x.x && (a != x ==> s < 1.0)
  {
    RightOfTip(left, o, x, c, a);
    HeightsBySide(left, o, x, c, a);
    SideTurns(left, o, x, c);
    s := FractionOf(o, x, a);
    SideAlong(left, x, c, o, x, s);
    SideTurns(left, x, c, x);
    var wide := x.x - o.x;
    assert a.x - o.x == s * wide;
    SignOfProduct(s, wide);
    EndsAlong(o, x);
    hide Side, Along;
    ToAndFromZero(Side(left, x, c, o), s);
    SignOfProduct(1.0 - s, Side(left, x, c, o));
    SignOfTerm(1.0 - s, wide);
    assert x.x - a.x == (1.0 - s) * wide;
  }

  /** A vertex on the way to one that stands, stands too. */
  lemma OnTheWayStands(left: bool, ring: seq<Point>, o: Point, x: Point, c: Point, w: Point, a: Point, z: Point)
    requires IsInnerFan(left, ring, o, x, c, w) && Stands(left, ring, o, x, c, a) && z in ring && OnWay(o, a, z)
    ensures Stands(left, ring, o, x, c, z) && IsLower(o, z, a)
  {
    hide Side, IsEdge, OnEdge, Simple, Winding, OnceAtMost, InFan, SquaredAngle, Joined;
    var t: real :| 0.0 < t < 1.0 && z == Along(o, a, t);
    RightOfTip(left, o, x, c, a);
    WithinFan(left, o, x, c, a, t);
    SideTurns(left, x, c, c);
    SideTurns(left, o, x, x);
    NearerOnWay(o, a, t);
    hide Along;
    SideTurns(left, o, a, z);
    SideTurns(left, o, z, a);
    AnglesBySide(left, o, x, c, a, z);
    AnglesBySide(left, o, x, c, z, a);
    if z == x {
      FanBySides(left, o, x, c, a);
      var s := OnItsRay(left, o, x, c, a);
    }
    assert Side(left, o, z, a) == 0.0 by { SideTurns(left, a, o, z); SideTurns(left, z, a, o); }
  }

  lemma NearerOnWay(o: Point, a: Point, t: real)
    requires a.x > o.x && 0.0 < t < 1.0
    ensures o.x < Along(o, a, t).x < a.x
  {
    var wide := a.x - o.x;
    var part := t * wide;
    ShareOf(t, wide, part);
    assert Along(o, a, t).x == o.x + part;
  }

  // ----- an edge through the way -----

  /** Nothing goes through the ray before x. */
  lemma NothingThroughRay(left: bool, ring: seq<Point>, o: Point, x: Point, c: Point, w: Point, a: Point)
    requires IsInnerFan(left, ring, o, x, c, w) && InFan(left, o, x, c, a) && a != o && Side(left, o, x, a) == 0.0
    ensures !IsBlocked(ring, o, a)
  {
    hide IsEdge, OnEdge, Simple, Winding, OnceAtMost, InFan, Side, Past, Along;
    var s := OnItsRay(left, o, x, c, a);
    forall u, v | IsEdge(ring, u, v) ensures !GoesThrough(o, a, u, v) {
      if GoesThrough(o, a, u, v) {
        var z :| OnWay(o, a, z) && OnEdge(u, v, z);
        var t: real :| 0.0 < t < 1.0 && z == Along(o, a, t);
        PartWay(o, x, s, t);
        ShareOf(t, s, t * s);
        OppositeHeights(o, a, u, v);
        OnEdgeBack(u, v, z);
        assert Past(o, x, u, v) && Past(o, x, v, u);
        if v.y > o.y {
          NotPast(o, x, u, v, t * s);
        } else {
          NotPast(o, x, v, u, t * s);
        }
      }
    }
  }

  lemma NotPast(o: Point, x: Point, u: Point, v: Point, s: real)
    requires 0.0 <= s < 1.0 && OnEdge(u, v, Along(o, x, s)) && v.y > o.y >= u.y
    ensures !Past(o, x, u, v)
  {
  }

  lemma OppositeHeights(o: Point, a: Point, u: Point, v: Point)
    requires a.y == o.y && a.x > o.x && OppositeSides(o, a, u, v)
    ensures (u.y > o.y > v.y) || (u.y < o.y < v.y)
  {
    HeightOfSide(o, a, u);
    HeightOfSide(o, a, v);
  }

  /** An edge through the way to a vertex that stands ends at a lower one. */
  lemma LowerBehind(left: bool, ring: seq<Point>, o: Point, x: Point, c: Point, w: Point, a: Point)
      returns (b: Point)
    requires IsInnerFan(left, ring, o, x, c, w) && InFan(left, o, x, c, a) && a != o && Side(left, o, x, a) > 0.0
    requires IsBlocked(ring, o, a)
    ensures Stands(left, ring, o, x, c, b) && Side(left, o, a, b) < 0.0 && IsLower(o, b, a)
  {
    hide IsEdge, OnEdge, Simple, Winding, OnceAtMost, InFan, Side, Past, Along, OffRing, SquaredAngle;
    var u, v :| IsEdge(ring, u, v) && GoesThrough(o, a, u, v);
    var z :| OnWay(o, a, z) && OnEdge(u, v, z);
    var t: real :| 0.0 < t < 1.0 && z == Along(o, a, t);
    var far: Point;
    b, far := LowerEnd(left, o, a, u, v);
    WithinFan(left, o, x, c, a, t);
    BelowOnWay(left, o, a, t, b);
    SideTurns(left, o, a, b);
    JoinedIsProper(ring, b, far);
    OnEdgeBack(u, v, z);
    Enters(left, ring, o, x, c, w, b, far, z);
    SideTurns(left, c, o, a);
    FanBySides(left, o, x, c, a);
    SideTurns(left, o, a, c);
    AnglesBySide(left, o, x, c, a, b);
    if b == x {
      TouchedFrom(left, ring, o, x, c, w, far, z);
    }
  }

  lemma LowerEnd(left: bool, o: Point, a: Point, u: Point, v: Point) returns (b: Point, far: Point)
    requires OppositeSides(o, a, u, v)
    ensures (b == u && far == v) || (b == v && far == u)
    ensures Side(left, o, a, b) < 0.0
  {
    if Side(left, o, a, u) < 0.0 {
      b, far := u, v;
    } else {
      b, far := v, u;
    }
  }

  lemma OnFarSide(left: bool, x: Point, c: Point, t: real)
    ensures Side(left, x, c, Along(x, c, t)) == 0.0
  {
    OnItsOwnLine(x, c, t);
  }

  /** An edge from x into the triangle is not the fan's. */
  lemma TouchedFrom(left: bool, ring: seq<Point>, o: Point, x: Point, c: Point, w: Point, far: Point, z: Point)
    requires IsFan(left, ring, o, x, c, w) && Joined(ring, x, far) && OnEdge(x, far, z)
    requires Side(left, o, x, z) > 0.0 && Side(left, x, c, z) > 0.0
    ensures IsTouched(left, ring, o, x, c)
  {
    JoinedIsProper(ring, x, far);
    hide IsEdge, OnEdge, Simple, Side, Past, Along, OffRing;
    var t := FractionOn(x, far, z);
    SideAlong(left, o, x, x, far, t);
    SideAlong(left, x, c, x, far, t);
    SideTurns(left, o, x, x);
    SideTurns(left, x, c, x);
    SideTurns(left, x, c, c);
    hide Mean;
    ToAndFromZero(Side(left, o, x, far), t);
    ToAndFromZero(Side(left, x, c, far), t);
    SignOfTerm(t, Side(left, o, x, far));
    OnFarSide(left, x, c, t);
  }

  // ----- a vertex that is seen -----

  /** A vertex that stands is on the far side only at its ends. */
  lemma OffTheFarSide(left: bool, ring: seq<Point>, o: Point, x: Point, c: Point, w: Point, a: Point)
    requires IsFan(left, ring, o, x, c, w) && a in ring && a != c && InFan(left, o, x, c, a)
    requires Side(left, o, x, a) > 0.0
    ensures Side(left, x, c, a) > 0.0
  {
    if Side(left, x, c, a) == 0.0 {
      SideTurns(left, o, x, x);
      SideTurns(left, o, x, c);
      hide IsEdge, OnEdge, Simple, Side, Past, Along, OffRing;
      FanBySides(left, o, x, c, a);
      JoinedIsProper(ring, c, w);
      OnTheFarSide(left, o, x, c, a);
      PartOfEdge(c, w, x, a);
      EndOfFansEdge(ring, c, w, a);
      AtBothEnds(c, w, x);
    }
  }

  lemma EndOfFansEdge(ring: seq<Point>, c: Point, w: Point, a: Point)
    requires Simple(ring) && Joined(ring, c, w) && a in ring && OnEdge(c, w, a)
    ensures a == c || a == w
  {
    hide OnEdge, IsEdge, Simple;
    var i: nat :| i < |ring| && ring[i] == a;
    SimpleIsTame(ring);
    OnEdgeBack(c, w, a);
    if IsEdge(ring, c, w) {
      VertexOnEdge(ring, i, c, w);
    } else {
      VertexOnEdge(ring, i, w, c);
    }
  }

  lemma AtBothEnds(c: Point, w: Point, x: Point)
    requires c != w && x != c && OnEdge(c, w, x) && OnEdge(x, c, w)
    ensures w == x
  {
    hide Cross;
  }

  /** At x, where the loop touches, both edges go up on the fan's side. */
  lemma AroundTouched(left: bool, ring: seq<Point>, o: Point, x: Point, c: Point, w: Point, k: nat)
    requires IsInnerFan(left, ring, o, x, c, w) && k < |ring| && ring[k] == x && IsTouched(left, ring, o, x, c)
    ensures left && Cross(o, x, ring[Before(k, |ring|)]) > 0.0 && Cross(o, x, ring[After(k, |ring|)]) > 0.0
  {
    SideTurns(left, o, x, x);
    hide OnEdge, Simple, Past, Along, OffRing, IsEdge;
    EndOfFansEdge(ring, c, w, x);
    assert w == x;
    HeightsBySide(left, o, x, c, x);
    HeightsBySide(left, o, x, c, c);
    var n :| Joined(ring, x, n) && n != c && Side(left, o, x, n) > 0.0;
    TwoNeighbours(ring, k, c, n);
  }

  lemma TwoNeighbours(ring: seq<Point>, k: nat, c: Point, n: Point)
    requires Simple(ring) && k < |ring| && Joined(ring, ring[k], c) && Joined(ring, ring[k], n) && c != n
    ensures var (a, b) := (ring[Before(k, |ring|)], ring[After(k, |ring|)]); (a == c && b == n) || (a == n && b == c)
  {
    hide IsEdge, EdgesApart;
    OneNeighbour(ring, k, c);
    OneNeighbour(ring, k, n);
  }

  lemma OneNeighbour(ring: seq<Point>, k: nat, p: Point)
    requires Simple(ring) && k < |ring| && Joined(ring, ring[k], p)
    ensures p == ring[Before(k, |ring|)] || p == ring[After(k, |ring|)]
  {
    hide IsEdge, EdgesApart;
    SimpleIsDistinct(ring);
    if IsEdge(ring, ring[k], p) {
      EdgesAtCorner(ring, k, ring[k], p);
    } else {
      EdgesAtCorner(ring, k, p, ring[k]);
    }
  }

  /** A vertex that is seen along the ray does not turn left. */
  lemma SeenOnRay(left: bool, ring: seq<Point>, o: Point, x: Point, c: Point, w: Point, k: nat)
    requires IsInnerFan(left, ring, o, x, c, w) && k < |ring| && Stands(left, ring, o, x, c, ring[k])
    requires Side(left, o, x, ring[k]) == 0.0 && IsCut(ring, o, ring[k])
    ensures Cross(ring[Before(k, |ring|)], ring[k], ring[After(k, |ring|)]) <= 0.0
  {
    hide OnEdge, Simple, Winding, OnceAtMost, InFan, Side, Past, Along, OffRing, IsEdge, IsCut, Cross;
    var a := ring[k];
    if a == x {
      AroundTouched(left, ring, o, x, c, w, k);
      TurnsBackOnLeft(ring, k, o);
    } else {
      var s := OnItsRay(left, o, x, c, a);
      EdgesOfCorner(ring, k);
      NotAbove(ring, o, x, a, ring[Before(k, |ring|)], s);
      NotAbove(ring, o, x, a, ring[After(k, |ring|)], s);
      HeightOfSide(o, a, ring[Before(k, |ring|)]);
      HeightOfSide(o, a, ring[After(k, |ring|)]);
      TurnsBackOnRight(ring, k, o);
    }
  }

  lemma NotAbove(ring: seq<Point>, o: Point, x: Point, a: Point, p: Point, s: real)
    requires Joined(ring, a, p) && a == Along(o, x, s) && a.y == o.y && 0.0 < s < 1.0
    requires forall u, v :: Joined(ring, u, v) ==> Past(o, x, u, v)
    ensures p.y <= o.y
  {
    hide OnEdge, Along, IsEdge;
    assert Past(o, x, a, p);
    EndIsOn(p, a);
    OnEdgeBack(a, p, a);
  }

  /** A vertex that is seen off the ray does not turn left, or has a lower one beside it. */
  lemma SeenOffRay(left: bool, ring: seq<Point>, o: Point, x: Point, c: Point, w: Point, k: nat) returns (b: Point)
    requires IsInnerFan(left, ring, o, x, c, w) && k < |ring| && Stands(left, ring, o, x, c, ring[k])
    requires Side(left, o, x, ring[k]) > 0.0 && IsCut(ring, o, ring[k])
    ensures || Cross(ring[Before(k, |ring|)], ring[k], ring[After(k, |ring|)]) <= 0.0
            || (Stands(left, ring, o, x, c, b) && IsLower(o, b, ring[k]))
  {
    hide OnEdge, Simple, Winding, OnceAtMost, InFan, Past, Along, OffRing, IsEdge, IsCut, Cross, IsTouched,
         SquaredAngle, Stands, IsLower;
    var (a, p, n) := (ring[k], ring[Before(k, |ring|)], ring[After(k, |ring|)]);
    EdgesOfCorner(ring, k);
    b := p;
    if Side(left, o, a, p) < 0.0 {
      LowerBeside(left, ring, o, x, c, w, a, p);
    } else if Side(left, o, a, n) < 0.0 {
      LowerBeside(left, ring, o, x, c, w, a, n);
      b := n;
    } else if left {
      TurnsBackOnLeft(ring, k, o);
    } else {
      TurnsBackOnRight(ring, k, o);
    }
  }

  lemma LowerBeside(left: bool, ring: seq<Point>, o: Point, x: Point, c: Point, w: Point, a: Point, b: Point)
    requires IsInnerFan(left, ring, o, x, c, w) && Stands(left, ring, o, x, c, a) && Side(left, o, x, a) > 0.0
    requires Joined(ring, a, b) && Side(left, o, a, b) < 0.0
    ensures Stands(left, ring, o, x, c, b) && IsLower(o, b, a)
  {
    hide OnEdge, Simple, Winding, OnceAtMost, InFan, Past, Along, OffRing, IsEdge, Side, SquaredAngle;
    JoinedIsProper(ring, a, b);
    OffTheFarSide(left, ring, o, x, c, w, a);
    EndIsOn(b, a);
    Enters(left, ring, o, x, c, w, b, a, a);
    FanBySides(left, o, x, c, a);
    SideTurns(left, o, a, c);
    SideTurns(left, c, o, a);
    AnglesBySide(left, o, x, c, a, b);
    assert b == x ==> Joined(ring, x, a);
  }

  // ----- down to a reflex vertex -----

  /** The vertex does not turn left. */
  predicate IsReflex(ring: seq<Point>, k: nat)
    requires k < |ring|
  {
    Cross(ring[Before(k, |ring|)], ring[k], ring[After(k, |ring|)]) <= 0.0
  }

  /** From a vertex in the triangle down to a reflex one, which is seen at no greater angle. */
  lemma {:induction false} DownToReflex(left: bool, ring: seq<Point>, o: Point, x: Point, c: Point, w: Point, a: Point)
      returns (m: nat)
    requires IsInnerFan(left, ring, o, x, c, w) && Stands(left, ring, o, x, c, a)
    ensures m < |ring| && ring[m] != o && InFan(left, o, x, c, ring[m]) && IsReflex(ring, m)
    ensures SquaredAngle(o, ring[m]) <= SquaredAngle(o, a)
    decreases |LowerOnes(left, ring, o, x, c, a)|
  {
    hide Simple, Winding, OnceAtMost, InFan, Past, OffRing, IsEdge, Side, IsTouched, SquaredAngle,
         LowerOnes, PassesVertex, IsBlocked, IsCut, Cross, OnEdge, IsReflex;
    var k: nat :| k < |ring| && ring[k] == a;
    var b: Option<Point> := StepDown(left, ring, o, x, c, w, k);
    if b.None? {
      m := k;
    } else {
      FewerBelow(left, ring, o, x, c, a, b.value);
      m := DownToReflex(left, ring, o, x, c, w, b.value);
    }
  }

  /** A vertex in the triangle is reflex, or another stands lower. */
  lemma StepDown(left: bool, ring: seq<Point>, o: Point, x: Point, c: Point, w: Point, k: nat)
      returns (b: Option<Point>)
    requires IsInnerFan(left, ring, o, x, c, w) && k < |ring| && Stands(left, ring, o, x, c, ring[k])
    ensures if b.None? then IsReflex(ring, k)
            else Stands(left, ring, o, x, c, b.value) && IsLower(o, b.value, ring[k])
  {
    hide Simple, Winding, OnceAtMost, InFan, Past, IsEdge, IsTouched, SquaredAngle, OnWay, IsBlocked, IsCut,
         Cross, OnEdge, Stands, Side, OffRing;
    var a := ring[k];
    StandsOff(left, ring, o, x, c, a);
    if PassesVertex(ring, o, a) {
      var z :| z in ring && OnWay(o, a, z);
      OnTheWayStands(left, ring, o, x, c, w, a, z);
      b := Some(z);
    } else if Side(left, o, x, a) == 0.0 {
      NothingThroughRay(left, ring, o, x, c, w, a);
      SeenIsCut(ring, k, o);
      SeenOnRay(left, ring, o, x, c, w, k);
      b := None;
    } else if IsBlocked(ring, o, a) {
      var lower := LowerBehind(left, ring, o, x, c, w, a);
      b := Some(lower);
    } else {
      SeenIsCut(ring, k, o);
      var lower := SeenOffRay(left, ring, o, x, c, w, k);
      b := if IsReflex(ring, k) then None else Some(lower);
    }
  }

  lemma StandsOff(left: bool, ring: seq<Point>, o: Point, x: Point, c: Point, a: Point)
    requires Stands(left, ring, o, x, c, a)
    ensures a != o && InFan(left, o, x, c, a) && Side(left, o, x, a) >= 0.0
  {
  }

  /** Where an edge goes through the way to a vertex of the triangle, some reflex vertex is seen at a lesser angle. */
  lemma ReflexBelow(left: bool, ring: seq<Point>, o: Point, x: Point, c: Point, w: Point, a: Point) returns (m: nat)
    requires IsInnerFan(left, ring, o, x, c, w) && InFan(left, o, x, c, a) && a != o && IsBlocked(ring, o, a)
    ensures m < |ring| && ring[m] != o && InFan(left, o, x, c, ring[m]) && IsReflex(ring, m)
    ensures SquaredAngle(o, ring[m]) < SquaredAngle(o, a)
  {
    hide Simple, Winding, OnceAtMost, Past, IsEdge, IsTouched, SquaredAngle, IsBlocked,
         Cross, OnEdge, Side, OffRing, IsReflex;
    if Side(left, o, x, a) == 0.0 {
      NothingThroughRay(left, ring, o, x, c, w, a);
    }
    var b := LowerBehind(left, ring, o, x, c, w, a);
    AnglesBySide(left, o, x, c, a, b);
    m := DownToReflex(left, ring, o, x, c, w, b);
  }
}
