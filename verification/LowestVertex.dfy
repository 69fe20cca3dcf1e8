/** The lowest vertex of a loop, by which one can tell which way the loop goes round. */
module LowestVertex {
  import opened Geometry
  import opened EdgeSums
  import opened RingMeasures
  import opened SegmentCrossing
  import opened SimpleLoops
  import opened SegmentWinding
  import opened Nearby
  import opened EarWinding

  /** Lower, or level and further left. */
  predicate Below(p: Point, q: Point) {
    p.y < q.y || (p.y == q.y && p.x < q.x)
  }

  predicate LowestAt(ring: seq<Point>, k: nat) {
    k < |ring| && forall i :: 0 <= i < |ring| && i != k ==> Below(ring[k], ring[i])
  }

  lemma {:induction false} HasLowest(ring: seq<Point>) returns (k: nat)
    requires ring != [] && Distinct(ring)
    ensures LowestAt(ring, k)
  {
    var last := |ring| - 1;
    if last == 0 {
      k := 0;
    } else {
      var before := ring[..last];
      k := HasLowest(before);
      if Below(ring[last], ring[k]) {
        forall i | 0 <= i < last ensures Below(ring[last], ring[i]) {
          assert before[i] == ring[i];
        }
        k := last;
      } else {
        assert ring[last] != ring[k];
        forall i | 0 <= i < |ring| && i != k ensures Below(ring[k], ring[i]) {
          assert i < last ==> before[i] == ring[i];
        }
      }
    }
  }

  /** Around a point below all its vertices a ring does not wind. */
  lemma BelowIsOutside(ring: seq<Point>, p: Point)
    requires forall q :: q in ring ==> Below(p, q)
    ensures Winding(ring, p) == 0
  {
    hide Winding, Turn, IsEdge;
    WindingExact(ring, p);
    var none := (u: Point, v: Point) => 0.0;
    var f := (u: Point) => if u.y > p.y then -1 else 0;
    forall u, v | IsEdge(ring, u, v) ensures WindingTerm(p)(u, v) - none(u, v) == (f(u) - f(v)) as real {
      EndsAreVertices(ring, u, v);
      TurnAbove(p, u, v);
    }
    CyclePotential(WindingTerm(p), none, f, ring);
    NoWeight(ring);
  }

  lemma TurnAbove(p: Point, u: Point, v: Point)
    requires Below(p, u) && Below(p, v)
    ensures Turn(p, u, v) == (if v.y > p.y then 1 else 0) - (if u.y > p.y then 1 else 0)
  {
    if Straddles(u, v, p.y) {
      HitBySide(p, u, v);
      var (lower, upper) := if u.y < v.y then (u, v) else (v, u);
      SignOfProduct(upper.y - lower.y, lower.x - p.x);
      Opposite(lower, upper, p);
      LevelSide(lower, upper, p);
    }
  }

  lemma LevelSide(u: Point, v: Point, p: Point)
    requires u.y == p.y
    ensures Cross(u, v, p) == (v.y - u.y) * (u.x - p.x)
  {
  }

  lemma {:induction false} NoWeightOnPath(path: seq<Point>)
    ensures PathSum((u: Point, v: Point) => 0.0, path) == 0.0
  {
    if |path| >= 2 {
      NoWeightOnPath(path[1..]);
    }
  }

  lemma NoWeight(ring: seq<Point>)
    ensures CycleSum((u: Point, v: Point) => 0.0, ring) == 0.0
  {
    NoWeightOnPath(ring);
  }

  // ----- close to the lowest vertex -----

  function Rank(b: Point, p: Point): int {
    if p.y > b.y then 1 else 0
  }

  /** How the edge from u to v is counted close to the lowest vertex b in the direction of d. */
  function NearTurn(b: Point, d: Point, u: Point, v: Point): int {
    if u == b then (if v.y > b.y && Cross(b, v, d) > 0.0 then 1 else 0)
    else if v == b then (if u.y > b.y && Cross(b, u, d) > 0.0 then -1 else 0)
    else Rank(b, v) - Rank(b, u)
  }

  lemma CloseInHeight(b: Point, d: Point, t: real, low: real)
    requires Below(b, d) && t > 0.0 && Positive(low, b.y - d.y, t)
    ensures b.y <= Along(b, d, t).y < b.y + low
  {
    var (h, rise) := (d.y - b.y, t * (d.y - b.y));
    AlongStep(b, d, t);
    hide Along;
    Negated(d.y, b.y, t);
    SignOfTerm(t, h);
    assert Along(b, d, t).y == b.y + rise;
    assert rise == -(t * (b.y - d.y));
  }

  /** Close to b one is on the side b is on, or if that is neither, on the side one is going to. */
  lemma CloseOnSide(b: Point, d: Point, u: Point, v: Point, t: real)
    requires t > 0.0
    ensures Cross(u, v, b) > 0.0 && Positive(Cross(u, v, b), Cross(u, v, d) - Cross(u, v, b), t)
        ==> Cross(u, v, Along(b, d, t)) > 0.0
    ensures Cross(u, v, b) == 0.0 ==> (Cross(u, v, Along(b, d, t)) > 0.0 <==> Cross(u, v, d) > 0.0)
  {
    CrossIsAffine(u, v, b, d, t);
    AffineStep(Cross(u, v, b), Cross(u, v, d), t);
    hide Cross, Along;
    SignOfProduct(Cross(u, v, d), t);
  }

  lemma NearTurnOfRising(b: Point, d: Point, u: Point, v: Point)
    requires Below(b, d) && u.y < v.y && (u == b || Below(b, u))
    ensures Soon(t => Turn(Along(b, d, t), u, v) == NearTurn(b, d, u, v))
  {
    hide Turn, Cross, Along, Positive;
    var f := (t: real) => Turn(Along(b, d, t), u, v) == NearTurn(b, d, u, v);
    var low := if u.y > b.y then u.y - b.y else v.y - b.y;
    var e1 := StaysPositive(low, b.y - d.y);
    var (side, k) := (Cross(u, v, b), Cross(u, v, d) - Cross(u, v, b));
    var e2 := 1.0;
    if side > 0.0 {
      e2 := StaysPositive(side, k);
    }
    if u.y == b.y && u != b {
      LevelSide(u, v, b);
      SignOfProduct(v.y - u.y, u.x - b.x);
    }
    CornerSides(u, v, v);
    forall t: real | 0.0 < t < Min(e1, e2) ensures f(t) {
      CloseInHeight(b, d, t, low);
      CloseOnSide(b, d, u, v, t);
      TurnBySide(Along(b, d, t), u, v);
    }
    SoonFrom(f, Min(e1, e2));
  }

  lemma NearTurnOf(b: Point, d: Point, u: Point, v: Point)
    requires Below(b, d) && (u == b || Below(b, u)) && (v == b || Below(b, v)) && u != v
    ensures Soon(t => Turn(Along(b, d, t), u, v) == NearTurn(b, d, u, v))
  {
    hide Turn, Along, Cross;
    var f := (t: real) => Turn(Along(b, d, t), u, v) == NearTurn(b, d, u, v);
    if u.y < v.y {
      NearTurnOfRising(b, d, u, v);
    } else if u.y == v.y {
      forall t: real | 0.0 < t < 1.0 ensures f(t) {
        LevelTurnsNothing(Along(b, d, t), u, v);
      }
      SoonFrom(f, 1.0);
    } else {
      NearTurnOfRising(b, d, v, u);
      var g := (t: real) => Turn(Along(b, d, t), v, u) == NearTurn(b, d, v, u);
      forall t: real | g(t) ensures f(t) {
        TurnBack(Along(b, d, t), u, v);
      }
      SoonBoth(g, g, f);
    }
  }

  /** Close to the lowest vertex, the winding number is told by the two edges at it. */
  lemma NearLowest(ring: seq<Point>, d: Point) returns (t: real)
    requires |ring| >= 3 && Distinct(ring) && LowestAt(ring, 0) && Below(ring[0], d)
    ensures 0.0 < t <= 1.0
    ensures var (a, b, c) := (ring[|ring| - 1], ring[0], ring[1]);
      Winding(ring, Along(b, d, t))
        == (if a.y > b.y && Cross(b, a, d) <= 0.0 then 1 else 0) - (if c.y > b.y && Cross(b, c, d) <= 0.0 then 1 else 0)
  {
    hide Turn, Along, Winding, IsEdge, NearTurn;
    var b := ring[0];
    var edges := EdgesOf(ring);
    var g := (u: Point, v: Point, t: real) => Turn(Along(b, d, t), u, v) == NearTurn(b, d, u, v);
    forall e | e in edges ensures Soon(OfEdge(g, e.0, e.1)) {
      EndsAreVertices(ring, e.0, e.1);
      EdgesAreProper(ring, e.0, e.1);
      NearTurnOf(b, d, e.0, e.1);
      var f := (t: real) => Turn(Along(b, d, t), e.0, e.1) == NearTurn(b, d, e.0, e.1);
      SoonBoth(f, f, OfEdge(g, e.0, e.1));
    }
    SoonAll(g, edges);
    t := OneDistance(t => AllPass(g, edges, t));
    var p := Along(b, d, t);
    var w := (u: Point, v: Point) => NearTurn(b, d, u, v) as real;
    forall u, v | IsEdge(ring, u, v) ensures WindingTerm(p)(u, v) - w(u, v) == 0.0 {
      assert (u, v) in edges && g(u, v, t);
    }
    WindingExact(ring, p);
    CyclePotential(WindingTerm(p), w, (u: Point) => 0, ring);
    NearSum(ring, d, w);
  }

  lemma NearSum(ring: seq<Point>, d: Point, w: Weight)
    requires |ring| >= 3 && Distinct(ring)
    requires w == ((u: Point, v: Point) => NearTurn(ring[0], d, u, v) as real)
    ensures var (a, b, c) := (ring[|ring| - 1], ring[0], ring[1]);
      CycleSum(w, ring)
        == ((if a.y > b.y && Cross(b, a, d) <= 0.0 then 1 else 0)
            - (if c.y > b.y && Cross(b, c, d) <= 0.0 then 1 else 0)) as real
  {
    hide Cross;
    var (b, rest) := (ring[0], ring[1..]);
    var none := (u: Point, v: Point) => 0.0;
    var f := (u: Point) => -Rank(b, u);
    forall i | 0 <= i < |rest| - 1
      ensures w(rest[i], rest[i + 1]) - none(rest[i], rest[i + 1]) == (f(rest[i]) - f(rest[i + 1])) as real
    {
      assert rest[i] != b && rest[i + 1] != b;
    }
    PathPotential(w, none, f, rest);
    NoWeightOnPath(rest);
  }

  // ----- which way round -----

  /** The loop starts at its lowest vertex and turns left there. */
  ghost predicate StartsLeft(ring: seq<Point>) {
    |ring| >= 3 && LowestAt(ring, 0) && Cross(ring[|ring| - 1], ring[0], ring[1]) > 0.0
  }

  /** At its lowest vertex the loop turns left. */
  ghost predicate WindsLeft(ring: seq<Point>) {
    exists k :: 0 <= k < |ring| && StartsLeft(Rotated(ring, k))
  }

  lemma PreviousIsHigher(ring: seq<Point>)
    requires StartsLeft(ring)
    ensures ring[|ring| - 1].y > ring[0].y
  {
    LeftIsHigher(ring[|ring| - 1], ring[0], ring[1]);
  }

  lemma LeftIsHigher(a: Point, b: Point, c: Point)
    requires Below(b, a) && Below(b, c) && Cross(a, b, c) > 0.0
    ensures a.y > b.y
  {
    if a.y == b.y {
      SignOfTerm(b.x - a.x, c.y - a.y);
    }
  }

  /** A loop that turns left at its lowest vertex winds once around some point. */
  lemma WindsSomewhere(ring: seq<Point>) returns (p: Point)
    requires StartsLeft(ring) && Distinct(ring)
    ensures Winding(ring, p) == 1
  {
    hide Along, Winding;
    var (a, b, c) := (ring[|ring| - 1], ring[0], ring[1]);
    PreviousIsHigher(ring);
    var t := NearLowest(ring, a);
    p := Along(b, a, t);
    CornerSides(b, a, a);
    CornerSides(a, b, c);
  }

  lemma {:induction false} EdgesRotated(ring: seq<Point>, k: nat, u: Point, v: Point)
    requires k <= |ring|
    ensures IsEdge(Rotated(ring, k), u, v) <==> IsEdge(ring, u, v)
  {
    var (n, turned) := (|ring|, Rotated(ring, k));
    if i: nat :| EdgeAt(turned, i, u, v) {
      var j := if i + k < n then i + k else i + k - n;
      assert EdgeAt(ring, j, u, v);
    }
    if j: nat :| EdgeAt(ring, j, u, v) {
      var i := if j >= k then j - k else j + n - k;
      assert EdgeAt(turned, i, u, v);
    }
  }

  lemma EdgesReversed(ring: seq<Point>, u: Point, v: Point)
    ensures IsEdge(Reversed(ring), u, v) <==> IsEdge(ring, v, u)
  {
    var n := |ring|;
    if i: nat :| EdgeAt(Reversed(ring), i, u, v) {
      assert EdgeAt(ring, n - 1 - After(i, n), v, u);
    }
    if j: nat :| EdgeAt(ring, j, v, u) {
      assert EdgeAt(Reversed(ring), n - 1 - After(j, n), u, v);
    }
  }

  lemma SameVertices(ring: seq<Point>, k: nat, p: Point)
    requires k <= |ring|
    ensures p in Rotated(ring, k) <==> p in ring
    ensures p in Reversed(ring) <==> p in ring
  {
    assert ring == ring[..k] + ring[k..];
    if p in ring {
      var i :| 0 <= i < |ring| && ring[i] == p;
      assert Reversed(ring)[|ring| - 1 - i] == p;
    }
  }

  lemma SimpleRotated(ring: seq<Point>, k: nat)
    requires k <= |ring| && Simple(ring)
    ensures Simple(Rotated(ring, k))
  {
    hide EdgesApart, IsEdge;
    forall u, v ensures IsEdge(Rotated(ring, k), u, v) <==> IsEdge(ring, u, v) {
      EdgesRotated(ring, k, u, v);
    }
  }

  lemma SimpleReversed(ring: seq<Point>)
    requires Simple(ring)
    ensures Simple(Reversed(ring))
  {
    hide EdgesApart, IsEdge;
    forall u, v ensures IsEdge(Reversed(ring), u, v) <==> IsEdge(ring, v, u) {
      EdgesReversed(ring, u, v);
    }
    forall a, b, c, d | IsEdge(Reversed(ring), a, b) && IsEdge(Reversed(ring), c, d) && (a, b) != (c, d)
      ensures EdgesApart(a, b, c, d)
    {
      ApartTurned(b, a, d, c);
      ApartTurned(a, b, d, c);
    }
  }

  lemma WindingRotated(ring: seq<Point>, k: nat, p: Point)
    requires k <= |ring|
    ensures Winding(Rotated(ring, k), p) == Winding(ring, p)
  {
    WindingExact(ring, p);
    WindingExact(Rotated(ring, k), p);
    assert ring == ring[..k] + ring[k..];
    CycleSumRotate(WindingTerm(p), ring[..k], ring[k..]);
  }

  lemma WindingReversed(ring: seq<Point>, p: Point)
    ensures Winding(Reversed(ring), p) == -Winding(ring, p)
  {
    WindingExact(ring, p);
    WindingExact(Reversed(ring), p);
    WindingTermAntisymmetric(p);
    CycleSumReversed(WindingTerm(p), ring);
  }

  lemma ApartShare(a: Point, b: Point, c: Point, d: Point, x: Point)
    requires EdgesApart(a, b, c, d) && a != b && c != d && OnEdge(a, b, x) && OnEdge(c, d, x)
    ensures IsEnd(x, a, b) && IsEnd(x, c, d)
  {
    var s := FractionOn(a, b, x);
    var t := FractionOn(c, d, x);
    assert MeetAt(a, b, c, d, s, t);
  }

  /** At its lowest vertex a loop that does not touch itself has a proper corner. */
  lemma LowestIsProper(a: Point, b: Point, c: Point)
    requires EdgesApart(a, b, b, c) && Below(b, a) && Below(b, c) && a != c
    ensures Cross(a, b, c) != 0.0
  {
    hide EdgesApart, OnSegment;
    if Cross(a, b, c) == 0.0 {
      CornerSides(b, a, c);
      CornerSides(a, b, c);
      Opposite(a, b, c);
      if OnSegment(a, b, c) {
        EndIsOn(b, c);
        ApartShare(a, b, b, c, c);
      } else {
        OneIsNearer(a, b, c);
        EndIsOn(b, a);
        OnEdgeBack(b, a, a);
        OnEdgeBack(a, b, a);
        ApartShare(a, b, b, c, a);
      }
    }
  }

  lemma EndIsOn(b: Point, c: Point)
    ensures OnEdge(b, c, c)
  {
  }

  lemma OneIsNearer(a: Point, b: Point, c: Point)
    requires Cross(a, b, c) == 0.0 && Below(b, a) && Below(b, c) && !OnSegment(a, b, c)
    ensures OnSegment(b, c, a) && Cross(b, c, a) == 0.0
  {
    CornerSides(a, b, c);
    Opposite(a, b, c);
    var t := FractionOf(b, a, c);
    StepUp(b, a, t);
    var r := 1.0 / t;
    assert r * t == 1.0;
    BackAlong(b, a, t, r);
    hide Cross, OnSegment, Along;
    BoxIsBetween(b, a, t);
    SameBox(a, b, c);
    SignOfProduct(r, t);
    SignOfProduct(1.0 - r, t);
    assert (1.0 - r) * t == t - 1.0;
    BoxIsBetween(b, c, r);
  }

  lemma SameBox(a: Point, b: Point, c: Point)
    ensures OnSegment(a, b, c) <==> OnSegment(b, a, c)
  {
  }

  lemma StepUp(b: Point, a: Point, t: real)
    requires Below(b, a) && Below(b, Along(b, a, t))
    ensures t > 0.0
  {
    SignOfTerm(t, a.y - b.y);
    SignOfTerm(t, a.x - b.x);
  }

  lemma BackAlong(b: Point, a: Point, t: real, r: real)
    requires r * t == 1.0
    ensures Along(b, Along(b, a, t), r) == a
  {
    BackTo(b.x, a.x - b.x, t, r);
    BackTo(b.y, a.y - b.y, t, r);
  }

  lemma BackTo(b: real, d: real, t: real, r: real)
    requires r * t == 1.0
    ensures b + r * ((b + t * d) - b) == b + d
  {
    assert r * (t * d) == (r * t) * d;
  }

  /** Which way round a loop goes that does not touch itself. */
  lemma LeftOrRight(ring: seq<Point>)
    requires Simple(ring)
    ensures WindsLeft(ring) || WindsLeft(Reversed(ring))
  {
    hide EdgesApart, IsEdge, Cross;
    var k := HasLowest(ring);
    var (n, turned) := (|ring|, Rotated(ring, k));
    var (a, b, c) := (turned[n - 1], turned[0], turned[1]);
    SimpleRotated(ring, k);
    LowestRotated(ring, k);
    EdgesOfCorner(turned, 0);
    LowestIsProper(a, b, c);
    if Cross(a, b, c) < 0.0 {
      CornerSides(a, b, c);
      LowestTurned(turned);
      RotationReversed(ring, k);
      CrossBack(a, b, c);
      assert StartsLeft(Rotated(Reversed(ring), n - 1 - k));
    }
  }

  lemma CrossBack(a: Point, b: Point, c: Point)
    ensures Cross(c, b, a) == -Cross(a, b, c)
  {
  }

  lemma LowestRotated(ring: seq<Point>, k: nat)
    requires LowestAt(ring, k)
    ensures LowestAt(Rotated(ring, k), 0)
  {
    var (n, turned) := (|ring|, Rotated(ring, k));
    forall i | 0 < i < n ensures Below(turned[0], turned[i]) {
      var j := if i + k < n then i + k else i + k - n;
      assert turned[i] == ring[j];
    }
  }

  /** The reversed loop from the same start. */
  lemma RotationReversed(ring: seq<Point>, k: nat)
    requires k < |ring|
    ensures var (n, turned) := (|ring|, Rotated(ring, k));
      Rotated(Reversed(ring), n - 1 - k) == Rotated(Reversed(turned), n - 1)
  {
    var (n, turned) := (|ring|, Rotated(ring, k));
    var (left, right) := (Rotated(Reversed(ring), n - 1 - k), Rotated(Reversed(turned), n - 1));
    forall i | 0 <= i < n ensures left[i] == right[i] {
      assert right[i] == turned[if i == 0 then 0 else n - i];
    }
  }

  lemma LowestTurned(ring: seq<Point>)
    requires |ring| >= 3 && LowestAt(ring, 0)
    ensures var back := Rotated(Reversed(ring), |ring| - 1);
      LowestAt(back, 0) && back[0] == ring[0] && back[1] == ring[|ring| - 1] && back[|ring| - 1] == ring[1]
  {
    var back := Rotated(Reversed(ring), |ring| - 1);
    forall i | 0 < i < |ring| ensures back[i] == ring[|ring| - i] {
    }
  }
}
