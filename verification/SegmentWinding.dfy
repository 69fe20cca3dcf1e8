/** Along a segment that misses a ring the winding number does not change. */
module SegmentWinding {
  import opened Geometry
  import opened EdgeSums
  import opened RingMeasures
  import opened SegmentCrossing
  import opened SimpleLoops

  function Slope(p: Point, q: Point): real
    requires p.y != q.y
  {
    (q.x - p.x) / (q.y - p.y)
  }

  /** Where the line through p and q is at height y. */
  function XAt(p: Point, q: Point, y: real): real
    requires p.y != q.y
  {
    p.x + (y - p.y) * Slope(p, q)
  }

  lemma AlongToHeight(p: Point, q: Point, y: real)
    requires p.y < q.y
    ensures var t := (y - p.y) / (q.y - p.y);
      Along(p, q, t) == Point(XAt(p, q, y), y) && (p.y <= y <= q.y ==> IsFraction(t))
  {
    var (t, h, w, m) := ((y - p.y) / (q.y - p.y), q.y - p.y, q.x - p.x, Slope(p, q));
    assert t * h == y - p.y && m * h == w;
    assert t * w == (t * h) * m by { Regroup(t, m, h); }
    if p.y <= y <= q.y {
      Ratio(y - p.y, h);
    }
  }

  lemma Regroup(t: real, m: real, h: real)
    ensures t * (m * h) == (t * h) * m
  {
  }

  /** A point is to the right of a rising segment exactly where it turns right. */
  lemma SideAtHeight(p: Point, q: Point, u: Point)
    requires p.y < q.y
    ensures Cross(p, q, u) < 0.0 <==> XAt(p, q, u.y) < u.x
    ensures Cross(p, q, u) > 0.0 <==> XAt(p, q, u.y) > u.x
  {
    var (h, w, m, d) := (q.y - p.y, q.x - p.x, Slope(p, q), u.y - p.y);
    assert m * h == w;
    var gap := XAt(p, q, u.y) - u.x;
    assert Cross(p, q, u) == gap * h by { Regroup(d, m, h); }
    SignOfProduct(gap, h);
  }

  /** Two rising segments that are in the other order at another height have met between. */
  lemma OrderIsKept(p: Point, q: Point, u: Point, v: Point, lo: real, hi: real)
    requires p.y < q.y && u.y < v.y && !SegmentsMeet(p, q, u, v)
    requires p.y <= lo <= hi <= q.y && u.y <= lo <= hi <= v.y
    ensures XAt(p, q, lo) < XAt(u, v, lo) <==> XAt(p, q, hi) < XAt(u, v, hi)
  {
    hide XAt, SegmentsMeet;
    var (d, e) := (XAt(u, v, lo) - XAt(p, q, lo), XAt(u, v, hi) - XAt(p, q, hi));
    if (d > 0.0) != (e > 0.0) {
      var t := d / (d - e);
      Ratio(d, d - e);
      assert t * (d - e) == d;
      var y := Mean(lo, hi, t);
      GapIsAffine(p, q, u, v, lo, hi, t);
      assert Mean(d, e, t) == d - t * (d - e);
      MeanBetween(lo, hi, t);
      MeetAtHeight(p, q, u, v, y);
    }
  }

  lemma MeanBetween(lo: real, hi: real, t: real)
    requires lo <= hi && IsFraction(t)
    ensures lo <= Mean(lo, hi, t) <= hi
  {
    SignOfTerm(t, hi - lo);
    SignOfTerm(1.0 - t, hi - lo);
    assert Mean(lo, hi, t) == lo + t * (hi - lo) == hi - (1.0 - t) * (hi - lo);
  }

  lemma XIsAffine(p: Point, q: Point, lo: real, hi: real, t: real)
    requires p.y != q.y
    ensures XAt(p, q, Mean(lo, hi, t)) == Mean(XAt(p, q, lo), XAt(p, q, hi), t)
  {
    var m := Slope(p, q);
    MeanOfAffine(p.x, p.y, m, lo, hi, t);
  }

  lemma MeanOfAffine(x: real, y: real, m: real, lo: real, hi: real, t: real)
    ensures x + (((1.0 - t) * lo + t * hi) - y) * m == (1.0 - t) * (x + (lo - y) * m) + t * (x + (hi - y) * m)
  {
  }

  lemma GapIsAffine(p: Point, q: Point, u: Point, v: Point, lo: real, hi: real, t: real)
    requires p.y != q.y && u.y != v.y
    ensures XAt(u, v, Mean(lo, hi, t)) - XAt(p, q, Mean(lo, hi, t))
         == Mean(XAt(u, v, lo) - XAt(p, q, lo), XAt(u, v, hi) - XAt(p, q, hi), t)
  {
    XIsAffine(p, q, lo, hi, t);
    XIsAffine(u, v, lo, hi, t);
  }

  lemma MeetAtHeight(p: Point, q: Point, u: Point, v: Point, y: real)
    requires p.y < q.y && u.y < v.y && p.y <= y <= q.y && u.y <= y <= v.y && XAt(p, q, y) == XAt(u, v, y)
    ensures SegmentsMeet(p, q, u, v)
  {
    hide XAt, Along;
    AlongToHeight(p, q, y);
    AlongToHeight(u, v, y);
    assert MeetAt(p, q, u, v, (y - p.y) / (q.y - p.y), (y - u.y) / (v.y - u.y));
  }

  /** To the right of the rising segment from p to q, the lower end left out. */
  function RightOf(p: Point, q: Point, u: Point): int {
    if p.y < u.y <= q.y && Cross(p, q, u) < 0.0 then 1 else 0
  }

  /** What the edge from u to v counts more at q than at p. */
  predicate Balances(p: Point, q: Point, u: Point, v: Point) {
    Turn(q, u, v) - Turn(p, u, v) == RightOf(p, q, u) - RightOf(p, q, v)
  }

  lemma TurnBySide(p: Point, u: Point, v: Point)
    requires u.y < v.y
    ensures Turn(p, u, v) == if u.y <= p.y < v.y && Cross(u, v, p) > 0.0 then 1 else 0
  {
    if Straddles(u, v, p.y) {
      HitBySide(p, u, v);
    }
  }

  lemma TurnBack(p: Point, u: Point, v: Point)
    ensures Turn(p, u, v) == -Turn(p, v, u)
  {
    hide Turn;
    WindingTermAntisymmetric(p);
    assert WindingTerm(p)(u, v) == -WindingTerm(p)(v, u);
  }

  lemma RisingBalances(p: Point, q: Point, u: Point, v: Point)
    requires p.y < q.y && u.y < v.y && !SegmentsMeet(p, q, u, v)
    ensures Balances(p, q, u, v)
  {
    hide Cross, Turn, SegmentsMeet, XAt;
    TurnBySide(p, u, v);
    TurnBySide(q, u, v);
    SideAtHeight(p, q, u);
    SideAtHeight(p, q, v);
    SideAtHeight(u, v, p);
    SideAtHeight(u, v, q);
    XAtEnds(p, q);
    XAtEnds(u, v);
    var (lo, hi) := (Max(p.y, u.y), Min(q.y, v.y));
    if lo <= hi {
      OrderIsKept(p, q, u, v, lo, hi);
    }
  }

  lemma XAtEnds(p: Point, q: Point)
    requires p.y < q.y
    ensures XAt(p, q, p.y) == p.x && XAt(p, q, q.y) == q.x
  {
    assert Slope(p, q) * (q.y - p.y) == q.x - p.x;
  }

  lemma LevelBalances(p: Point, q: Point, u: Point, v: Point)
    requires p.y < q.y && u.y == v.y && !SegmentsMeet(p, q, u, v)
    ensures Balances(p, q, u, v)
  {
    hide Cross, XAt;
    SideAtHeight(p, q, u);
    SideAtHeight(p, q, v);
    var x := XAt(p, q, u.y);
    if p.y < u.y <= q.y && (x < u.x) != (x < v.x) {
      AlongToHeight(p, q, u.y);
      LevelMeets(p, q, u, v, (u.y - p.y) / (q.y - p.y), x);
    }
  }

  lemma LevelMeets(p: Point, q: Point, u: Point, v: Point, s: real, x: real)
    requires u.y == v.y && (x < u.x) != (x < v.x) && IsFraction(s) && Along(p, q, s) == Point(x, u.y)
    ensures SegmentsMeet(p, q, u, v)
  {
    var t := (x - u.x) / (v.x - u.x);
    Ratio(x - u.x, v.x - u.x);
    assert t * (v.x - u.x) == x - u.x;
    assert MeetAt(p, q, u, v, s, t);
  }

  lemma MeetingIsMutual(p: Point, q: Point, u: Point, v: Point)
    ensures SegmentsMeet(p, q, u, v) <==> SegmentsMeet(p, q, v, u)
    ensures SegmentsMeet(p, q, u, v) <==> SegmentsMeet(u, v, p, q)
  {
    hide MeetAt;
    if s: real, t: real :| MeetAt(p, q, u, v, s, t) {
      MeetTurned(p, q, u, v, s, t);
      assert MeetAt(p, q, v, u, s, 1.0 - t) && MeetAt(u, v, p, q, t, s);
    }
    if s: real, t: real :| MeetAt(p, q, v, u, s, t) {
      MeetTurned(p, q, v, u, s, t);
      assert MeetAt(p, q, u, v, s, 1.0 - t);
    }
    if s: real, t: real :| MeetAt(u, v, p, q, s, t) {
      MeetTurned(u, v, p, q, s, t);
      assert MeetAt(p, q, u, v, t, s);
    }
  }

  lemma EdgeBalances(p: Point, q: Point, u: Point, v: Point)
    requires p.y < q.y && !SegmentsMeet(p, q, u, v)
    ensures Balances(p, q, u, v)
  {
    hide SegmentsMeet, Turn, RightOf;
    if u.y < v.y {
      RisingBalances(p, q, u, v);
    } else if u.y == v.y {
      LevelBalances(p, q, u, v);
    } else {
      MeetingIsMutual(p, q, u, v);
      RisingBalances(p, q, v, u);
      TurnBack(p, u, v);
      TurnBack(q, u, v);
    }
  }

  /** Beside a level segment nothing is crossed at all. */
  lemma LevelMovesFreely(p: Point, q: Point, u: Point, v: Point)
    requires p.y == q.y && !SegmentsMeet(p, q, u, v)
    ensures Turn(q, u, v) == Turn(p, u, v)
  {
    hide SegmentsMeet, Turn, XAt, Cross;
    TurnBack(p, u, v);
    TurnBack(q, u, v);
    MeetingIsMutual(p, q, u, v);
    if u.y < v.y {
      LevelMovesByRising(p, q, u, v);
    } else if u.y > v.y {
      LevelMovesByRising(p, q, v, u);
    } else {
      LevelTurnsNothing(p, u, v);
      LevelTurnsNothing(q, u, v);
    }
  }

  lemma LevelTurnsNothing(p: Point, u: Point, v: Point)
    requires u.y == v.y
    ensures Turn(p, u, v) == 0
  {
  }

  lemma LevelMovesByRising(p: Point, q: Point, u: Point, v: Point)
    requires p.y == q.y && u.y < v.y && !SegmentsMeet(p, q, u, v)
    ensures Turn(q, u, v) == Turn(p, u, v)
  {
    hide SegmentsMeet, Turn, XAt, Cross;
    TurnBySide(p, u, v);
    TurnBySide(q, u, v);
    SideAtHeight(u, v, p);
    SideAtHeight(u, v, q);
    MeetingIsMutual(p, q, u, v);
    var x := XAt(u, v, p.y);
    if u.y <= p.y < v.y && (p.x < x) != (q.x < x) {
      AlongToHeight(u, v, p.y);
      CutsLevel(u, v, p, q, x);
    }
  }

  lemma CutsLevel(u: Point, v: Point, p: Point, q: Point, x: real)
    requires p.y == q.y && (p.x < x) != (q.x < x)
    requires exists s: real :: IsFraction(s) && Along(u, v, s) == Point(x, p.y)
    ensures SegmentsMeet(u, v, p, q)
  {
    var s: real :| IsFraction(s) && Along(u, v, s) == Point(x, p.y);
    var t := (x - p.x) / (q.x - p.x);
    Ratio(x - p.x, q.x - p.x);
    assert t * (q.x - p.x) == x - p.x;
    assert MeetAt(u, v, p, q, s, t);
  }

  // ----- around a ring -----

  /** Edge sums whose terms differ by the change of a potential are equal. */
  lemma {:induction false} PathPotential(w: Weight, x: Weight, f: Point -> int, path: seq<Point>)
    requires path != []
    requires forall i :: 0 <= i < |path| - 1 ==>
      w(path[i], path[i + 1]) - x(path[i], path[i + 1]) == (f(path[i]) - f(path[i + 1])) as real
    ensures PathSum(w, path) - PathSum(x, path) == (f(path[0]) - f(path[|path| - 1])) as real
  {
    if |path| > 1 {
      var rest := path[1..];
      forall i | 0 <= i < |rest| - 1
        ensures w(rest[i], rest[i + 1]) - x(rest[i], rest[i + 1]) == (f(rest[i]) - f(rest[i + 1])) as real
      {
        assert rest[i] == path[i + 1] && rest[i + 1] == path[i + 2];
      }
      PathPotential(w, x, f, rest);
      assert w(path[0], path[1]) - x(path[0], path[1]) == (f(path[0]) - f(path[1])) as real;
    }
  }

  lemma CyclePotential(w: Weight, x: Weight, f: Point -> int, ring: seq<Point>)
    requires forall u, v :: IsEdge(ring, u, v) ==> w(u, v) - x(u, v) == (f(u) - f(v)) as real
    ensures CycleSum(w, ring) == CycleSum(x, ring)
  {
    if ring != [] {
      forall i | 0 <= i < |ring| - 1
        ensures w(ring[i], ring[i + 1]) - x(ring[i], ring[i + 1]) == (f(ring[i]) - f(ring[i + 1])) as real
      {
        assert EdgeAt(ring, i, ring[i], ring[i + 1]);
      }
      PathPotential(w, x, f, ring);
      assert EdgeAt(ring, |ring| - 1, ring[|ring| - 1], ring[0]);
    }
  }

  ghost predicate Misses(p: Point, q: Point, ring: seq<Point>) {
    forall u, v :: IsEdge(ring, u, v) ==> !SegmentsMeet(p, q, u, v)
  }

  /** The winding number is the same at both ends of a segment that misses the ring. */
  lemma WindingAlong(ring: seq<Point>, p: Point, q: Point)
    requires Misses(p, q, ring)
    ensures Winding(ring, p) == Winding(ring, q)
  {
    hide Winding, Turn, RightOf, SegmentsMeet, IsEdge;
    if p.y < q.y {
      WindingRising(ring, p, q);
    } else if q.y < p.y {
      forall u, v | IsEdge(ring, u, v) ensures !SegmentsMeet(q, p, u, v) {
        MeetingIsMutual(p, q, u, v);
        MeetingIsMutual(u, v, p, q);
        MeetingIsMutual(q, p, u, v);
      }
      WindingRising(ring, q, p);
    } else {
      WindingExact(ring, p);
      WindingExact(ring, q);
      forall u, v | IsEdge(ring, u, v) ensures WindingTerm(p)(u, v) == WindingTerm(q)(u, v) {
        LevelMovesFreely(p, q, u, v);
      }
      CyclePotential(WindingTerm(p), WindingTerm(q), (u: Point) => 0, ring);
    }
  }

  lemma WindingRising(ring: seq<Point>, p: Point, q: Point)
    requires p.y < q.y && Misses(p, q, ring)
    ensures Winding(ring, p) == Winding(ring, q)
  {
    hide Winding, Turn, RightOf, SegmentsMeet, IsEdge;
    WindingExact(ring, p);
    WindingExact(ring, q);
    var f := (u: Point) => RightOf(p, q, u);
    forall u, v | IsEdge(ring, u, v) ensures WindingTerm(q)(u, v) - WindingTerm(p)(u, v) == (f(u) - f(v)) as real {
      EdgeBalances(p, q, u, v);
    }
    CyclePotential(WindingTerm(q), WindingTerm(p), f, ring);
  }
}
