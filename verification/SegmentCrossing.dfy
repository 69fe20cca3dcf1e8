/** What `crosses` of crates/bim-mesh/src/triangulate.rs decides, said without cross products. */
module SegmentCrossing {
  import opened Geometry

  /** The point a fraction t of the way from a to b. */
  function Along(a: Point, b: Point, t: real): Point {
    Point(a.x + t * (b.x - a.x), a.y + t * (b.y - a.y))
  }

  predicate IsFraction(t: real) {
    0.0 <= t <= 1.0
  }

  /** The closed segments share a point. */
  ghost predicate SegmentsMeet(a: Point, b: Point, c: Point, d: Point) {
    exists s: real, t: real :: MeetAt(a, b, c, d, s, t)
  }

  predicate MeetAt(a: Point, b: Point, c: Point, d: Point, s: real, t: real) {
    IsFraction(s) && IsFraction(t) && Along(a, b, s) == Along(c, d, t)
  }

  predicate ShareAnEnd(a: Point, b: Point, c: Point, d: Point) {
    a == c || a == d || b == c || b == d
  }

  lemma NoZeroFactor(e: real, d: real)
    requires d != 0.0 && e * d == 0.0
    ensures e == 0.0
  {
    assert e * d / d == e;
  }

  lemma CrossIsAffine(a: Point, b: Point, c: Point, d: Point, t: real)
    ensures Cross(a, b, Along(c, d, t)) == (1.0 - t) * Cross(a, b, c) + t * Cross(a, b, d)
  {
  }

  lemma OnItsOwnLine(a: Point, b: Point, t: real)
    ensures Cross(a, b, Along(a, b, t)) == 0.0
  {
  }

  lemma ExtentsAgree(a: Point, b: Point, c: Point, d: Point)
    ensures Cross(a, b, d) - Cross(a, b, c) == Cross(c, d, a) - Cross(c, d, b)
  {
  }

  /** A point on the line of a proper segment is some fraction of the way along it. */
  lemma FractionOf(a: Point, b: Point, p: Point) returns (t: real)
    requires a != b && Cross(a, b, p) == 0.0
    ensures p == Along(a, b, t)
  {
    var (ux, uy, px, py) := (b.x - a.x, b.y - a.y, p.x - a.x, p.y - a.y);
    if ux != 0.0 {
      t := px / ux;
      Proportional(ux, uy, px, py);
    } else {
      t := py / uy;
      Proportional(uy, ux, py, px);
    }
  }

  lemma Proportional(u: real, v: real, p: real, q: real)
    requires u != 0.0 && u * q - v * p == 0.0
    ensures p / u * u == p && p / u * v == q
  {
    var t := p / u;
    assert t * u == p;
    assert (t * v - q) * u == v * (t * u) - u * q;
    NoZeroFactor(t * v - q, u);
  }

  lemma SignOfProduct(x: real, u: real)
    ensures u > 0.0 ==> (x * u > 0.0 <==> x > 0.0) && (x * u < 0.0 <==> x < 0.0)
    ensures u < 0.0 ==> (x * u > 0.0 <==> x < 0.0) && (x * u < 0.0 <==> x > 0.0)
  {
    if x > 0.0 {
    } else if x < 0.0 {
    }
  }

  lemma ScaledBetween(u: real, t: real)
    requires u != 0.0
    ensures Min(0.0, u) <= t * u <= Max(0.0, u) <==> IsFraction(t)
  {
    var product := SignsOfProduct(t, u);
    BetweenBySigns(u, t, product);
  }

  lemma SignsOfProduct(t: real, u: real) returns (product: real)
    ensures product == t * u
    ensures u > 0.0 ==> (product < 0.0 <==> t < 0.0) && (product > u <==> t > 1.0)
    ensures u < 0.0 ==> (product > 0.0 <==> t < 0.0) && (product < u <==> t > 1.0)
  {
    product := t * u;
    SignOfProduct(t, u);
    SignPast(t, u, t - 1.0, product);
  }

  lemma SignPast(t: real, u: real, s: real, product: real)
    requires s == t - 1.0 && product == t * u
    ensures u > 0.0 ==> (product > u <==> t > 1.0)
    ensures u < 0.0 ==> (product < u <==> t > 1.0)
  {
    SignOfProduct(s, u);
    assert s * u == product - u;
  }

  /** Betweenness from the signs of the product and of what it exceeds `u` by. */
  lemma BetweenBySigns(u: real, t: real, product: real)
    requires u > 0.0 ==> (product < 0.0 <==> t < 0.0) && (product > u <==> t > 1.0)
    requires u < 0.0 ==> (product > 0.0 <==> t < 0.0) && (product < u <==> t > 1.0)
    requires u != 0.0
    ensures Min(0.0, u) <= product <= Max(0.0, u) <==> IsFraction(t)
  {
  }

  /** The box test decides betweenness on the line. */
  lemma BoxIsBetween(a: Point, b: Point, t: real)
    requires a != b
    ensures OnSegment(a, b, Along(a, b, t)) <==> IsFraction(t)
  {
    var (ux, uy) := (b.x - a.x, b.y - a.y);
    if ux != 0.0 {
      ScaledBetween(ux, t);
    }
    if uy != 0.0 {
      ScaledBetween(uy, t);
    }
  }

  /** An end of one segment found on the other is a point of both. */
  lemma AnEndOnTheOtherMeets(a: Point, b: Point, c: Point, d: Point)
    requires Cross(a, b, c) == 0.0 && OnSegment(a, b, c)
    ensures SegmentsMeet(a, b, c, d) && SegmentsMeet(a, b, d, c)
    ensures SegmentsMeet(c, d, a, b) && SegmentsMeet(d, c, a, b)
  {
    hide Cross, OnSegment;
    var t := 0.0;
    if a == b {
      SamePoint(a, c);
    } else {
      t := FractionOf(a, b, c);
      BoxIsBetween(a, b, t);
    }
    assert MeetAt(a, b, c, d, t, 0.0) && MeetAt(a, b, d, c, t, 1.0);
    assert MeetAt(c, d, a, b, 0.0, t) && MeetAt(d, c, a, b, 1.0, t);
  }

  lemma SamePoint(a: Point, c: Point)
    requires OnSegment(a, a, c)
    ensures c == a
  {
  }

  /** Segments whose ends lie weakly on either side of each other's line meet at one point. */
  lemma StraddlingMeets(a: Point, b: Point, c: Point, d: Point)
    requires (Cross(a, b, c) > 0.0) != (Cross(a, b, d) > 0.0)
    requires (Cross(c, d, a) > 0.0) != (Cross(c, d, b) > 0.0)
    ensures SegmentsMeet(a, b, c, d)
  {
    var (f, g) := (Cross(a, b, c), Cross(c, d, a));
    var extent := Cross(a, b, d) - f;
    ExtentsAgree(a, b, c, d);
    var (s, t) := (g / extent, -f / extent);
    assert IsFraction(s) && IsFraction(t) by {
      hide Cross;
      Ratio(g, extent);
      Ratio(-f, extent);
    }
    LinesMeet(a, b, c, d);
    assert MeetAt(a, b, c, d, s, t);
  }

  lemma Ratio(n: real, extent: real)
    requires extent != 0.0
    requires if extent > 0.0 then 0.0 <= n <= extent else extent <= n <= 0.0
    ensures IsFraction(n / extent)
  {
    var t := n / extent;
    assert t * extent == n;
    ScaledBetween(extent, t);
  }

  /** Cramer's rule, before the division. */
  lemma Cramer(ux: real, uy: real, vx: real, vy: real, wx: real, wy: real)
    ensures var (extent, f, g) := (ux * vy - uy * vx, uy * wx - ux * wy, vx * wy - vy * wx);
      wx * extent + g * ux + f * vx == 0.0 && wy * extent + g * uy + f * vy == 0.0
  {
  }

  lemma Quotient(w: real, u: real, v: real, extent: real, f: real, g: real)
    requires extent != 0.0 && w * extent + g * u + f * v == 0.0
    ensures w + g / extent * u - -f / extent * v == 0.0
  {
    var (s, t) := (g / extent, -f / extent);
    assert s * extent == g && t * extent == -f;
    assert (w + s * u - t * v) * extent == w * extent + s * extent * u - t * extent * v;
    NoZeroFactor(w + s * u - t * v, extent);
  }

  lemma LinesMeet(a: Point, b: Point, c: Point, d: Point)
    requires Cross(a, b, d) != Cross(a, b, c)
    ensures var extent := Cross(a, b, d) - Cross(a, b, c);
      Along(a, b, Cross(c, d, a) / extent) == Along(c, d, -Cross(a, b, c) / extent)
  {
    var (ux, uy, vx, vy, wx, wy) := (b.x - a.x, b.y - a.y, d.x - c.x, d.y - c.y, a.x - c.x, a.y - c.y);
    var (f, g) := (Cross(a, b, c), Cross(c, d, a));
    var extent := Cross(a, b, d) - f;
    assert extent == ux * vy - uy * vx && f == uy * wx - ux * wy && g == vx * wy - vy * wx;
    Cramer(ux, uy, vx, vy, wx, wy);
    hide Cross;
    Quotient(wx, ux, vx, extent, f, g);
    Quotient(wy, uy, vy, extent, f, g);
  }

  /** A weighted mean that is zero has an end at zero or ends of opposite sign. */
  lemma ZeroMean(t: real, f: real, g: real)
    requires IsFraction(t) && (1.0 - t) * f + t * g == 0.0
    ensures || (t == 0.0 && f == 0.0) || (t == 1.0 && g == 0.0) || (f == 0.0 && g == 0.0)
            || (f > 0.0 && g < 0.0) || (f < 0.0 && g > 0.0)
  {
    if 0.0 < t < 1.0 {
      if f >= 0.0 && g >= 0.0 {
        assert (1.0 - t) * f >= 0.0 && t * g >= 0.0;
        NoZeroFactor(f, 1.0 - t);
        NoZeroFactor(g, t);
      } else if f <= 0.0 && g <= 0.0 {
        assert (1.0 - t) * f <= 0.0 && t * g <= 0.0;
        NoZeroFactor(f, 1.0 - t);
        NoZeroFactor(g, t);
      }
    }
  }

  lemma EndsAlong(a: Point, b: Point)
    ensures Along(a, b, 0.0) == a && Along(a, b, 1.0) == b
  {
  }

  /** A point of the segment from a to b is on it, whether or not the segment is a point. */
  lemma PointsAreOn(a: Point, b: Point, t: real)
    requires IsFraction(t)
    ensures Cross(a, b, Along(a, b, t)) == 0.0 && OnSegment(a, b, Along(a, b, t))
  {
    OnItsOwnLine(a, b, t);
    if a != b {
      hide Cross, OnSegment;
      BoxIsBetween(a, b, t);
    }
  }

  /** Of two collinear segments that share a point, one has an end on the other. */
  lemma CollinearOverlap(a: Point, b: Point, c: Point, d: Point, s: real, t: real)
    requires MeetAt(a, b, c, d, s, t)
    requires Cross(a, b, c) == 0.0 && Cross(a, b, d) == 0.0
    requires Cross(c, d, a) == 0.0 && Cross(c, d, b) == 0.0
    ensures OnSegment(a, b, c) || OnSegment(a, b, d) || OnSegment(c, d, a) || OnSegment(c, d, b)
  {
    hide Cross, OnSegment;
    if a == b {
      assert Along(a, b, s) == a;
      PointsAreOn(c, d, t);
    } else {
      var u := FractionOf(a, b, c);
      var v := FractionOf(a, b, d);
      BoxIsBetween(a, b, u);
      BoxIsBetween(a, b, v);
      if !IsFraction(u) && !IsFraction(v) {
        SameFraction(a, b, u, v, s, t);
        Surrounds(u, v, s, t);
        var r := -u / (v - u);
        OriginAlong(a, b, u, v);
        PointsAreOn(c, d, r);
      }
    }
  }

  lemma SameFraction(a: Point, b: Point, u: real, v: real, s: real, t: real)
    requires a != b && Along(a, b, s) == Along(Along(a, b, u), Along(a, b, v), t)
    ensures s == (1.0 - t) * u + t * v
  {
    var e := (1.0 - t) * u + t * v - s;
    assert e * (b.x - a.x) == 0.0 && e * (b.y - a.y) == 0.0;
    if b.x != a.x {
      NoZeroFactor(e, b.x - a.x);
    } else {
      NoZeroFactor(e, b.y - a.y);
    }
  }

  /** A mean of two numbers outside the unit interval is inside it only if they lie on its two sides. */
  lemma Surrounds(u: real, v: real, s: real, t: real)
    requires IsFraction(s) && IsFraction(t) && !IsFraction(u) && !IsFraction(v) && s == (1.0 - t) * u + t * v
    ensures v != u && IsFraction(-u / (v - u))
  {
    if u < 0.0 && v < 0.0 {
      MeanIsBelow(u, v, t, 0.0);
    } else if u > 1.0 && v > 1.0 {
      MeanIsAbove(u, v, t, 1.0);
    } else {
      Ratio(-u, v - u);
    }
  }

  lemma MeanIsBelow(u: real, v: real, t: real, bound: real)
    requires IsFraction(t) && u < bound && v < bound
    ensures (1.0 - t) * u + t * v < bound
  {
    WeighedSigns(1.0 - t, t, u - bound, v - bound);
    Shifted(u, v, t, bound);
  }

  lemma MeanIsAbove(u: real, v: real, t: real, bound: real)
    requires IsFraction(t) && u > bound && v > bound
    ensures (1.0 - t) * u + t * v > bound
  {
    WeighedSigns(1.0 - t, t, u - bound, v - bound);
    Shifted(u, v, t, bound);
  }

  lemma WeighedSigns(x: real, y: real, e: real, f: real)
    requires x >= 0.0 && y >= 0.0 && x + y == 1.0
    ensures e < 0.0 && f < 0.0 ==> x * e + y * f < 0.0
    ensures e > 0.0 && f > 0.0 ==> x * e + y * f > 0.0
  {
    SignOfProduct(x, e);
    SignOfProduct(y, f);
  }

  lemma Shifted(u: real, v: real, t: real, bound: real)
    ensures (1.0 - t) * (u - bound) + t * (v - bound) == (1.0 - t) * u + t * v - bound
  {
  }

  lemma OriginAlong(a: Point, b: Point, u: real, v: real)
    requires v != u
    ensures Along(Along(a, b, u), Along(a, b, v), -u / (v - u)) == a
  {
    var r := -u / (v - u);
    assert r * (v - u) == -u;
    var (c, d) := (Along(a, b, u), Along(a, b, v));
    assert r * (d.x - c.x) == r * (v - u) * (b.x - a.x);
    assert r * (d.y - c.y) == r * (v - u) * (b.y - a.y);
  }

  lemma MeetingCrosses(a: Point, b: Point, c: Point, d: Point, s: real, t: real)
    requires MeetAt(a, b, c, d, s, t) && !ShareAnEnd(a, b, c, d)
    ensures Crosses(a, b, c, d)
  {
    hide Cross, OnSegment, Along;
    var p := Along(a, b, s);
    CrossIsAffine(a, b, c, d, t);
    OnItsOwnLine(a, b, s);
    CrossIsAffine(c, d, a, b, s);
    OnItsOwnLine(c, d, t);
    PointsAreOn(a, b, s);
    PointsAreOn(c, d, t);
    EndsAlong(a, b);
    EndsAlong(c, d);
    ZeroMean(t, Cross(a, b, c), Cross(a, b, d));
    ZeroMean(s, Cross(c, d, a), Cross(c, d, b));
    ExtentsAgree(a, b, c, d);
    if Cross(a, b, c) == 0.0 && Cross(a, b, d) == 0.0 && Cross(c, d, a) == 0.0 && Cross(c, d, b) == 0.0 {
      CollinearOverlap(a, b, c, d, s, t);
    }
  }

  /** Two segments cross exactly when they share a point and no end of one is an end of the other. */
  lemma CrossesExactlyWhenTheyMeet(a: Point, b: Point, c: Point, d: Point)
    ensures Crosses(a, b, c, d) <==> SegmentsMeet(a, b, c, d) && !ShareAnEnd(a, b, c, d)
  {
    hide Cross, OnSegment, MeetAt;
    if Crosses(a, b, c, d) {
      if Cross(a, b, c) == 0.0 && OnSegment(a, b, c) {
        AnEndOnTheOtherMeets(a, b, c, d);
      } else if Cross(a, b, d) == 0.0 && OnSegment(a, b, d) {
        AnEndOnTheOtherMeets(a, b, d, c);
      } else if Cross(c, d, a) == 0.0 && OnSegment(c, d, a) {
        AnEndOnTheOtherMeets(c, d, a, b);
      } else if Cross(c, d, b) == 0.0 && OnSegment(c, d, b) {
        AnEndOnTheOtherMeets(c, d, b, a);
      } else {
        StraddlingMeets(a, b, c, d);
      }
    }
    if SegmentsMeet(a, b, c, d) && !ShareAnEnd(a, b, c, d) {
      var s: real, t: real :| MeetAt(a, b, c, d, s, t);
      MeetingCrosses(a, b, c, d, s, t);
    }
  }

  /** A corner strictly inside the segment does count as a crossing, though it only touches. */
  lemma ATouchedCornerCrosses(a: Point, b: Point, c: Point, d: Point, t: real)
    requires a != b && IsFraction(t) && c == Along(a, b, t) && !ShareAnEnd(a, b, c, d)
    ensures Crosses(a, b, c, d)
  {
    hide Cross, OnSegment, Along;
    EndsAlong(c, d);
    MeetingCrosses(a, b, c, d, t, 0.0);
  }
}
