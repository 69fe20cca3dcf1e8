/** Loops that do not touch themselves, and what clipping an ear leaves of one. */
module SimpleLoops {
  import opened Geometry
  import opened EdgeSums
  import opened RingMeasures
  import opened SegmentCrossing

  /** Every point the two segments share is an end of both. */
  ghost predicate EdgesApart(a: Point, b: Point, c: Point, d: Point) {
    forall s: real, t: real :: MeetAt(a, b, c, d, s, t) ==> IsEnd(Along(a, b, s), a, b) && IsEnd(Along(a, b, s), c, d)
  }

  predicate IsEnd(p: Point, a: Point, b: Point) {
    p == a || p == b
  }

  ghost predicate IsEdge(ring: seq<Point>, p: Point, q: Point) {
    exists i :: EdgeAt(ring, i, p, q)
  }

  predicate EdgeAt(ring: seq<Point>, i: nat, p: Point, q: Point) {
    i < |ring| && ring[i] == p && ring[After(i, |ring|)] == q
  }

  ghost predicate Distinct(ring: seq<Point>) {
    forall i, j :: 0 <= i < j < |ring| ==> ring[i] != ring[j]
  }

  /** No vertex is met twice, and two edges have nothing in common but an end of both. */
  ghost predicate Simple(ring: seq<Point>) {
    && |ring| >= 3 && Distinct(ring)
    && forall a, b, c, d :: IsEdge(ring, a, b) && IsEdge(ring, c, d) && (a, b) != (c, d) ==> EdgesApart(a, b, c, d)
  }

  lemma SimpleIsDistinct(ring: seq<Point>)
    requires Simple(ring)
    ensures |ring| >= 3 && Distinct(ring)
  {
  }

  /** Strictly outside the triangle. */
  predicate IsOutside(a: Point, b: Point, c: Point, p: Point) {
    !InsideTriangle(a, b, c, p)
  }

  // ----- an edge that keeps clear of an ear -----

  lemma MeetTurned(a: Point, b: Point, c: Point, d: Point, s: real, t: real)
    requires MeetAt(a, b, c, d, s, t)
    ensures MeetAt(c, d, a, b, t, s) && MeetAt(a, b, d, c, s, 1.0 - t) && MeetAt(b, a, c, d, 1.0 - s, t)
  {
    Backwards(a, b, s);
    Backwards(c, d, t);
  }

  lemma Backwards(a: Point, b: Point, s: real)
    ensures Along(b, a, 1.0 - s) == Along(a, b, s)
  {
  }

  lemma ApartTurned(a: Point, b: Point, c: Point, d: Point)
    requires EdgesApart(a, b, c, d)
    ensures EdgesApart(c, d, a, b) && EdgesApart(a, b, d, c) && EdgesApart(b, a, c, d)
  {
    hide IsFraction, Along;
    forall s: real, t: real | MeetAt(c, d, a, b, s, t)
      ensures IsEnd(Along(c, d, s), a, b) && IsEnd(Along(c, d, s), c, d)
    {
      MeetTurned(c, d, a, b, s, t);
      assert MeetAt(a, b, c, d, t, s);
    }
    forall s: real, t: real | MeetAt(a, b, d, c, s, t)
      ensures IsEnd(Along(a, b, s), a, b) && IsEnd(Along(a, b, s), d, c)
    {
      MeetTurned(a, b, d, c, s, t);
      assert MeetAt(a, b, c, d, s, 1.0 - t);
    }
    forall s: real, t: real | MeetAt(b, a, c, d, s, t)
      ensures IsEnd(Along(b, a, s), b, a) && IsEnd(Along(b, a, s), c, d)
    {
      MeetTurned(b, a, c, d, s, t);
      Backwards(b, a, s);
      assert MeetAt(a, b, c, d, 1.0 - s, t);
    }
  }

  /** Of two quantities that start positive, of which one ends negative, the moment the first of them is zero. */
  lemma FirstToVanish(p0: real, q0: real, p: real, q: real) returns (r: real)
    requires p0 > 0.0 && q0 > 0.0 && (p < 0.0 || q < 0.0)
    ensures 0.0 < r < 1.0
    ensures Mean(p0, p, r) >= 0.0 && Mean(q0, q, r) >= 0.0 && (Mean(p0, p, r) == 0.0 || Mean(q0, q, r) == 0.0)
  {
    if p < 0.0 {
      r := VanishesAt(p0, p);
      if Mean(q0, q, r) < 0.0 {
        var earlier := VanishesAt(q0, q);
        VanishesFirst(p0, p, r, q0, q, earlier);
        r := earlier;
      }
    } else {
      r := VanishesAt(q0, q);
      SignOfProduct(1.0 - r, p0);
      if p != 0.0 {
        SignOfProduct(r, p);
      }
    }
  }

  function Mean(x0: real, x: real, r: real): real {
    (1.0 - r) * x0 + r * x
  }

  lemma VanishesAt(x0: real, x: real) returns (r: real)
    requires x0 > 0.0 > x
    ensures 0.0 < r < 1.0 && Mean(x0, x, r) == 0.0 && r * (x0 - x) == x0
  {
    r := x0 / (x0 - x);
    assert r * (x0 - x) == x0;
    SignOfProduct(r, x0 - x);
    SignOfProduct(r - 1.0, x0 - x);
    assert (r - 1.0) * (x0 - x) == r * (x0 - x) - (x0 - x);
    assert Mean(x0, x, r) == x0 - r * (x0 - x);
  }

  lemma VanishesFirst(p0: real, p: real, r: real, q0: real, q: real, earlier: real)
    requires p0 > 0.0 > p && q0 > 0.0
    requires r * (p0 - p) == p0 && Mean(q0, q, r) < 0.0
    requires q < 0.0 && earlier * (q0 - q) == q0
    ensures Mean(p0, p, earlier) >= 0.0
  {
    assert Mean(q0, q, r) == q0 - r * (q0 - q);
    assert earlier < r by {
      assert (earlier - r) * (q0 - q) == q0 - r * (q0 - q);
      SignOfProduct(earlier - r, q0 - q);
    }
    assert Mean(p0, p, earlier) == p0 - earlier * (p0 - p);
    assert (r - earlier) * (p0 - p) == p0 - earlier * (p0 - p);
    SignOfProduct(r - earlier, p0 - p);
  }

  /** Sides of a point part of the way from p to q. */
  lemma SidesAlong(a: Point, b: Point, p: Point, q: Point, r: real)
    ensures Cross(a, b, Along(p, q, r)) == Mean(Cross(a, b, p), Cross(a, b, q), r)
  {
    CrossIsAffine(a, b, p, q, r);
  }

  lemma CornerSides(a: Point, b: Point, c: Point)
    ensures Cross(a, b, a) == 0.0 && Cross(a, b, b) == 0.0
    ensures Cross(b, c, a) == Cross(a, b, c) && Cross(c, a, b) == Cross(a, b, c) && Cross(a, c, b) == -Cross(a, b, c)
  {
  }

  lemma Opposite(a: Point, b: Point, p: Point)
    ensures Cross(b, a, p) == -Cross(a, b, p)
  {
  }

  lemma AlongAlong(u: Point, v: Point, t: real, r: real)
    ensures Along(Along(u, v, t), u, r) == Along(u, v, (1.0 - r) * t)
  {
    Shrinks(u.x, v.x - u.x, t, r);
    Shrinks(u.y, v.y - u.y, t, r);
  }

  lemma Shrinks(u: real, d: real, t: real, r: real)
    ensures (u + t * d) + r * (u - (u + t * d)) == u + (1.0 - r) * t * d
  {
    var e := t * d;
    assert (1.0 - r) * t * d == (1.0 - r) * e;
  }

  /** A point on the line of a proper edge of a left-turning triangle, and inside by the other two, is on the edge. */
  lemma OnTheEdge(a: Point, b: Point, c: Point, y: Point) returns (m: real)
    requires Cross(a, b, c) > 0.0 && Cross(a, b, y) == 0.0 && Cross(b, c, y) >= 0.0 && Cross(c, a, y) >= 0.0
    ensures IsFraction(m) && y == Along(a, b, m)
  {
    var area := Cross(a, b, c);
    CornerSides(a, b, c);
    assert a != b;
    m := FractionOf(a, b, y);
    SidesAlong(b, c, a, b, m);
    SidesAlong(c, a, a, b, m);
    CornerSides(b, c, a);
    CornerSides(c, a, b);
    hide Cross, Mean;
    ToAndFromZero(area, m);
    SignOfProduct(1.0 - m, area);
    SignOfProduct(m, area);
  }

  lemma NotNegative(x0: real, x: real, r: real)
    requires 0.0 < r < 1.0 && x0 > 0.0 && Mean(x0, x, r) == 0.0
    ensures x < 0.0
  {
    SignOfProduct(1.0 - r, x0);
    SignOfProduct(r, x);
  }

  lemma Smaller(r: real, t: real)
    requires 0.0 < r < 1.0 && IsFraction(t)
    ensures IsFraction((1.0 - r) * t)
  {
    SignOfProduct(1.0 - r, t);
    SignOfProduct(r, t);
    assert (1.0 - r) * t == t - r * t;
  }

  /** The interior of the side from a to c is on the inner sides of the two others. */
  lemma SideStarts(a: Point, b: Point, c: Point, s: real)
    requires Cross(a, b, c) > 0.0 && 0.0 < s < 1.0
    ensures var x := Along(a, c, s); Cross(a, b, x) > 0.0 && Cross(b, c, x) > 0.0 && Cross(c, a, x) == 0.0
  {
    hide Cross, Along, Mean;
    var area := Cross(a, b, c);
    CornerSides(a, b, c);
    CornerSides(b, c, a);
    SidesAlong(a, b, a, c, s);
    SidesAlong(b, c, a, c, s);
    OnItsOwnLine(a, c, s);
    Opposite(a, c, Along(a, c, s));
    PartsArePositive(area, s);
  }

  lemma PartsArePositive(x: real, r: real)
    requires x > 0.0 && 0.0 < r < 1.0
    ensures Mean(0.0, x, r) > 0.0 && Mean(x, 0.0, r) > 0.0
  {
    SignOfProduct(r, x);
    SignOfProduct(1.0 - r, x);
  }

  lemma ToAndFromZero(x: real, r: real)
    ensures Mean(0.0, x, r) == r * x && Mean(x, 0.0, r) == (1.0 - r) * x
  {
  }

  lemma Proper(a: Point, b: Point, c: Point)
    requires Cross(a, b, c) != 0.0
    ensures a != b && b != c && a != c
  {
  }

  lemma OutsideByASide(a: Point, b: Point, c: Point, u: Point)
    requires Cross(c, a, u) > 0.0 && IsOutside(a, b, c, u)
    ensures Cross(a, b, u) < 0.0 || Cross(b, c, u) < 0.0
  {
    hide Cross;
  }

  /** Where an edge that starts at the side from a to c comes to another side on its way to u. */
  lemma ComesToASide(a: Point, b: Point, c: Point, x: Point, u: Point, s: real) returns (r: real)
    requires Cross(a, b, c) > 0.0 && 0.0 < s < 1.0 && x == Along(a, c, s)
    requires Cross(c, a, u) > 0.0 && IsOutside(a, b, c, u)
    ensures var y := Along(x, u, r);
      && 0.0 < r < 1.0 && Cross(c, a, y) > 0.0 && Cross(a, b, y) >= 0.0 && Cross(b, c, y) >= 0.0
      && ((Cross(a, b, y) == 0.0 && Cross(a, b, u) < 0.0) || (Cross(b, c, y) == 0.0 && Cross(b, c, u) < 0.0))
  {
    hide Cross, InsideTriangle, Along, IsOutside, Mean;
    SideStarts(a, b, c, s);
    OutsideByASide(a, b, c, u);
    var (p0, q0, p, q) := (Cross(a, b, x), Cross(b, c, x), Cross(a, b, u), Cross(b, c, u));
    r := FirstToVanish(p0, q0, p, q);
    SidesAlong(a, b, x, u, r);
    SidesAlong(b, c, x, u, r);
    SidesAlong(c, a, x, u, r);
    FromZero(Cross(c, a, u), r);
    if Mean(p0, p, r) == 0.0 {
      NotNegative(p0, p, r);
    } else {
      NotNegative(q0, q, r);
    }
  }

  lemma FromZero(x: real, r: real)
    requires 0.0 < r < 1.0 && x > 0.0
    ensures Mean(0.0, x, r) > 0.0
  {
    SignOfProduct(r, x);
  }

  /**
   An edge that passes through the interior of the side from a to c, into the triangle, and does not end in it
   crosses one of the two other sides.
   */
  lemma PassesThrough(a: Point, b: Point, c: Point, u: Point, v: Point, s: real, t: real)
    requires Cross(a, b, c) > 0.0 && 0.0 < s < 1.0 && MeetAt(a, c, u, v, s, t)
    requires Cross(c, a, v) < 0.0 < Cross(c, a, u) && IsOutside(a, b, c, u)
    ensures !EdgesApart(u, v, a, b) || !EdgesApart(u, v, b, c)
  {
    hide Cross, Along, IsOutside;
    var x := Along(a, c, s);
    var r := ComesToASide(a, b, c, x, u, s);
    var (y, w) := (Along(x, u, r), (1.0 - r) * t);
    AlongAlong(u, v, t, r);
    Smaller(r, t);
    assert y != v && y == Along(u, v, w);
    if Cross(a, b, y) == 0.0 && Cross(a, b, u) < 0.0 {
      var m := OnTheEdge(a, b, c, y);
      assert MeetAt(u, v, a, b, w, m);
    } else {
      CornerSides(a, b, c);
      var m := OnTheEdge(b, c, a, y);
      assert MeetAt(u, v, b, c, w, m);
    }
  }

  /** Outside the ear, or at one of the two corners that stay. */
  predicate IsClearOf(a: Point, b: Point, c: Point, p: Point) {
    p == a || p == c || IsOutside(a, b, c, p)
  }

  lemma InsideOnTheSide(a: Point, b: Point, c: Point, s: real)
    requires Cross(a, b, c) > 0.0 && IsFraction(s)
    ensures InsideTriangle(a, b, c, Along(a, c, s))
  {
    hide Cross, Along, Mean;
    var area := Cross(a, b, c);
    CornerSides(a, b, c);
    CornerSides(b, c, a);
    SidesAlong(a, b, a, c, s);
    SidesAlong(b, c, a, c, s);
    OnItsOwnLine(a, c, s);
    Opposite(a, c, Along(a, c, s));
    PartsAreNotNegative(area, s);
  }

  lemma PartsAreNotNegative(x: real, r: real)
    requires x > 0.0 && IsFraction(r)
    ensures Mean(0.0, x, r) >= 0.0 && Mean(x, 0.0, r) >= 0.0
  {
    SignOfProduct(r, x);
    SignOfProduct(1.0 - r, x);
  }

  /** So a clear point on the line of the side is not between its ends. */
  lemma ClearOnTheLine(a: Point, b: Point, c: Point, s: real)
    requires Cross(a, b, c) > 0.0 && IsClearOf(a, b, c, Along(a, c, s))
    ensures s <= 0.0 || s >= 1.0
    ensures Along(a, c, s) == a <==> s == 0.0
    ensures Along(a, c, s) == c <==> s == 1.0
  {
    assert a != c;
    EndsAlong(a, c);
    if IsFraction(s) {
      InsideOnTheSide(a, b, c, s);
    }
    WhereAlong(a, c, s, 0.0);
    WhereAlong(a, c, s, 1.0);
  }

  lemma WhereAlong(a: Point, b: Point, s: real, t: real)
    requires a != b
    ensures Along(a, b, s) == Along(a, b, t) <==> s == t
  {
    if Along(a, b, s) == Along(a, b, t) {
      assert (s - t) * (b.x - a.x) == 0.0 && (s - t) * (b.y - a.y) == 0.0;
      if b.x != a.x {
        NoZeroFactor(s - t, b.x - a.x);
      } else {
        NoZeroFactor(s - t, b.y - a.y);
      }
    }
  }

  /** A mean of two numbers, neither between 0 and 1, that is between them has the one below and the other above. */
  lemma Straddles01(x: real, y: real, s: real, t: real)
    requires 0.0 < s < 1.0 && IsFraction(t) && s == (1.0 - t) * x + t * y
    requires (x <= 0.0 || x >= 1.0) && (y <= 0.0 || y >= 1.0)
    ensures (x <= 0.0 && y >= 1.0) || (y <= 0.0 && x >= 1.0)
  {
    SignOfTerm(1.0 - t, x);
    SignOfTerm(t, y);
    SignOfTerm(1.0 - t, x - 1.0);
    SignOfTerm(t, y - 1.0);
    assert (1.0 - t) * (x - 1.0) + t * (y - 1.0) == s - 1.0 by { Shifted(x, y, t, 1.0); }
  }

  /** A collinear edge that covers the side from a to c has one of its ends in its own interior. */
  lemma CoversTheSide(a: Point, b: Point, c: Point, u: Point, v: Point, x: real, y: real)
    requires a != c && u == Along(a, c, x) && v == Along(a, c, y) && x <= 0.0 && y >= 1.0 && !(x == 0.0 && y == 1.0)
    ensures !EdgesApart(u, v, a, b) || !EdgesApart(u, v, b, c)
  {
    EndsAlong(a, c);
    EndsAlong(a, b);
    EndsAlong(b, c);
    WhereAlong(a, c, x, 0.0);
    WhereAlong(a, c, y, 0.0);
    WhereAlong(a, c, x, 1.0);
    WhereAlong(a, c, y, 1.0);
    hide Along;
    if x < 0.0 {
      var r := -x / (y - x);
      OriginAlong(a, c, x, y);
      Ratio(-x, y - x);
      assert MeetAt(u, v, a, b, r, 0.0);
    } else {
      var r := (1.0 - x) / (y - x);
      UnitAlong(a, c, x, y);
      Ratio(1.0 - x, y - x);
      assert MeetAt(u, v, b, c, r, 1.0);
    }
  }

  lemma UnitAlong(a: Point, b: Point, u: real, v: real)
    requires v != u
    ensures Along(Along(a, b, u), Along(a, b, v), (1.0 - u) / (v - u)) == b
  {
    var r := (1.0 - u) / (v - u);
    assert r * (v - u) == 1.0 - u;
    var (c, d) := (Along(a, b, u), Along(a, b, v));
    assert r * (d.x - c.x) == r * (v - u) * (b.x - a.x);
    assert r * (d.y - c.y) == r * (v - u) * (b.y - a.y);
  }

  lemma CollinearMeeting(a: Point, b: Point, c: Point, u: Point, v: Point, s: real, t: real)
    requires Cross(a, b, c) > 0.0 && 0.0 < s < 1.0 && MeetAt(a, c, u, v, s, t)
    requires Cross(a, c, u) == 0.0 && Cross(a, c, v) == 0.0
    requires IsClearOf(a, b, c, u) && IsClearOf(a, b, c, v) && !(u == a && v == c) && !(u == c && v == a)
    ensures !EdgesApart(u, v, a, b) || !EdgesApart(u, v, b, c)
  {
    assert a != c;
    var x := FractionOf(a, c, u);
    var y := FractionOf(a, c, v);
    ClearOnTheLine(a, b, c, x);
    ClearOnTheLine(a, b, c, y);
    SameFraction(a, c, x, y, s, t);
    Straddles01(x, y, s, t);
    hide Along, IsClearOf, Cross;
    if x <= 0.0 && y >= 1.0 {
      CoversTheSide(a, b, c, u, v, x, y);
    } else {
      CoversTheSide(a, b, c, v, u, y, x);
      if EdgesApart(u, v, a, b) && EdgesApart(u, v, b, c) {
        ApartTurned(u, v, a, b);
        ApartTurned(u, v, b, c);
      }
    }
  }

  /** The cut from a to c meets no edge that kept clear of the ear, except at an end of both. */
  lemma DiagonalIsApart(a: Point, b: Point, c: Point, u: Point, v: Point)
    requires Cross(a, b, c) > 0.0 && EdgesApart(u, v, a, b) && EdgesApart(u, v, b, c)
    requires IsClearOf(a, b, c, u) && IsClearOf(a, b, c, v) && !(u == a && v == c) && !(u == c && v == a)
    ensures EdgesApart(a, c, u, v)
  {
    hide Along, Cross, IsClearOf, EdgesApart;
    forall s: real, t: real | MeetAt(a, c, u, v, s, t)
      ensures IsEnd(Along(a, c, s), a, c) && IsEnd(Along(a, c, s), u, v)
    {
      MeetsAtEnds(a, b, c, u, v, s, t);
    }
    ApartBy(a, c, u, v);
  }

  lemma ApartBy(a: Point, b: Point, c: Point, d: Point)
    requires forall s: real, t: real | MeetAt(a, b, c, d, s, t) ::
      IsEnd(Along(a, b, s), a, b) && IsEnd(Along(a, b, s), c, d)
    ensures EdgesApart(a, b, c, d)
  {
  }

  lemma MeetsAtEnds(a: Point, b: Point, c: Point, u: Point, v: Point, s: real, t: real)
    requires Cross(a, b, c) > 0.0 && EdgesApart(u, v, a, b) && EdgesApart(u, v, b, c)
    requires IsClearOf(a, b, c, u) && IsClearOf(a, b, c, v) && !(u == a && v == c) && !(u == c && v == a)
    requires MeetAt(a, c, u, v, s, t)
    ensures IsEnd(Along(a, c, s), a, c) && IsEnd(Along(a, c, s), u, v)
  {
    EndsAlong(a, c);
    EndsAlong(a, b);
    EndsAlong(b, c);
    var x := Along(a, c, s);
    hide Along;
    if s == 0.0 {
      assert MeetAt(u, v, a, b, t, 0.0);
    } else if s == 1.0 {
      assert MeetAt(u, v, b, c, t, 1.0);
    } else {
      hide EdgesApart;
      MeetsInside(a, b, c, u, v, s, t);
    }
  }

  /** Where an edge meets the interior of the side, it does so in its own interior. */
  lemma MeetsInItsInterior(a: Point, b: Point, c: Point, u: Point, v: Point, s: real, t: real)
    requires Cross(a, b, c) > 0.0 && 0.0 < s < 1.0 && MeetAt(a, c, u, v, s, t)
    requires IsClearOf(a, b, c, u) && IsClearOf(a, b, c, v)
    ensures 0.0 < t < 1.0
  {
    hide Cross, InsideTriangle, Along;
    InsideOnTheSide(a, b, c, s);
    EndsAlong(u, v);
    EndsAlong(a, c);
    Proper(a, b, c);
    WhereAlong(a, c, s, 0.0);
    WhereAlong(a, c, s, 1.0);
  }

  lemma MeetsInside(a: Point, b: Point, c: Point, u: Point, v: Point, s: real, t: real)
    requires Cross(a, b, c) > 0.0 && 0.0 < s < 1.0 && MeetAt(a, c, u, v, s, t)
    requires IsClearOf(a, b, c, u) && IsClearOf(a, b, c, v) && !(u == a && v == c) && !(u == c && v == a)
    ensures !EdgesApart(u, v, a, b) || !EdgesApart(u, v, b, c)
  {
    hide EdgesApart, Along, Cross, InsideTriangle;
    MeetsInItsInterior(a, b, c, u, v, s, t);
    OnItsOwnLine(a, c, s);
    SidesAlong(a, c, u, v, t);
    ZeroMean(t, Cross(a, c, u), Cross(a, c, v));
    Opposite(a, c, u);
    Opposite(a, c, v);
    CornersOnTheLine(a, c);
    if Cross(a, c, u) == 0.0 && Cross(a, c, v) == 0.0 {
      CollinearMeeting(a, b, c, u, v, s, t);
    } else if Cross(a, c, u) < 0.0 {
      PassesThrough(a, b, c, u, v, s, t);
    } else {
      MeetTurned(a, c, u, v, s, t);
      PassesThrough(a, b, c, v, u, s, 1.0 - t);
      if EdgesApart(u, v, a, b) && EdgesApart(u, v, b, c) {
        ApartTurned(u, v, a, b);
        ApartTurned(u, v, b, c);
      }
    }
  }

  lemma CornersOnTheLine(a: Point, c: Point)
    ensures Cross(a, c, a) == 0.0 && Cross(a, c, c) == 0.0
  {
  }

  // ----- clipping an ear -----

  lemma {:induction false} WithoutAt(ring: seq<Point>, k: nat, i: nat)
    requires k < |ring| && |ring| > 1 && i < |ring| - 1
    ensures Without(ring, k)[i] == ring[if i < k then i else i + 1]
  {
  }

  /** The edges left after a vertex is taken out are old ones that do not touch it, and the cut. */
  lemma EdgesWithout(ring: seq<Point>, k: nat, p: Point, q: Point)
    requires k < |ring| && |ring| > 3 && Distinct(ring) && IsEdge(Without(ring, k), p, q)
    ensures var (a, b, c) := (ring[Before(k, |ring|)], ring[k], ring[After(k, |ring|)]);
      (p == a && q == c) || (IsEdge(ring, p, q) && p != b && q != b)
  {
    var (rest, n) := (Without(ring, k), |ring|);
    var i: nat :| EdgeAt(rest, i, p, q);
    var j := After(i, n - 1);
    WithoutAt(ring, k, i);
    WithoutAt(ring, k, j);
    var (oldI, oldJ) := (if i < k then i else i + 1, if j < k then j else j + 1);
    if oldI != Before(k, n) {
      assert oldJ == After(oldI, n);
      assert EdgeAt(ring, oldI, p, q);
    }
  }

  lemma NoEdgeBack(ring: seq<Point>, k: nat)
    requires k < |ring| && |ring| > 3 && Distinct(ring)
    ensures !IsEdge(ring, ring[After(k, |ring|)], ring[Before(k, |ring|)])
  {
    var (c, a) := (ring[After(k, |ring|)], ring[Before(k, |ring|)]);
    forall i: nat ensures !EdgeAt(ring, i, c, a) {
      if i < |ring| && i != After(k, |ring|) {
        assert ring[i] != c;
      }
    }
  }

  lemma EdgesOfCorner(ring: seq<Point>, k: nat)
    requires k < |ring|
    ensures IsEdge(ring, ring[Before(k, |ring|)], ring[k]) && IsEdge(ring, ring[k], ring[After(k, |ring|)])
  {
    assert EdgeAt(ring, Before(k, |ring|), ring[Before(k, |ring|)], ring[k]);
    assert EdgeAt(ring, k, ring[k], ring[After(k, |ring|)]);
  }

  lemma EndsAreVertices(ring: seq<Point>, p: Point, q: Point)
    requires IsEdge(ring, p, q)
    ensures p in ring && q in ring
  {
  }

  lemma DistinctWithout(ring: seq<Point>, k: nat)
    requires k < |ring| && |ring| > 1 && Distinct(ring)
    ensures Distinct(Without(ring, k))
  {
    var rest := Without(ring, k);
    forall i, j | 0 <= i < j < |rest| ensures rest[i] != rest[j] {
      WithoutAt(ring, k, i);
      WithoutAt(ring, k, j);
    }
  }

  /** An ear of a ring of points: its corner turns left and every other vertex is outside it. */
  ghost predicate IsEarOf(ring: seq<Point>, k: nat)
    requires k < |ring|
  {
    var (a, b, c) := (ring[Before(k, |ring|)], ring[k], ring[After(k, |ring|)]);
    Cross(a, b, c) > 0.0 && forall p | p in ring :: p == b || IsClearOf(a, b, c, p)
  }

  lemma OldEdgeIsApart(ring: seq<Point>, k: nat, u: Point, v: Point)
    requires k < |ring| && |ring| > 3 && Simple(ring) && IsEarOf(ring, k)
    requires var (a, b, c) := (ring[Before(k, |ring|)], ring[k], ring[After(k, |ring|)]);
      IsEdge(ring, u, v) && u != b && v != b && !(u == a && v == c)
    ensures EdgesApart(ring[Before(k, |ring|)], ring[After(k, |ring|)], u, v)
  {
    hide EdgesApart, IsEdge, IsClearOf, Cross;
    var (a, b, c) := (ring[Before(k, |ring|)], ring[k], ring[After(k, |ring|)]);
    EdgesOfCorner(ring, k);
    NoEdgeBack(ring, k);
    EndsAreVertices(ring, u, v);
    DiagonalIsApart(a, b, c, u, v);
  }

  /** Clipping an ear of a loop that does not touch itself leaves one that does not. */
  lemma EarKeepsSimple(ring: seq<Point>, k: nat)
    requires k < |ring| && |ring| > 3 && Simple(ring) && IsEarOf(ring, k)
    ensures Simple(Without(ring, k))
  {
    hide EdgesApart, IsEdge, IsEarOf;
    var rest := Without(ring, k);
    DistinctWithout(ring, k);
    var (a, b, c) := (ring[Before(k, |ring|)], ring[k], ring[After(k, |ring|)]);
    forall p, q, u, v | IsEdge(rest, p, q) && IsEdge(rest, u, v) && (p, q) != (u, v) ensures EdgesApart(p, q, u, v) {
      EdgesWithout(ring, k, p, q);
      EdgesWithout(ring, k, u, v);
      if p == a && q == c {
        OldEdgeIsApart(ring, k, u, v);
      } else if u == a && v == c {
        OldEdgeIsApart(ring, k, p, q);
        ApartTurned(u, v, p, q);
      }
    }
  }
}
