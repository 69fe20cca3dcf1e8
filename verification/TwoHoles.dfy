/**
 A region with two holes that is not tiled: the second hole finds no bridge that passes and is bridged untested, to a
 corner that is used already, and the search for ears stalls.
 */
module TwoHoles {
  import opened Options
  import opened Sums
  import opened Geometry
  import opened Grid
  import opened EdgeSums
  import opened RingMeasures
  import opened SegmentCrossing
  import opened Clipping
  import opened StableSort
  import opened Bridging
  import opened Triangulation
  import opened TilingLaws
  import opened HoleLaws
  import opened DroppedHoles
  import opened SimpleLoops
  import opened SegmentWinding
  import opened Nearby
  import opened EarWinding
  import opened LowestVertex
  import opened CornerCuts
  import opened HoleStages
  import opened Sight
  import opened RaySight
  import opened FirstBridge
  import opened SimpleCover
  import opened OneHole

  // ----- the region -----

  function Outer(): Loop {
    [At(0, 0), At(8, 0), At(8, 8)]
  }

  function FirstHole(): Loop {
    [At(7, 2), At(5, 1), At(4, 1)]
  }

  function SecondHole(): Loop {
    [At(6, 3), At(5, 2), At(3, 2)]
  }

  lemma TriangleIsConvex(a: Point, b: Point, c: Point)
    requires Cross(a, b, c) > 0.0
    ensures Convex([a, b, c])
  {
  }

  lemma TriangleIsSimple(a: Point, b: Point, c: Point)
    requires Cross(a, b, c) != 0.0
    ensures Simple([a, b, c])
  {
    hide Simple, Convex, Cross;
    if Cross(a, b, c) > 0.0 {
      TriangleIsConvex(a, b, c);
    } else {
      CrossBack(a, b, c);
      TriangleIsConvex(c, b, a);
      assert Reversed([a, b, c]) == [c, b, a];
    }
    ConvexEitherWayIsSimple([a, b, c]);
  }

  lemma TripleIsSimple(x0: int, y0: int, x1: int, y1: int, x2: int, y2: int)
    requires Turning(x0, y0, x1, y1, x2, y2) != 0
    ensures Simple([At(x0, y0), At(x1, y1), At(x2, y2)])
  {
    hide Simple, Cross, At;
    CrossAt(x0, y0, x1, y1, x2, y2);
    TriangleIsSimple(At(x0, y0), At(x1, y1), At(x2, y2));
  }

  lemma OuterIsSimple()
    ensures Simple(Outer())
  {
    hide Simple, At, Turning;
    OuterTurns();
    FirstTurns();
    SecondTurns();
    TripleIsSimple(0, 0, 8, 0, 8, 8);
  }

  lemma HolesAreSimple()
    ensures Simple(FirstHole()) && Simple(SecondHole())
  {
    hide Simple, At, Turning;
    OuterTurns();
    FirstTurns();
    SecondTurns();
    TripleIsSimple(7, 2, 5, 1, 4, 1);
    TripleIsSimple(6, 3, 5, 2, 3, 2);
  }

  /** Holes given clockwise are left as they are. */
  lemma TriangleArea(a: Point, b: Point, c: Point)
    ensures SignedArea2([a, b, c]) == Cross(a, b, c)
  {
    AreaOfTriangle(a, b, c);
  }

  lemma Orientations()
    ensures IsCounterClockwise(Outer()) && !IsCounterClockwise(FirstHole()) && !IsCounterClockwise(SecondHole())
  {
    hide Cross, SignedArea2, At, Turning;
    OuterTurns();
    FirstTurns();
    SecondTurns();
    TriangleArea(At(0, 0), At(8, 0), At(8, 8));
    CrossAt(0, 0, 8, 0, 8, 8);
    TriangleArea(At(7, 2), At(5, 1), At(4, 1));
    CrossAt(7, 2, 5, 1, 4, 1);
    TriangleArea(At(6, 3), At(5, 2), At(3, 2));
    CrossAt(6, 3, 5, 2, 3, 2);
  }

  // ----- they keep apart -----

  lemma SidesKeepApart(a: Point, b: Point, c: Point, d: Point, p: Point, q: Point)
    requires Cross(p, q, a) <= 0.0 && Cross(p, q, b) <= 0.0 && Cross(p, q, c) > 0.0 && Cross(p, q, d) > 0.0
    ensures !SegmentsMeet(a, b, c, d)
  {
    hide Cross, Along, Mean;
    forall s: real, t: real ensures !MeetAt(a, b, c, d, s, t) {
      if IsFraction(s) && IsFraction(t) {
        SidesAlong(p, q, a, b, s);
        SidesAlong(p, q, c, d, t);
        MeanIsPositive(Cross(p, q, c), Cross(p, q, d), t);
        SignOfTerm(1.0 - s, Cross(p, q, a));
        SignOfTerm(s, Cross(p, q, b));
        NotPositiveMean(Cross(p, q, a), Cross(p, q, b), s);
      }
    }
  }

  lemma NotPositiveMean(x: real, y: real, s: real)
    requires x <= 0.0 && y <= 0.0 && IsFraction(s)
    ensures Mean(x, y, s) <= 0.0
  {
    SignOfTerm(1.0 - s, x);
    SignOfTerm(s, y);
  }

  /** All of the ring is left of the line from p to q. */
  ghost predicate IsLeftOf(ring: seq<Point>, p: Point, q: Point) {
    forall z :: z in ring ==> Cross(p, q, z) > 0.0
  }

  /** A triangle around a ring keeps apart from it. */
  lemma InsideKeepsApart(a: Point, b: Point, c: Point, ring: seq<Point>)
    requires IsLeftOf(ring, a, b) && IsLeftOf(ring, b, c) && IsLeftOf(ring, c, a)
    ensures KeepApart([a, b, c], ring)
  {
    hide Cross, SegmentsMeet;
    OnOwnEdges(a, b, c);
    forall u, v, p, q | IsEdge([a, b, c], u, v) && IsEdge(ring, p, q) ensures !SegmentsMeet(u, v, p, q) {
      EdgesOfTriple(a, b, c, u, v);
      EndsAreVertices(ring, p, q);
      SidesKeepApart(u, v, p, q, u, v);
    }
  }

  lemma EdgesOfTriple(a: Point, b: Point, c: Point, u: Point, v: Point)
    requires IsEdge([a, b, c], u, v)
    ensures (u == a && v == b) || (u == b && v == c) || (u == c && v == a)
  {
  }

  lemma OnOwnEdges(a: Point, b: Point, c: Point)
    ensures Cross(a, b, a) == 0.0 && Cross(a, b, b) == 0.0 && Cross(b, c, b) == 0.0 && Cross(b, c, c) == 0.0
    ensures Cross(c, a, c) == 0.0 && Cross(c, a, a) == 0.0
  {
  }

  lemma LineKeepsApart(r: seq<Point>, s: seq<Point>, p: Point, q: Point)
    requires IsLeftOf(r, q, p) && IsLeftOf(s, p, q)
    ensures KeepApart(r, s)
  {
    hide Cross, SegmentsMeet;
    forall u, v, a, b | IsEdge(r, u, v) && IsEdge(s, a, b) ensures !SegmentsMeet(u, v, a, b) {
      EndsAreVertices(r, u, v);
      EndsAreVertices(s, a, b);
      Opposite(q, p, u);
      Opposite(q, p, v);
      SidesKeepApart(u, v, a, b, p, q);
    }
  }

  /** The sides of the outer loop, and the line through the origin and (3, 1), as they are told by coordinates. */
  lemma SidesByCoordinates(z: Point)
    ensures Cross(At(0, 0), At(8, 0), z) == 8.0 * z.y
    ensures Cross(At(8, 0), At(8, 8), z) == 8.0 * (8.0 - z.x)
    ensures Cross(At(8, 8), At(0, 0), z) == 8.0 * (z.x - z.y)
  {
  }

  lemma LineByCoordinates(z: Point)
    ensures Cross(At(0, 0), At(3, 1), z) == 3.0 * z.y - z.x
    ensures Cross(At(3, 1), At(0, 0), z) == z.x - 3.0 * z.y
  {
  }

  /** Inside the outer loop. */
  predicate IsWithin(z: Point) {
    0.0 < z.y < z.x < 8.0
  }

  lemma HolesAreWithin()
    ensures forall z :: z in FirstHole() + SecondHole() ==> IsWithin(z)
    ensures forall z :: z in FirstHole() ==> z.x > 3.0 * z.y
    ensures forall z :: z in SecondHole() ==> z.x < 3.0 * z.y
  {
  }

  lemma WithinIsInside(ring: Loop)
    requires forall z :: z in ring ==> IsWithin(z)
    ensures IsLeftOf(ring, At(0, 0), At(8, 0)) && IsLeftOf(ring, At(8, 0), At(8, 8))
        && IsLeftOf(ring, At(8, 8), At(0, 0))
  {
    hide Cross, At;
    forall z | z in ring
      ensures Cross(At(0, 0), At(8, 0), z) > 0.0 && Cross(At(8, 0), At(8, 8), z) > 0.0
      ensures Cross(At(8, 8), At(0, 0), z) > 0.0
    {
      SidesByCoordinates(z);
    }
  }

  lemma OuterKeepsApartFrom(ring: Loop)
    requires IsLeftOf(ring, At(0, 0), At(8, 0)) && IsLeftOf(ring, At(8, 0), At(8, 8))
        && IsLeftOf(ring, At(8, 8), At(0, 0))
    ensures KeepApart(Outer(), ring)
  {
    hide KeepApart, IsLeftOf, At;
    InsideKeepsApart(At(0, 0), At(8, 0), At(8, 8), ring);
  }

  /** The line through the origin and (3, 1) runs between the holes. */
  lemma LineBetweenHoles()
    ensures IsLeftOf(FirstHole(), At(3, 1), At(0, 0)) && IsLeftOf(SecondHole(), At(0, 0), At(3, 1))
  {
    hide Cross, At, FirstHole, SecondHole;
    HolesAreWithin();
    forall z | z in FirstHole() ensures Cross(At(3, 1), At(0, 0), z) > 0.0 {
      LineByCoordinates(z);
    }
    forall z | z in SecondHole() ensures Cross(At(0, 0), At(3, 1), z) > 0.0 {
      LineByCoordinates(z);
    }
  }

  lemma HolesKeepApart()
    ensures KeepApart(FirstHole(), SecondHole())
  {
    hide KeepApart, IsLeftOf, At, FirstHole, SecondHole;
    LineBetweenHoles();
    LineKeepsApart(FirstHole(), SecondHole(), At(0, 0), At(3, 1));
  }

  // ----- entries -----

  lemma EntryOfClockwise(a: Point, b: Point, c: Point)
    requires !IsCounterClockwise([a, b, c]) && a.x > b.x && a.x > c.x
    ensures EntryOf([a, b, c]) == a
    ensures forall start: nat :: HoleRing(start, [a, b, c]) == Numbered(start, [a, b, c])
    ensures forall start: nat :: RightmostIndex(Numbered(start, [a, b, c])) == 0
  {
    hide IsCounterClockwise;
    forall start: nat ensures RightmostIndex(Numbered(start, [a, b, c])) == 0 {
      var ring := Numbered(start, [a, b, c]);
      assert ring[0].at == a && ring[1].at == b && ring[2].at == c;
    }
  }

  lemma Entries()
    ensures EntryOf(FirstHole()) == At(7, 2) && EntryOf(SecondHole()) == At(6, 3)
    ensures forall start: nat :: HoleRing(start, FirstHole()) == Numbered(start, FirstHole())
                                 && RightmostIndex(Numbered(start, FirstHole())) == 0
    ensures forall start: nat :: HoleRing(start, SecondHole()) == Numbered(start, SecondHole())
                                 && RightmostIndex(Numbered(start, SecondHole())) == 0
  {
    hide RightmostIndex, IsCounterClockwise;
    Orientations();
    EntryOfClockwise(At(7, 2), At(5, 1), At(4, 1));
    EntryOfClockwise(At(6, 3), At(5, 2), At(3, 2));
  }

  lemma InteriorIsEnclosed(a: Point, b: Point, c: Point, p: Point)
    requires Interior(a, b, c, p)
    ensures Encloses([a, b, c], p) && Winding([a, b, c], p) == 1
  {
    hide Cross, Winding, TriangleSum, WindingTerm;
    HeightsBalance(p, a, b, c);
    WindingInside(p, a, b, c);
    WindingExact([a, b, c], p);
    EnclosesTriangle(p, a, b, c);
  }

  lemma OuterEncloses(z: Point)
    requires IsWithin(z)
    ensures Encloses(Outer(), z) && Winding(Outer(), z) == 1
  {
    hide Cross, Encloses, Winding, At;
    SidesByCoordinates(z);
    InteriorIsEnclosed(At(0, 0), At(8, 0), At(8, 8), z);
  }

  lemma FirstIsInside()
    ensures IsAnnulus(Outer(), FirstHole())
  {
    hide Simple, KeepApart, Encloses, EntryOf, At, Outer, FirstHole, SecondHole, IsLeftOf, IsWithin;
    OuterIsSimple();
    HolesAreSimple();
    HolesAreWithin();
    WithinIsInside(FirstHole());
    OuterKeepsApartFrom(FirstHole());
    Entries();
    FirstEntry();
    LoopsAreThree();
  }

  lemma SecondIsInside()
    ensures IsAnnulus(Outer(), SecondHole())
  {
    hide Simple, KeepApart, Encloses, EntryOf, At, Outer, FirstHole, SecondHole, IsLeftOf, IsWithin;
    OuterIsSimple();
    HolesAreSimple();
    HolesAreWithin();
    WithinIsInside(SecondHole());
    OuterKeepsApartFrom(SecondHole());
    Entries();
    SecondEntry();
    LoopsAreThree();
  }

  lemma LoopsAreThree()
    ensures |Outer()| == 3 && |FirstHole()| == 3 && |SecondHole()| == 3
  {
  }

  lemma FirstEntry()
    ensures Encloses(Outer(), At(7, 2)) && Winding(Outer(), At(7, 2)) == 1
  {
    hide Encloses, Winding, Outer;
    OuterEncloses(At(7, 2));
  }

  lemma SecondEntry()
    ensures Encloses(Outer(), At(6, 3)) && Winding(Outer(), At(6, 3)) == 1
  {
    hide Encloses, Winding, Outer;
    OuterEncloses(At(6, 3));
  }

  lemma FirstEntryIsOutside()
    ensures !Encloses(SecondHole(), At(7, 2))
  {
    hide Encloses, Winding;
    RightOfAll(SecondHole(), At(7, 2));
    WindingExact(SecondHole(), At(7, 2));
  }

  lemma SecondEntryIsOutside()
    ensures !Encloses(FirstHole(), At(6, 3))
  {
    hide Encloses;
    NothingEnclosesAbove(FirstHole(), At(6, 3));
  }

  /** Each hole is entered inside the outer loop and outside the other. */
  lemma HolesAreEnteredInside()
    ensures EnteredInside(Outer(), [FirstHole(), SecondHole()], 0)
    ensures EnteredInside(Outer(), [FirstHole(), SecondHole()], 1)
  {
    hide Encloses, EntryOf, At, Outer, FirstHole, SecondHole;
    Entries();
    FirstEntry();
    SecondEntry();
    FirstEntryIsOutside();
    SecondEntryIsOutside();
    LoopsAreThree();
  }

  // ----- the region winds once at most -----

  /** What a triangle winds around is on the side of a line it is on. */
  lemma WindsOnItsSide(a: Point, b: Point, c: Point, p: Point, q: Point, z: Point)
    requires IsLeftOf([a, b, c], p, q) && Winding([a, b, c], z) != 0
    ensures Cross(p, q, z) > 0.0
  {
    hide Cross, Winding, TriangleSum, WindingTerm;
    assert a in [a, b, c] && b in [a, b, c] && c in [a, b, c];
    EnclosesTriangle(z, a, b, c);
    if Cross(a, b, c) > 0.0 {
      LeftWindsOnItsSide(a, b, c, p, q, z);
    } else {
      assert [a, c, b] == [a, c, b];
      SwappedTriangle(a, b, c, z);
      EnclosesTriangle(z, a, c, b);
      LeftWindsOnItsSide(a, c, b, p, q, z);
    }
  }

  lemma SwappedTriangle(a: Point, b: Point, c: Point, z: Point)
    ensures TriangleSum(WindingTerm(z), a, c, b) == -TriangleSum(WindingTerm(z), a, b, c)
    ensures Cross(a, c, b) == -Cross(a, b, c)
  {
    hide WindingTerm;
    WindingTermAntisymmetric(z);
    var w := WindingTerm(z);
    assert w(a, b) == -w(b, a) && w(b, c) == -w(c, b) && w(c, a) == -w(a, c);
  }

  lemma LeftWindsOnItsSide(a: Point, b: Point, c: Point, p: Point, q: Point, z: Point)
    requires Cross(a, b, c) > 0.0 && TriangleSum(WindingTerm(z), a, b, c) != 0.0
    requires Cross(p, q, a) > 0.0 && Cross(p, q, b) > 0.0 && Cross(p, q, c) > 0.0
    ensures Cross(p, q, z) > 0.0
  {
    hide Cross, TriangleSum, WindingTerm;
    WindingOfTriangle(z, a, b, c);
    WindingInside(z, a, b, c);
    HeightsBalance(z, a, b, c);
    Barycentric(a, b, c, p, q, z);
    SignOfTerm(Cross(b, c, z), Cross(p, q, a));
    SignOfTerm(Cross(c, a, z), Cross(p, q, b));
    SignOfTerm(Cross(a, b, z), Cross(p, q, c));
    SignOfProduct(Cross(p, q, z), Cross(a, b, c));
    Commutative(Cross(a, b, c), Cross(p, q, z));
  }

  lemma Commutative(x: real, y: real)
    ensures x * y == y * x
  {
  }

  lemma NotInBothHoles(p: Point)
    ensures Winding(FirstHole(), p) == 0 || Winding(SecondHole(), p) == 0
  {
    hide Cross, Winding, At, IsLeftOf;
    LineBetweenHoles();
    Opposite(At(0, 0), At(3, 1), p);
    if Winding(FirstHole(), p) != 0 && Winding(SecondHole(), p) != 0 {
      WindsOnItsSide(At(7, 2), At(5, 1), At(4, 1), At(3, 1), At(0, 0), p);
      WindsOnItsSide(At(6, 3), At(5, 2), At(3, 2), At(0, 0), At(3, 1), p);
    }
  }

  /** The region winds zero times or once around every point. */
  lemma RegionIsFair(p: Point)
    requires CutOut(Outer(), [FirstHole(), SecondHole()]) == [FirstHole(), SecondHole()]
    ensures RegionWinding(Outer(), [FirstHole(), SecondHole()], p) in {0, 1}
  {
    hide Winding, IsAnnulus, Encloses, CutOut, At, IsCounterClockwise, FirstHole, SecondHole, WindsLeft, Tiling,
         AllTurnLeft,
         CountEnclosing, Answer, RegionWinding;
    FirstIsInside();
    SecondIsInside();
    OneHoleIsCovered(Outer(), FirstHole(), p);
    OneHoleIsCovered(Outer(), SecondHole(), p);
    NotInBothHoles(p);
    Orientations();
    RegionOfTwo(p);
    OutsideTwo(p);
  }

  lemma RegionOfTwo(p: Point)
    requires CutOut(Outer(), [FirstHole(), SecondHole()]) == [FirstHole(), SecondHole()]
    requires IsCounterClockwise(Outer()) && !IsCounterClockwise(FirstHole()) && !IsCounterClockwise(SecondHole())
    ensures |Outer()| >= 3
    ensures RegionWinding(Outer(), [FirstHole(), SecondHole()], p)
         == Winding(Outer(), p) + Winding(FirstHole(), p) + Winding(SecondHole(), p)
  {
    hide Winding, CutOut, IsCounterClockwise, FirstHole, SecondHole;
    var f := WindingAgainst(p);
    var holes := [FirstHole(), SecondHole()];
    assert holes[1..] == [SecondHole()] && [SecondHole()][1..] == [];
    assert IntSum(f, holes) == f(holes[0]) + IntSum(f, holes[1..]);
    assert IntSum(f, [SecondHole()]) == f(SecondHole()) + IntSum(f, [SecondHole()][1..]);
    assert f(FirstHole()) == Winding(FirstHole(), p) && f(SecondHole()) == Winding(SecondHole(), p);
  }

  lemma OutsideTwo(p: Point)
    ensures Winding(Outer(), p) == if Encloses(Outer(), p) then 1 else 0
    ensures Winding(FirstHole(), p) == if Encloses(FirstHole(), p) then -1 else 0
    ensures Winding(SecondHole(), p) == if Encloses(SecondHole(), p) then -1 else 0
  {
    hide Winding, Cross, Encloses, At, Turning;
    OuterTurns();
    FirstTurns();
    SecondTurns();
    CrossAt(0, 0, 8, 0, 8, 8);
    EnclosesTriangle(p, At(0, 0), At(8, 0), At(8, 8));
    CrossAt(7, 2, 5, 1, 4, 1);
    EnclosesTriangle(p, At(7, 2), At(5, 1), At(4, 1));
    CrossAt(6, 3, 5, 2, 3, 2);
    EnclosesTriangle(p, At(6, 3), At(5, 2), At(3, 2));
  }
}
