/** A loop and a point inside it from which the ray construction answers with a vertex behind a wall. */
module WalledRay {
  import opened Options
  import opened Geometry
  import opened Grid
  import opened EdgeSums
  import opened RingMeasures
  import opened SegmentCrossing
  import opened SimpleLoops
  import opened SegmentWinding
  import opened Nearby
  import opened LowestVertex
  import opened RaySight
  import opened Clipping
  import opened Bridging
  import opened Triangulation
  import opened Fans
  import opened Views
  import opened RayBridges

  /** A peak, a notch from above, and a dent on the far side, level with the corner the ray comes to. */
  function Notched(): Loop {
    [At(0, 0), At(8, 3), At(5, 6), At(4, 2), At(3, 6), At(2, 3)]
  }

  function Inner(): Point {
    At(6, 3)
  }

  // ----- which way three of the points turn -----

  lemma FootPeakShoulder()
    ensures Turning(0, 0, 8, 3, 5, 6) == 33
  {
  }

  lemma FootPeakNotch()
    ensures Turning(0, 0, 8, 3, 4, 2) == 4
  {
  }

  lemma FootPeakCrest()
    ensures Turning(0, 0, 8, 3, 3, 6) == 39
  {
  }

  lemma FootPeakDent()
    ensures Turning(0, 0, 8, 3, 2, 3) == 18
  {
  }

  lemma DentFootPeak()
    ensures Turning(2, 3, 0, 0, 8, 3) == 18
  {
  }

  lemma PeakShoulderNotch()
    ensures Turning(8, 3, 5, 6, 4, 2) == 15
  {
  }

  lemma PeakShoulderCrest()
    ensures Turning(8, 3, 5, 6, 3, 6) == 6
  {
  }

  lemma PeakShoulderDent()
    ensures Turning(8, 3, 5, 6, 2, 3) == 18
  {
  }

  lemma PeakShoulderFoot()
    ensures Turning(8, 3, 5, 6, 0, 0) == 33
  {
  }

  lemma ShoulderNotchCrest()
    ensures Turning(5, 6, 4, 2, 3, 6) == -8
  {
  }

  lemma ShoulderNotchDent()
    ensures Turning(5, 6, 4, 2, 2, 3) == -9
  {
  }

  lemma ShoulderNotchFoot()
    ensures Turning(5, 6, 4, 2, 0, 0) == -14
  {
  }

  lemma NotchCrestDent()
    ensures Turning(4, 2, 3, 6, 2, 3) == 7
  {
  }

  lemma NotchCrestFoot()
    ensures Turning(4, 2, 3, 6, 0, 0) == 18
  {
  }

  lemma CrestDentFoot()
    ensures Turning(3, 6, 2, 3, 0, 0) == -3
  {
  }

  lemma FootPeakInner()
    ensures Turning(0, 0, 8, 3, 6, 3) == 6
  {
  }

  lemma PeakShoulderInner()
    ensures Turning(8, 3, 5, 6, 6, 3) == 6
  {
  }

  lemma ShoulderNotchInner()
    ensures Turning(5, 6, 4, 2, 6, 3) == 7
  {
  }

  lemma NotchCrestInner()
    ensures Turning(4, 2, 3, 6, 6, 3) == -9
  {
  }

  lemma CrestDentInner()
    ensures Turning(3, 6, 2, 3, 6, 3) == 12
  {
  }

  lemma DentFootInner()
    ensures Turning(2, 3, 0, 0, 6, 3) == 12
  {
  }

  // ----- the loop does not touch itself -----

  lemma LineApart(a: Point, b: Point, c: Point, d: Point)
    requires (Cross(a, b, c) > 0.0 && Cross(a, b, d) > 0.0) || (Cross(a, b, c) < 0.0 && Cross(a, b, d) < 0.0)
    ensures EdgesApart(a, b, c, d) && EdgesApart(c, d, a, b)
  {
    hide Cross, Along, Mean;
    forall s: real, t: real ensures !MeetAt(a, b, c, d, s, t) {
      if MeetAt(a, b, c, d, s, t) {
        OnItsOwnLine(a, b, s);
        SidesAlong(a, b, c, d, t);
        OneSign(Cross(a, b, c), Cross(a, b, d), t);
      }
    }
    ApartTurned(a, b, c, d);
  }

  lemma OneSign(x: real, y: real, t: real)
    requires IsFraction(t) && ((x > 0.0 && y > 0.0) || (x < 0.0 && y < 0.0))
    ensures Mean(x, y, t) != 0.0
  {
    SignOfTerm(1.0 - t, x);
    SignOfTerm(t, y);
    if t < 1.0 {
      SignOfProduct(1.0 - t, x);
    }
  }

  lemma LineApartAt(x0: int, y0: int, x1: int, y1: int, x2: int, y2: int, x3: int, y3: int)
    requires var (c, d) := (Turning(x0, y0, x1, y1, x2, y2), Turning(x0, y0, x1, y1, x3, y3));
      (c > 0 && d > 0) || (c < 0 && d < 0)
    ensures EdgesApart(At(x0, y0), At(x1, y1), At(x2, y2), At(x3, y3))
    ensures EdgesApart(At(x2, y2), At(x3, y3), At(x0, y0), At(x1, y1))
  {
    CrossAt(x0, y0, x1, y1, x2, y2);
    CrossAt(x0, y0, x1, y1, x3, y3);
    hide Cross, At, Turning;
    LineApart(At(x0, y0), At(x1, y1), At(x2, y2), At(x3, y3));
  }

  lemma BendApartAt(x0: int, y0: int, x1: int, y1: int, x2: int, y2: int)
    requires Turning(x0, y0, x1, y1, x2, y2) != 0
    ensures EdgesApart(At(x0, y0), At(x1, y1), At(x1, y1), At(x2, y2))
    ensures EdgesApart(At(x1, y1), At(x2, y2), At(x0, y0), At(x1, y1))
  {
    CrossAt(x0, y0, x1, y1, x2, y2);
    hide Cross, At, Turning, EdgesApart;
    CornerApart(At(x1, y1), At(x0, y0), At(x2, y2));
    ApartTurned(At(x0, y0), At(x1, y1), At(x1, y1), At(x2, y2));
  }

  /** Edge i and edge j of the loop. */
  ghost predicate SidesApart(i: nat, j: nat) {
    var ring := Notched();
    i < 6 && j < 6 && EdgesApart(ring[i], ring[After(i, 6)], ring[j], ring[After(j, 6)])
  }

  lemma FirstSide()
    ensures forall j :: 1 <= j < 6 ==> SidesApart(0, j) && SidesApart(j, 0)
  {
    hide EdgesApart, Turning, At;
    FootPeakShoulder();
    BendApartAt(0, 0, 8, 3, 5, 6);
    FootPeakShoulder();
    FootPeakNotch();
    LineApartAt(0, 0, 8, 3, 5, 6, 4, 2);
    FootPeakNotch();
    FootPeakCrest();
    LineApartAt(0, 0, 8, 3, 4, 2, 3, 6);
    FootPeakCrest();
    FootPeakDent();
    LineApartAt(0, 0, 8, 3, 3, 6, 2, 3);
    DentFootPeak();
    BendApartAt(2, 3, 0, 0, 8, 3);
  }

  lemma SecondSide()
    ensures forall j :: 2 <= j < 6 ==> SidesApart(1, j) && SidesApart(j, 1)
  {
    hide EdgesApart, Turning, At;
    PeakShoulderNotch();
    BendApartAt(8, 3, 5, 6, 4, 2);
    PeakShoulderNotch();
    PeakShoulderCrest();
    LineApartAt(8, 3, 5, 6, 4, 2, 3, 6);
    PeakShoulderCrest();
    PeakShoulderDent();
    LineApartAt(8, 3, 5, 6, 3, 6, 2, 3);
    PeakShoulderDent();
    PeakShoulderFoot();
    LineApartAt(8, 3, 5, 6, 2, 3, 0, 0);
  }

  lemma ThirdSide()
    ensures forall j :: 3 <= j < 6 ==> SidesApart(2, j) && SidesApart(j, 2)
  {
    hide EdgesApart, Turning, At;
    ShoulderNotchCrest();
    BendApartAt(5, 6, 4, 2, 3, 6);
    ShoulderNotchCrest();
    ShoulderNotchDent();
    LineApartAt(5, 6, 4, 2, 3, 6, 2, 3);
    ShoulderNotchDent();
    ShoulderNotchFoot();
    LineApartAt(5, 6, 4, 2, 2, 3, 0, 0);
  }

  lemma LastSides()
    ensures SidesApart(3, 4) && SidesApart(4, 3) && SidesApart(3, 5) && SidesApart(5, 3)
    ensures SidesApart(4, 5) && SidesApart(5, 4)
  {
    hide EdgesApart, Turning, At;
    NotchCrestDent();
    BendApartAt(4, 2, 3, 6, 2, 3);
    NotchCrestDent();
    NotchCrestFoot();
    LineApartAt(4, 2, 3, 6, 2, 3, 0, 0);
    CrestDentFoot();
    BendApartAt(3, 6, 2, 3, 0, 0);
  }

  lemma NotchedIsSimple()
    ensures Simple(Notched())
  {
    hide EdgesApart;
    FirstSide();
    SecondSide();
    ThirdSide();
    LastSides();
    var ring := Notched();
    forall a, b, c, d | IsEdge(ring, a, b) && IsEdge(ring, c, d) && (a, b) != (c, d) ensures EdgesApart(a, b, c, d) {
      var i: nat :| EdgeAt(ring, i, a, b);
      var j: nat :| EdgeAt(ring, j, c, d);
      assert SidesApart(i, j);
    }
    PointsDiffer();
  }

  lemma PointsDiffer()
    ensures Distinct(Notched())
  {
  }

  // ----- the point is inside -----

  lemma NotchedWindsLeft()
    ensures WindsLeft(Notched())
  {
    var ring := Notched();
    assert Rotated(ring, 0) == ring;
    CrossAt(2, 3, 0, 0, 8, 3);
    assert LowestAt(ring, 0);
    assert StartsLeft(ring);
  }

  lemma OffLineAt(x0: int, y0: int, x1: int, y1: int, x2: int, y2: int)
    requires Turning(x0, y0, x1, y1, x2, y2) != 0
    ensures !OnEdge(At(x0, y0), At(x1, y1), At(x2, y2))
  {
    CrossAt(x0, y0, x1, y1, x2, y2);
  }

  lemma InnerIsOff()
    ensures OffRing(Notched(), Inner())
  {
    hide OnEdge, Turning, At;
    FootPeakInner();
    OffLineAt(0, 0, 8, 3, 6, 3);
    PeakShoulderInner();
    OffLineAt(8, 3, 5, 6, 6, 3);
    ShoulderNotchInner();
    OffLineAt(5, 6, 4, 2, 6, 3);
    NotchCrestInner();
    OffLineAt(4, 2, 3, 6, 6, 3);
    CrestDentInner();
    OffLineAt(3, 6, 2, 3, 6, 3);
    DentFootInner();
    OffLineAt(2, 3, 0, 0, 6, 3);
  }

  lemma HitAt(x0: int, y0: int, x1: int, y1: int, x: int, y: int)
    ensures Hit(At(x, y), At(x0, y0), At(x1, y1))
       <==> ((y0 > y) != (y1 > y)) && if y1 > y then Turning(x0, y0, x1, y1, x, y) > 0
                                      else Turning(x0, y0, x1, y1, x, y) < 0
  {
    CrossAt(x0, y0, x1, y1, x, y);
    hide Cross, Turning, CrossingX;
    if Straddles(At(x0, y0), At(x1, y1), At(x, y).y) {
      HitBySide(At(x, y), At(x0, y0), At(x1, y1));
    }
  }

  lemma InnerIsEnclosed()
    ensures Encloses(Notched(), Inner())
  {
    hide Hit, At, Turning;
    FootPeakInner();
    HitAt(0, 0, 8, 3, 6, 3);
    PeakShoulderInner();
    HitAt(8, 3, 5, 6, 6, 3);
    ShoulderNotchInner();
    HitAt(5, 6, 4, 2, 6, 3);
    NotchCrestInner();
    HitAt(4, 2, 3, 6, 6, 3);
    CrestDentInner();
    HitAt(3, 6, 2, 3, 6, 3);
    DentFootInner();
    HitAt(2, 3, 0, 0, 6, 3);
    var ring := Notched();
    assert ring[1..] == [At(8, 3), At(5, 6), At(4, 2), At(3, 6), At(2, 3)];
    assert ring[1..][1..] == [At(5, 6), At(4, 2), At(3, 6), At(2, 3)];
    assert ring[1..][1..][1..] == [At(4, 2), At(3, 6), At(2, 3)];
    assert ring[1..][1..][1..][1..] == [At(3, 6), At(2, 3)];
  }

  // ----- the answer -----

  function Chain(): seq<Vertex> {
    Numbered(0, Notched())
  }

  lemma ChainIsNotched()
    ensures |Chain()| == 6 && Places(Chain()) == Notched()
    ensures forall i :: 0 <= i < 6 ==> Chain()[i].at == Notched()[i]
  {
    assert Places(Chain()) == Notched();
  }

  /** The ray comes to the peak. */
  lemma ComesToThePeak(edge: nat, x: Point)
    requires ComesToEdge(Chain(), Inner(), edge, x)
    ensures edge == 1 && x == At(8, 3)
  {
    ChainIsNotched();
    var (a, b) := (Notched()[edge], Notched()[After(edge, 6)]);
    OnEdgeBox(a, b, x);
    LevelPoint(a, b, x);
  }

  lemma OnlyTheDent(i: nat)
    ensures IsLevelReflex(Chain(), Inner(), 1, i) <==> i == 5
  {
    ChainIsNotched();
    CrossAt(3, 6, 2, 3, 0, 0);
    hide Cross;
  }

  lemma AnswerIsTheDent()
    requires IsInside(Notched(), Inner())
    ensures VisibleFrom(Chain(), Inner()) == Some(5)
  {
    hide VisibleFrom, IsLevelReflex, Chain, Inner, ComesToEdge, IsInTheWay, NoSteeper, Cross, Notched, At;
    ChainIsNotched();
    EnclosedHasAnswer(Chain(), Inner());
    VisibleFromIs(Chain(), Inner());
    var answer := VisibleFrom(Chain(), Inner()).value;
    var edge: nat, x: Point, corner: nat :| IsAnswer(Chain(), Inner(), edge, x, corner, answer);
    ComesToThePeak(edge, x);
    PeakIsCorner(x, corner, answer);
    LevelAnswer(Chain(), Inner(), edge, x, corner, answer);
    OnlyTheDent(answer);
    OnlyTheDent(5);
  }

  lemma PeakIsCorner(x: Point, corner: nat, answer: nat)
    requires IsAnswer(Chain(), Inner(), 1, x, corner, answer)
    ensures corner == 1 && Chain()[corner].at.y == Inner().y
  {
    hide IsInTheWay, NoSteeper, ComesFirstTo;
    ChainIsNotched();
  }

  lemma TheNotchIsAWall()
    ensures IsWalled(Notched(), Inner(), At(2, 3))
  {
    var ring := Notched();
    var z := Point(4.25, 3.0);
    assert EdgeAt(ring, 2, At(5, 6), At(4, 2));
    assert IsEdge(ring, At(5, 6), At(4, 2));
    assert Cross(At(5, 6), At(4, 2), z) == 0.0;
    assert IsWall(Inner(), At(2, 3), At(5, 6), At(4, 2), z);
  }

  /** From inside a loop that does not touch itself the construction answers with the dent, behind the notch. */
  lemma RayAnswersBehindAWall()
    ensures IsInside(Places(Chain()), Inner())
    ensures VisibleFrom(Chain(), Inner()) == Some(5)
    ensures !IsClearWay(Places(Chain()), Inner(), Chain()[5].at)
  {
    hide VisibleFrom, Simple, WindsLeft, OffRing, Encloses, IsClearWay, IsWalled;
    NotchedIsSimple();
    NotchedWindsLeft();
    InnerIsOff();
    InnerIsEnclosed();
    ChainIsNotched();
    AnswerIsTheDent();
    TheNotchIsAWall();
    ClearOnLevel(Notched(), Inner(), At(2, 3));
  }
}
