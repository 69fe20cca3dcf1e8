/** How the region with two holes is bridged, and where the search for its ears stalls. */
module StalledRegion {
  import opened Options
  import opened Geometry
  import opened Grid
  import opened EdgeSums
  import opened RingMeasures
  import opened SegmentCrossing
  import opened Clipping
  import opened StableSort
  import opened Bridging
  import opened Triangulation
  import opened TilingLaws
  import opened HoleLaws
  import opened DroppedHoles
  import opened SimpleLoops
  import opened SegmentWinding
  import opened EarWinding
  import opened LowestVertex
  import opened CornerCuts
  import opened RaySight
  import opened FirstBridge
  import opened OneHole
  import opened TwoHoles

  function V(origin: nat, x: int, y: int): Vertex {
    Vertex(origin, At(x, y))
  }

  /** The chain with the first hole bridged in. */
  function FirstChain(): seq<Vertex> {
    [V(0, 0, 0), V(1, 8, 0), V(2, 8, 8), V(3, 7, 2), V(4, 5, 1), V(5, 4, 1), V(3, 7, 2), V(2, 8, 8)]
  }

  /** And with the second bridged in, at the same corner but on the wrong side of the first bridge. */
  function SecondChain(): seq<Vertex> {
    [V(0, 0, 0), V(1, 8, 0), V(2, 8, 8), V(6, 6, 3), V(7, 5, 2), V(8, 3, 2), V(6, 6, 3), V(2, 8, 8),
     V(3, 7, 2), V(4, 5, 1), V(5, 4, 1), V(3, 7, 2), V(2, 8, 8)]
  }

  function FirstRing(): seq<Vertex> {
    [V(3, 7, 2), V(4, 5, 1), V(5, 4, 1)]
  }

  function SecondRing(): seq<Vertex> {
    [V(6, 6, 3), V(7, 5, 2), V(8, 3, 2)]
  }

  function StartChain(): seq<Vertex> {
    [V(0, 0, 0), V(1, 8, 0), V(2, 8, 8)]
  }

  // ----- the clip -----

  lemma TurnsRight(ring: seq<Vertex>, k: nat, x0: int, y0: int, x1: int, y1: int, x2: int, y2: int)
    requires k < |ring| && CornerAt(ring, k).a.at == At(x0, y0) && CornerAt(ring, k).b.at == At(x1, y1)
    requires CornerAt(ring, k).c.at == At(x2, y2) && Turning(x0, y0, x1, y1, x2, y2) <= 0
    ensures !IsEar(ring, k)
  {
    hide Cross, At, Turning;
    CrossAt(x0, y0, x1, y1, x2, y2);
  }

  lemma HasInside(ring: seq<Vertex>, k: nat, j: nat)
    requires k < |ring| && j < |ring|
    requires var (t, z) := (CornerAt(ring, k), ring[j].at);
      z != t.a.at && z != t.b.at && z != t.c.at && InsideTriangle(t.a.at, t.b.at, t.c.at, z)
    ensures !IsEar(ring, k)
  {
  }

  lemma InsideAt(x0: int, y0: int, x1: int, y1: int, x2: int, y2: int, x: int, y: int)
    requires Turning(x0, y0, x1, y1, x, y) >= 0 && Turning(x1, y1, x2, y2, x, y) >= 0
    requires Turning(x2, y2, x0, y0, x, y) >= 0
    ensures InsideTriangle(At(x0, y0), At(x1, y1), At(x2, y2), At(x, y))
  {
    hide Cross, At, Turning;
    CrossAt(x0, y0, x1, y1, x, y);
    CrossAt(x1, y1, x2, y2, x, y);
    CrossAt(x2, y2, x0, y0, x, y);
  }

  lemma Apart(x0: int, y0: int, x1: int, y1: int)
    requires x0 != x1 || y0 != y1
    ensures At(x0, y0) != At(x1, y1)
  {
  }

  /** A vertex of the first hole is in both corners at the bottom. */
  lemma BottomIsBlocked(ring: seq<Vertex>, k: nat, j: nat)
    requires k < |ring| && j < |ring| && ring[j].at == At(7, 2)
    requires var t := CornerAt(ring, k);
      || (t.a.at == At(8, 8) && t.b.at == At(0, 0) && t.c.at == At(8, 0))
      || (t.a.at == At(0, 0) && t.b.at == At(8, 0) && t.c.at == At(8, 8))
    ensures !IsEar(ring, k)
  {
    hide Cross, At;
    SidesByCoordinates(At(7, 2));
    FirstIsWithin();
    Apart(7, 2, 8, 8);
    Apart(7, 2, 0, 0);
    Apart(7, 2, 8, 0);
    HasInside(ring, k, j);
  }

  lemma FirstIsWithin()
    ensures IsWithin(At(7, 2))
  {
  }

  lemma SideIsBlocked(ring: seq<Vertex>, k: nat, j: nat)
    requires k < |ring| && j < |ring| && ring[j].at == At(7, 2)
    requires var t := CornerAt(ring, k); t.a.at == At(8, 0) && t.b.at == At(8, 8) && t.c.at == At(6, 3)
    ensures !IsEar(ring, k)
  {
    hide Cross, At, Turning, InsideTriangle;
    BesideTheSide();
    BesideTheBridge();
    DownToTheCorner();
    InsideAt(8, 0, 8, 8, 6, 3, 7, 2);
    Apart(7, 2, 8, 0);
    Apart(7, 2, 8, 8);
    Apart(7, 2, 6, 3);
    HasInside(ring, k, j);
  }

  lemma BackIsBlocked(ring: seq<Vertex>, k: nat, j: nat)
    requires k < |ring| && j < |ring| && ring[j].at == At(5, 2)
    requires var t := CornerAt(ring, k); t.a.at == At(4, 1) && t.b.at == At(7, 2) && t.c.at == At(8, 8)
    ensures !IsEar(ring, k)
  {
    hide Cross, At, Turning, InsideTriangle;
    AboveTheFirst();
    BesideTheFirstBridge();
    BelowTheTop();
    InsideAt(4, 1, 7, 2, 8, 8, 5, 2);
    Apart(5, 2, 4, 1);
    Apart(5, 2, 7, 2);
    Apart(5, 2, 8, 8);
    HasInside(ring, k, j);
  }

  lemma TopIsBlocked(ring: seq<Vertex>, k: nat, j: nat)
    requires k < |ring| && j < |ring| && ring[j].at == At(5, 2)
    requires var t := CornerAt(ring, k); t.a.at == At(7, 2) && t.b.at == At(8, 8) && t.c.at == At(0, 0)
    ensures !IsEar(ring, k)
  {
    hide Cross, At, Turning, InsideTriangle;
    BesideTheFirstBridge();
    BelowTheSlope();
    AboveTheRay();
    InsideAt(7, 2, 8, 8, 0, 0, 5, 2);
    Apart(5, 2, 7, 2);
    Apart(5, 2, 8, 8);
    Apart(5, 2, 0, 0);
    HasInside(ring, k, j);
  }

  /** The corners of the two holes turn right. */
  lemma HoleCorners(ring: seq<Vertex>, k: nat)
    requires k < |ring|
    requires var t := CornerAt(ring, k);
      || (t.a.at == At(8, 8) && t.b.at == At(6, 3) && t.c.at == At(5, 2))
      || (t.a.at == At(6, 3) && t.b.at == At(5, 2) && t.c.at == At(3, 2))
      || (t.a.at == At(8, 8) && t.b.at == At(7, 2) && t.c.at == At(5, 1))
      || (t.a.at == At(7, 2) && t.b.at == At(5, 1) && t.c.at == At(4, 1))
      || (t.a.at == At(5, 1) && t.b.at == At(4, 1) && t.c.at == At(7, 2))
    ensures !IsEar(ring, k)
  {
    hide Cross, At, Turning, IsEar, CornerAt;
    IntoTheSecond();
    SecondTurns();
    IntoTheFirst();
    FirstTurns();
    RoundTheFirst();
    var t := CornerAt(ring, k);
    if t.a.at == At(8, 8) && t.b.at == At(6, 3) && t.c.at == At(5, 2) {
      TurnsRight(ring, k, 8, 8, 6, 3, 5, 2);
    } else if t.a.at == At(6, 3) && t.b.at == At(5, 2) && t.c.at == At(3, 2) {
      TurnsRight(ring, k, 6, 3, 5, 2, 3, 2);
    } else if t.a.at == At(8, 8) && t.b.at == At(7, 2) && t.c.at == At(5, 1) {
      TurnsRight(ring, k, 8, 8, 7, 2, 5, 1);
    } else if t.a.at == At(7, 2) && t.b.at == At(5, 1) && t.c.at == At(4, 1) {
      TurnsRight(ring, k, 7, 2, 5, 1, 4, 1);
    } else {
      TurnsRight(ring, k, 5, 1, 4, 1, 7, 2);
    }
  }

  lemma OnlyOneEar(k: nat)
    requires k < 13 && k != 6
    ensures !IsEar(SecondChain(), k)
  {
    hide At, Turning, IsEar;
    var ring := SecondChain();
    if k <= 1 {
      BottomIsBlocked(ring, k, 8);
    } else if k == 2 {
      SideIsBlocked(ring, k, 8);
    } else if k == 5 {
      BaseOfTheSecond();
      TurnsRight(ring, k, 5, 2, 3, 2, 6, 3);
    } else if k == 7 {
      OutOfTheSecond();
      TurnsRight(ring, k, 6, 3, 8, 8, 7, 2);
    } else if k == 11 {
      BackIsBlocked(ring, k, 4);
    } else if k == 12 {
      TopIsBlocked(ring, k, 4);
    } else {
      HoleCorners(ring, k);
    }
  }

  lemma NoEarIsLeft(k: nat)
    requires k < 12
    ensures !IsEar(Without(SecondChain(), 6), k)
  {
    hide At, Turning, IsEar;
    var ring := Without(SecondChain(), 6);
    assert ring == [V(0, 0, 0), V(1, 8, 0), V(2, 8, 8), V(6, 6, 3), V(7, 5, 2), V(8, 3, 2), V(2, 8, 8),
                    V(3, 7, 2), V(4, 5, 1), V(5, 4, 1), V(3, 7, 2), V(2, 8, 8)];
    if k <= 1 {
      BottomIsBlocked(ring, k, 7);
    } else if k == 2 {
      SideIsBlocked(ring, k, 7);
    } else if k == 5 {
      SecondToTheTop();
      TurnsRight(ring, k, 5, 2, 3, 2, 8, 8);
    } else if k == 6 {
      EndToTheTop();
      TurnsRight(ring, k, 3, 2, 8, 8, 7, 2);
    } else if k == 10 {
      BackIsBlocked(ring, k, 4);
    } else if k == 11 {
      TopIsBlocked(ring, k, 4);
    } else {
      HoleCorners(ring, k);
    }
  }

  lemma {:induction false} NoEarNoClip(ring: seq<Vertex>, cursor: nat, failures: nat)
    requires |ring| > 3 && cursor < |ring| && failures <= |ring| + 1 && HasNoEar(ring)
    ensures Clip(ring, cursor, failures).None?
    decreases |ring| + 1 - failures
  {
    hide IsEar;
    if failures <= |ring| {
      NoEarNoClip(ring, After(cursor, |ring|), failures + 1);
    }
  }

  /** Where whatever ear is clipped none is left, the search stalls. */
  lemma {:induction false} OneEarNoClip(ring: seq<Vertex>, cursor: nat, failures: nat)
    requires |ring| > 4 && cursor < |ring| && failures <= |ring| + 1
    requires forall k: nat :: k < |ring| && IsEar(ring, k) ==> HasNoEar(Without(ring, k))
    ensures Clip(ring, cursor, failures).None?
    decreases |ring| + 1 - failures
  {
    hide IsEar;
    if failures <= |ring| {
      if IsEar(ring, cursor) {
        NoEarNoClip(Without(ring, cursor), cursor % (|ring| - 1), 0);
      } else {
        OneEarNoClip(ring, After(cursor, |ring|), failures + 1);
      }
    }
  }

  lemma SecondChainStalls()
    ensures ClipChain(SecondChain()).None?
  {
    hide IsEar, Clip, V;
    var ring := SecondChain();
    forall k: nat | k < |ring| && IsEar(ring, k) ensures HasNoEar(Without(ring, k)) {
      if k != 6 {
        OnlyOneEar(k);
      }
      forall i | 0 <= i < |Without(ring, 6)| ensures !IsEar(Without(ring, 6), i) {
        NoEarIsLeft(i);
      }
    }
    OneEarNoClip(ring, 0, 0);
  }

  // ----- the first bridge -----

  lemma StartOfChain()
    ensures OuterChain(Outer()) == StartChain() && HoleRing(3, FirstHole()) == FirstRing()
    ensures HoleRing(6, SecondHole()) == SecondRing()
    ensures RightmostIndex(FirstRing()) == 0 && RightmostIndex(SecondRing()) == 0
  {
    hide IsCounterClockwise, RightmostIndex, HoleRing;
    Orientations();
    Entries();
    assert Numbered(0, Outer()) == StartChain();
    assert Numbered(3, FirstHole()) == FirstRing();
    assert Numbered(6, SecondHole()) == SecondRing();
  }

  /** What an edge from start to end answers to the ray from origin. */
  function HitOf(start: Point, end: Point, origin: Point): Option<real> {
    if !Straddles(start, end, origin.y) then None
    else if CrossingX(start, end, origin.y) < origin.x then None
    else Some(CrossingX(start, end, origin.y))
  }

  lemma HitIs(chain: seq<Vertex>, origin: Point, i: nat)
    requires i < |chain|
    ensures EdgeHit(chain, origin, i) == HitOf(chain[i].at, chain[After(i, |chain|)].at, origin)
  {
  }

  lemma BottomIsMissed(y: real)
    requires y >= 0.0
    ensures forall x: real :: HitOf(At(0, 0), At(8, 0), Point(x, y)).None?
  {
  }

  lemma SideIsHit(x: real, y: real)
    requires 0.0 <= y < 8.0 && x <= 8.0
    ensures HitOf(At(8, 0), At(8, 8), Point(x, y)) == Some(8.0)
  {
    var t := (y - 0.0) / (8.0 - 0.0);
    assert 0.0 * t == 0.0;
  }

  lemma SlopeIsMissed(x: real, y: real)
    requires 0.0 <= y < x && y < 8.0
    ensures HitOf(At(8, 8), At(0, 0), Point(x, y)).None?
  {
    var t := (y - 8.0) / (0.0 - 8.0);
    assert t * -8.0 == y - 8.0;
    assert CrossingX(At(8, 8), At(0, 0), y) == -8.0 * t + 8.0;
  }

  lemma FirstHits()
    ensures EdgeHit(StartChain(), At(7, 2), 0).None? && EdgeHit(StartChain(), At(7, 2), 1) == Some(8.0)
    ensures EdgeHit(StartChain(), At(7, 2), 2).None?
  {
    hide EdgeHit, HitOf;
    HitIs(StartChain(), At(7, 2), 0);
    HitIs(StartChain(), At(7, 2), 1);
    HitIs(StartChain(), At(7, 2), 2);
    BottomIsMissed(2.0);
    SideIsHit(7.0, 2.0);
    SlopeIsMissed(7.0, 2.0);
    assert At(7, 2) == Point(7.0, 2.0);
  }

  lemma NearestIs(chain: seq<Vertex>, origin: Point, k: nat)
    requires k < |chain| && EdgeHit(chain, origin, k).Some?
    requires forall i :: 0 <= i < |chain| && i != k && EdgeHit(chain, origin, i).Some? ==>
               EdgeHit(chain, origin, k).value < EdgeHit(chain, origin, i).value
               || (k < i && EdgeHit(chain, origin, k).value == EdgeHit(chain, origin, i).value)
    ensures NearestHit(chain, origin, |chain|) == Some(Found(k, EdgeHit(chain, origin, k).value))
  {
    hide EdgeHit;
    NearestHitIsNearest(chain, origin, |chain|);
  }

  lemma NothingInTheWay(chain: seq<Vertex>, origin: Point, apex: Point, candidate: nat)
    requires candidate < |chain| && forall i :: 0 <= i < |chain| ==> !InTheWay(chain, origin, apex, candidate, i)
    ensures LeastAngle(chain, origin, apex, candidate, |chain|).None?
  {
    hide InTheWay;
    LeastAngleIsLeast(chain, origin, apex, candidate, |chain|);
  }

  lemma TurningIsNotInTheWay(chain: seq<Vertex>, origin: Point, apex: Point, candidate: nat, i: nat)
    requires candidate < |chain| && i < |chain| && TwiceArea(CornerAt(chain, i)) > 0.0
    ensures !InTheWay(chain, origin, apex, candidate, i)
  {
  }

  lemma StartTurns(i: nat)
    requires i < 3
    ensures TwiceArea(CornerAt(StartChain(), i)) > 0.0
  {
    hide Cross, At, Turning;
    OuterTurns();
    CrossAt(0, 0, 8, 0, 8, 8);
    CornerSides(At(0, 0), At(8, 0), At(8, 8));
  }

  lemma FirstIsDerived()
    ensures VisibleFrom(StartChain(), At(7, 2)) == Some(2)
  {
    hide At, EdgeHit, InTheWay, TwiceArea;
    FirstHits();
    NearestIs(StartChain(), At(7, 2), 1);
    FirstCandidate();
    forall i | 0 <= i < 3 ensures !InTheWay(StartChain(), At(7, 2), Point(8.0, At(7, 2).y), 2, i) {
      StartTurns(i);
      TurningIsNotInTheWay(StartChain(), At(7, 2), Point(8.0, At(7, 2).y), 2, i);
    }
    NothingInTheWay(StartChain(), At(7, 2), Point(8.0, At(7, 2).y), 2);
  }

  lemma FirstCandidate()
    ensures Candidate(StartChain(), 1) == 2
  {
  }

  /** The way from the first hole to the corner is clear. */
  lemma FirstSightIsClear()
    ensures IsCut(Outer(), At(7, 2), At(8, 8))
  {
    hide Cross, At, EdgesApart;
    SidesByCoordinates(At(7, 2));
    SidesByCoordinates(At(8, 8));
    FirstIsWithin();
    CornerIsRight();
    OnOwnEdges(At(0, 0), At(8, 0), At(8, 8));
    forall u, v | IsEdge(Outer(), u, v) ensures EdgesApart(At(7, 2), At(8, 8), u, v) {
      EdgesOfTriple(At(0, 0), At(8, 0), At(8, 8), u, v);
      if u == At(0, 0) && v == At(8, 0) {
        SidesKeepApart(u, v, At(7, 2), At(8, 8), At(0, 0), At(8, 0));
        MeetingIsMutual(u, v, At(7, 2), At(8, 8));
        NotMeetingApart(At(7, 2), At(8, 8), u, v);
      } else if u == At(8, 0) {
        CrossBack(At(8, 0), At(8, 8), At(7, 2));
        CornerApart(At(8, 8), At(7, 2), At(8, 0));
      } else {
        CornerSides(At(8, 8), At(0, 0), At(7, 2));
        CornerApart(At(8, 8), At(7, 2), At(0, 0));
      }
    }
  }

  lemma CornerIsRight()
    ensures At(8, 8).y == 8.0 && At(8, 8).x == 8.0 && At(7, 2).x == 7.0 && At(7, 2).y == 2.0
  {
  }

  lemma NotMeetingApart(a: Point, b: Point, c: Point, d: Point)
    requires !SegmentsMeet(a, b, c, d)
    ensures EdgesApart(a, b, c, d)
  {
    hide Along;
    forall s: real, t: real ensures !MeetAt(a, b, c, d, s, t) {
    }
  }

  lemma FirstTarget()
    ensures BridgeTarget(StartChain(), FirstRing()) == Some(2)
  {
    hide At, VisibleFrom, Passes, RightmostIndex, NearestReachable, IsAnnulus, Outer, FirstHole, IsCut, ReadyToBridge;
    StartOfChain();
    FirstIsDerived();
    FirstIsInside();
    LoopsAreThree();
    Entries();
    PlacesOfFirst();
    AnnulusIsReady(Outer(), FirstHole(), FirstRing());
    FirstSightIsClear();
    PlacesOfStart();
    CornerIsRight();
    SightPasses(StartChain(), FirstRing(), 2);
  }

  lemma PlacesOfFirst()
    ensures Places(FirstRing()) == FirstHole() == AgainstOuter(FirstHole())
    ensures EntryOfRing(FirstRing()) == At(7, 2)
  {
    hide At, IsCounterClockwise, RightmostIndex;
    Orientations();
    StartOfChain();
  }

  lemma PlacesOfStart()
    ensures Places(StartChain()) == Outer()
  {
  }

  lemma FirstBridged()
    ensures Bridge(StartChain(), FirstRing()) == Some(FirstChain())
  {
    hide At, BridgeTarget, RightmostIndex;
    FirstTarget();
    StartOfChain();
    assert Spliced(StartChain(), 2, FirstRing(), 0) == FirstChain();
  }

  // ----- the second bridge -----

  lemma {:induction false} OccursTwice(chain: seq<Vertex>, i: nat, j: nat)
    requires i < j < |chain| && chain[i].origin == chain[j].origin
    ensures Occurrences(chain, chain[i].origin) >= 2
  {
    var n := |chain| - 1;
    if j < n {
      OccursTwice(chain[..n], i, j);
    } else {
      OccursOnceAt(chain[..n], i);
    }
  }

  lemma {:induction false} OccursOnceAt(chain: seq<Vertex>, i: nat)
    requires i < |chain|
    ensures Occurrences(chain, chain[i].origin) >= 1
  {
    var n := |chain| - 1;
    if i < n {
      OccursOnceAt(chain[..n], i);
    }
  }

  lemma UsedCorners(i: nat)
    requires i == 2 || i == 3 || i == 6 || i == 7
    ensures !Passes(FirstChain(), SecondRing(), 0, i)
  {
    hide Reaches, At;
    OccursTwice(FirstChain(), 2, 7);
    OccursTwice(FirstChain(), 3, 6);
  }

  lemma CrossesBySigns(a: Point, b: Point, c: Point, d: Point)
    requires a != c && a != d && b != c && b != d
    requires (Cross(a, b, c) > 0.0) != (Cross(a, b, d) > 0.0) && (Cross(c, d, a) > 0.0) != (Cross(c, d, b) > 0.0)
    ensures Crosses(a, b, c, d)
  {
    hide Cross;
  }

  lemma CrossesHole(to: Point)
    requires Crosses(At(6, 3), to, At(5, 2), At(3, 2))
    ensures !CrossesNothing(At(6, 3), to, SecondRing(), 0)
  {
    hide Crosses, At;
    assert SecondRing()[1].at == At(5, 2) && SecondRing()[After(1, 3)].at == At(3, 2);
  }

  lemma CrossesChain(to: Point, skip: nat, i: nat)
    requires i < 8 && i != skip && After(i, 8) != skip
    requires Crosses(At(6, 3), to, FirstChain()[i].at, FirstChain()[After(i, 8)].at)
    ensures !CrossesNothing(At(6, 3), to, FirstChain(), skip)
  {
    hide Crosses, At;
  }

  /** To the origin the bridge would cross the second hole itself. */
  lemma NotToTheOrigin()
    ensures Crosses(At(6, 3), At(0, 0), At(5, 2), At(3, 2))
  {
    hide Cross, At, Turning, Crosses;
    SlopeToTheSecond();
    SlopeToItsEnd();
    BaseOfTheSecond();
    BaseSeenFromBelow();
    CrossAt(6, 3, 0, 0, 5, 2);
    CrossAt(6, 3, 0, 0, 3, 2);
    CrossAt(5, 2, 3, 2, 6, 3);
    CrossAt(5, 2, 3, 2, 0, 0);
    Apart(6, 3, 5, 2);
    Apart(6, 3, 3, 2);
    Apart(0, 0, 5, 2);
    Apart(0, 0, 3, 2);
    CrossesBySigns(At(6, 3), At(0, 0), At(5, 2), At(3, 2));
  }

  /** To the far end of the first hole it would touch the second. */
  lemma NotToTheFarEnd()
    ensures Crosses(At(6, 3), At(4, 1), At(5, 2), At(3, 2))
  {
    hide Cross, Turning;
    DiagonalOfTheSecond();
    CrossAt(6, 3, 4, 1, 5, 2);
    Apart(6, 3, 5, 2);
    Apart(6, 3, 3, 2);
    Apart(4, 1, 5, 2);
    Apart(4, 1, 3, 2);
  }

  /** To the lower corner it would cross the first hole, and to that hole's bottom as well. */
  lemma NotToTheLowerCorner()
    ensures Crosses(At(6, 3), At(8, 0), At(7, 2), At(5, 1))
  {
    hide Cross, At, Turning, Crosses;
    DownToTheCorner();
    DownPastTheFirst();
    FirstSeenFromAbove();
    FirstSeenFromTheCorner();
    CrossAt(6, 3, 8, 0, 7, 2);
    CrossAt(6, 3, 8, 0, 5, 1);
    CrossAt(7, 2, 5, 1, 6, 3);
    CrossAt(7, 2, 5, 1, 8, 0);
    Apart(6, 3, 7, 2);
    Apart(6, 3, 5, 1);
    Apart(8, 0, 7, 2);
    Apart(8, 0, 5, 1);
    CrossesBySigns(At(6, 3), At(8, 0), At(7, 2), At(5, 1));
  }

  lemma NotToTheBottom()
    ensures Crosses(At(6, 3), At(5, 1), At(4, 1), At(7, 2))
  {
    hide Cross, At, Turning, Crosses;
    DownToTheFirst();
    DownBesideTheFirst();
    TopOfTheFirst();
    TopSeenFromBelow();
    CrossAt(6, 3, 5, 1, 4, 1);
    CrossAt(6, 3, 5, 1, 7, 2);
    CrossAt(4, 1, 7, 2, 6, 3);
    CrossAt(4, 1, 7, 2, 5, 1);
    Apart(6, 3, 4, 1);
    Apart(6, 3, 7, 2);
    Apart(5, 1, 4, 1);
    Apart(5, 1, 7, 2);
    CrossesBySigns(At(6, 3), At(5, 1), At(4, 1), At(7, 2));
  }

  lemma NothingPasses(i: nat)
    requires i < 8
    ensures !Passes(FirstChain(), SecondRing(), 0, i)
  {
    hide Crosses, At, Free, Encloses, Distance2, CrossesNothing;
    if i == 0 {
      NotToTheOrigin();
      CrossesHole(At(0, 0));
    } else if i == 1 {
      NotToTheLowerCorner();
      CrossesChain(At(8, 0), 1, 3);
    } else if i == 4 {
      NotToTheBottom();
      CrossesChain(At(5, 1), 4, 5);
    } else if i == 5 {
      NotToTheFarEnd();
      CrossesHole(At(4, 1));
    } else {
      UsedCorners(i);
    }
  }

  // ----- so it is taken untested -----

  lemma FirstBridgeIsHit()
    ensures HitOf(At(8, 8), At(7, 2), At(6, 3)).Some?
    ensures HitOf(At(7, 2), At(8, 8), At(6, 3)) == HitOf(At(8, 8), At(7, 2), At(6, 3))
    ensures HitOf(At(8, 8), At(7, 2), At(6, 3)).value < 8.0
  {
    var (t, u) := ((3.0 - 8.0) / (2.0 - 8.0), (3.0 - 2.0) / (8.0 - 2.0));
    assert t * -6.0 == -5.0 && u * 6.0 == 1.0;
    assert CrossingX(At(8, 8), At(7, 2), 3.0) == -1.0 * t + 8.0;
    assert CrossingX(At(7, 2), At(8, 8), 3.0) == 1.0 * u + 7.0;
  }

  lemma LowIsMissed(a: Point, b: Point, origin: Point)
    requires a.y <= origin.y && b.y <= origin.y
    ensures HitOf(a, b, origin).None?
  {
  }

  lemma SecondHits()
    ensures var hit := (i: nat) => if i < 8 then EdgeHit(FirstChain(), At(6, 3), i) else None;
      && hit(0).None? && hit(1) == Some(8.0) && hit(2).Some? && hit(2).value < 8.0 && hit(6) == hit(2)
      && hit(3).None? && hit(4).None? && hit(5).None? && hit(7).None?
  {
    hide EdgeHit, HitOf;
    forall i | 0 <= i < 8
      ensures EdgeHit(FirstChain(), At(6, 3), i) == HitOf(FirstChain()[i].at, FirstChain()[After(i, 8)].at, At(6, 3))
    {
      HitIs(FirstChain(), At(6, 3), i);
    }
    BottomIsMissed(3.0);
    SideIsHit(6.0, 3.0);
    SlopeIsMissed(6.0, 3.0);
    assert At(6, 3) == Point(6.0, 3.0);
    FirstBridgeIsHit();
    LowIsMissed(At(7, 2), At(5, 1), At(6, 3));
    LowIsMissed(At(5, 1), At(4, 1), At(6, 3));
    LowIsMissed(At(4, 1), At(7, 2), At(6, 3));
  }

  lemma SecondCandidate()
    ensures Candidate(FirstChain(), 2) == 2
  {
  }

  /** Below the ray nothing is in the way of a vertex above it. */
  lemma BelowTheRay(origin: Point, apex: Point, candidate: Point, p: Point)
    requires apex.y == origin.y && apex.x > origin.x && candidate.y > origin.y && p.y < origin.y
    ensures !InsideTriangle(origin, apex, candidate, p)
  {
    BesideRay(origin, apex, candidate);
    BesideRay(origin, apex, p);
    HeightsBalance(p, origin, apex, candidate);
  }

  lemma ConvexCorners(i: nat)
    requires i == 0 || i == 1 || i == 6 || i == 7
    ensures TwiceArea(CornerAt(FirstChain(), i)) > 0.0
  {
    hide Cross, At, Turning;
    OuterTurns();
    BackOverTheFirst();
    OverTheTop();
    CrossAt(0, 0, 8, 0, 8, 8);
    CornerSides(At(0, 0), At(8, 0), At(8, 8));
    CrossAt(4, 1, 7, 2, 8, 8);
    CrossAt(7, 2, 8, 8, 0, 0);
  }

  lemma FreeWay(x: real, i: nat)
    requires x > 6.0 && i < 8
    ensures !InTheWay(FirstChain(), At(6, 3), Point(x, At(6, 3).y), 2, i)
  {
    hide Cross, InsideTriangle, TwiceArea;
    if i == 0 || i == 1 || i == 6 || i == 7 {
      ConvexCorners(i);
      TurningIsNotInTheWay(FirstChain(), At(6, 3), Point(x, At(6, 3).y), 2, i);
    } else if i != 2 {
      BelowTheRay(At(6, 3), Point(x, At(6, 3).y), At(8, 8), FirstChain()[i].at);
    }
  }

  lemma SecondIsDerived()
    ensures VisibleFrom(FirstChain(), At(6, 3)) == Some(2)
  {
    hide At, EdgeHit, InTheWay;
    SecondHits();
    var hit := EdgeHit(FirstChain(), At(6, 3), 2);
    NearestIs(FirstChain(), At(6, 3), 2);
    SecondCandidate();
    HitIsBeyond();
    forall i | 0 <= i < 8 ensures !InTheWay(FirstChain(), At(6, 3), Point(hit.value, At(6, 3).y), 2, i) {
      FreeWay(hit.value, i);
    }
    NothingInTheWay(FirstChain(), At(6, 3), Point(hit.value, At(6, 3).y), 2);
  }

  lemma HitIsBeyond()
    ensures EdgeHit(FirstChain(), At(6, 3), 2).Some? ==> EdgeHit(FirstChain(), At(6, 3), 2).value > 6.0
  {
    hide EdgeHit;
    HitIs(FirstChain(), At(6, 3), 2);
    var t := (3.0 - 8.0) / (2.0 - 8.0);
    assert t * -6.0 == -5.0;
    assert CrossingX(At(8, 8), At(7, 2), 3.0) == -1.0 * t + 8.0;
  }

  lemma SecondBridged()
    ensures Bridge(FirstChain(), SecondRing()) == Some(SecondChain())
  {
    hide At, VisibleFrom, Passes, RightmostIndex, NearestReachable, V;
    StartOfChain();
    SecondIsDerived();
    forall i: nat | i < |FirstChain()| ensures !Passes(FirstChain(), SecondRing(), 0, i) {
      NothingPasses(i);
    }
    NearestReachableIsNearest(FirstChain(), SecondRing(), 0);
    EntryIsFirst();
    assert BridgeTarget(FirstChain(), SecondRing()) == Some(2);
    assert Spliced(FirstChain(), 2, SecondRing(), 0) == SecondChain();
  }

  lemma EntryIsFirst()
    ensures SecondRing()[0].at == At(6, 3)
  {
  }

  // ----- the whole -----

  lemma TwoPending()
    ensures var pending := PendingHoles(Outer(), [FirstHole(), SecondHole()]);
      && |pending| == 2 && pending[0].number == 0 && pending[0].ring == FirstRing() && pending[0].rightmost == 7.0
      && pending[1].number == 1 && pending[1].ring == SecondRing() && pending[1].rightmost == 6.0
  {
    hide RightmostIndex, HoleRing;
    StartOfChain();
    var holes := [FirstHole(), SecondHole()];
    assert holes[..1] == [FirstHole()] && [FirstHole()][..0] == [];
    FlatOfOne();
    assert PendingHoles(Outer(), []) == [];
    assert PendingHoles(Outer(), [FirstHole()]) == [Pending(7.0, 0, FirstRing())];
  }

  lemma FlatOfOne()
    ensures |AllPoints(Outer(), [])| == 3 && |AllPoints(Outer(), [FirstHole()])| == 6
  {
    assert [FirstHole()][..0] == [];
    assert Flat([FirstHole()]) == Flat([FirstHole()][..0]) + FirstHole();
  }

  lemma SortsTwo<T>(s: seq<T>, key: T -> real)
    requires |s| == 2 && key(s[0]) <= key(s[1])
    ensures Sort(s, key) == s
  {
    assert s[..1] == [s[0]] && [s[0]][..0] == [];
    assert Sort([s[0]], key) == Insert(Sort([s[0]][..0], key), s[0], key);
    assert s == [s[0]] + [s[1]];
  }

  lemma TwoQueued()
    ensures var queue := Queue(Outer(), [FirstHole(), SecondHole()]);
      && |queue| == 2 && queue[0].number == 0 && queue[0].ring == FirstRing()
      && queue[1].number == 1 && queue[1].ring == SecondRing()
  {
    hide PendingHoles, Sort, FirstRing, SecondRing, Outer, FirstHole, SecondHole;
    TwoPending();
    SortsTwo(PendingHoles(Outer(), [FirstHole(), SecondHole()]), LeftOf());
  }

  lemma TwoBridged()
    ensures WholeChain(Outer(), [FirstHole(), SecondHole()]) == Bridged(SecondChain(), [0, 1])
  {
    hide Queue, Bridge, FirstRing, SecondRing, StartChain, FirstChain, SecondChain, HoleRing, RightmostIndex,
         OuterChain,
         Outer, FirstHole, SecondHole;
    TwoQueued();
    StartOfChain();
    FirstBridged();
    SecondBridged();
    var queue := Queue(Outer(), [FirstHole(), SecondHole()]);
    assert queue[..1] == [queue[0]] && [queue[0]][..0] == [];
    assert BridgeAll(StartChain(), []) == Bridged(StartChain(), []);
    assert BridgeAll(StartChain(), [queue[0]]) == Bridged(FirstChain(), [0]);
  }

  /**
   Three simple loops of which no two touch, two of them entered inside the third and outside each other, so that the
   region they bound winds zero times or once around every point; both holes are cut out, and nothing is tiled.
   */
  lemma FairRegionIsNotTiled()
    ensures IsAnnulus(Outer(), FirstHole()) && IsAnnulus(Outer(), SecondHole()) && KeepApart(FirstHole(), SecondHole())
    ensures EnteredInside(Outer(), [FirstHole(), SecondHole()], 0)
    ensures EnteredInside(Outer(), [FirstHole(), SecondHole()], 1)
    ensures |Outer()| >= 3 && SplicedHoles(Outer(), [FirstHole(), SecondHole()]) == [0, 1]
    ensures forall p: Point :: RegionWinding(Outer(), [FirstHole(), SecondHole()], p) in {0, 1}
    ensures Tiling(Outer(), [FirstHole(), SecondHole()]).None?
  {
    hide IsAnnulus, KeepApart, EnteredInside, WholeChain, ClipChain, SecondChain, RegionWinding, Outer, FirstHole,
         SecondHole;
    FirstIsInside();
    SecondIsInside();
    HolesKeepApart();
    HolesAreEnteredInside();
    LoopsAreThree();
    TwoBridged();
    SecondChainStalls();
    TwoAreCutOut();
    forall p: Point ensures RegionWinding(Outer(), [FirstHole(), SecondHole()], p) in {0, 1} {
      RegionIsFair(p);
    }
  }

  lemma TwoAreCutOut()
    requires |Outer()| >= 3 && WholeChain(Outer(), [FirstHole(), SecondHole()]).spliced == [0, 1]
    ensures CutOut(Outer(), [FirstHole(), SecondHole()]) == [FirstHole(), SecondHole()]
  {
    hide WholeChain, Outer, FirstHole, SecondHole;
  }

  /** The second bridge is the one that does not pass. */
  lemma SecondBridgeIsUntested(i: nat)
    ensures BridgeAll(OuterChain(Outer()), Queue(Outer(), [FirstHole(), SecondHole()])[..1]).chain == FirstChain()
    ensures !Passes(FirstChain(), SecondRing(), RightmostIndex(SecondRing()), i)
  {
    hide Queue, Bridge, FirstRing, SecondRing, StartChain, FirstChain, HoleRing, RightmostIndex, OuterChain, Outer,
         FirstHole,
         SecondHole, Reaches;
    TwoQueued();
    StartOfChain();
    FirstBridged();
    var queue := Queue(Outer(), [FirstHole(), SecondHole()]);
    assert queue[..1] == [queue[0]] && [queue[0]][..0] == [];
    assert BridgeAll(StartChain(), []) == Bridged(StartChain(), []);
    FirstChainLength();
    if i < 8 {
      NothingPasses(i);
    }
  }

  lemma FirstChainLength()
    ensures |FirstChain()| == 8 && |SecondRing()| == 3
  {
  }
}
