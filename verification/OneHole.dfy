/** A simple loop with one simple hole inside is always tiled, and covered exactly. */
module OneHole {
  import opened Options
  import opened Sums
  import opened Geometry
  import opened EdgeSums
  import opened RingMeasures
  import opened Clipping
  import opened Bridging
  import opened Triangulation
  import opened TilingLaws
  import opened HoleLaws
  import opened DroppedHoles
  import opened SegmentCrossing
  import opened SimpleLoops
  import opened SegmentWinding
  import opened Nearby
  import opened LowestVertex
  import opened CornerCuts
  import opened TwoEars
  import opened HoleStages
  import opened ChainStages
  import opened FirstBridge
  import opened StageClips
  import opened SimpleCover

  /** Two loops that do not touch themselves or each other, the second entered inside the first. */
  ghost predicate IsAnnulus(outer: Loop, hole: Loop) {
    Simple(outer) && Simple(hole) && KeepApart(outer, hole) && Encloses(outer, EntryOf(hole))
  }

  // ----- ready to bridge -----

  lemma AgainstIsRight(hole: Loop)
    requires Simple(hole)
    ensures Simple(AgainstOuter(hole)) && WindsLeft(Reversed(AgainstOuter(hole)))
  {
    hide Simple, WindsLeft, SignedArea2;
    AreaTellsTheWay(hole);
    SimpleReversed(hole);
    LeftOrRight(hole);
    assert Reversed(Reversed(hole)) == hole;
  }

  lemma EdgesOfAlong(loop: Loop, a: Point, b: Point)
    ensures IsEdge(AlongOuter(loop), a, b) ==> IsEdge(loop, a, b) || IsEdge(loop, b, a)
    ensures IsEdge(AgainstOuter(loop), a, b) ==> IsEdge(loop, a, b) || IsEdge(loop, b, a)
  {
    EdgesReversed(loop, a, b);
  }

  lemma OrientedKeepApart(outer: Loop, hole: Loop)
    requires KeepApart(outer, hole)
    ensures KeepApart(AlongOuter(outer), AgainstOuter(hole))
  {
    hide IsEdge, SegmentsMeet, AlongOuter, AgainstOuter;
    forall a, b, c, d | IsEdge(AlongOuter(outer), a, b) && IsEdge(AgainstOuter(hole), c, d)
      ensures !SegmentsMeet(a, b, c, d)
    {
      EdgesOfAlong(outer, a, b);
      EdgesOfAlong(hole, c, d);
      MeetingEitherWay(a, b, c, d);
    }
  }

  lemma MeetingEitherWay(a: Point, b: Point, c: Point, d: Point)
    ensures SegmentsMeet(a, b, c, d) <==> SegmentsMeet(a, b, d, c)
    ensures SegmentsMeet(a, b, c, d) <==> SegmentsMeet(b, a, c, d)
    ensures SegmentsMeet(a, b, c, d) <==> SegmentsMeet(b, a, d, c)
  {
    hide SegmentsMeet;
    MeetingIsMutual(a, b, c, d);
    MeetingIsMutual(c, d, a, b);
    MeetingIsMutual(b, a, c, d);
  }

  lemma FreeAtFirst(outer: Loop, i: nat)
    requires i < |outer|
    ensures Free(OuterChain(outer), i)
  {
    var chain := OuterChain(outer);
    forall j, k | 0 <= j < k < |chain| ensures chain[j].origin != chain[k].origin {
    }
    OccursOnce(chain, chain[i].origin);
  }

  lemma {:induction false} OccursOnce(chain: seq<Vertex>, o: nat)
    requires forall j, k :: 0 <= j < k < |chain| ==> chain[j].origin != chain[k].origin
    ensures Occurrences(chain, o) <= 1
    ensures Occurrences(chain, o) == 1 ==> exists j :: 0 <= j < |chain| && chain[j].origin == o
  {
    if chain != [] {
      var n := |chain| - 1;
      OccursOnce(chain[..n], o);
      if Occurrences(chain[..n], o) == 1 {
        var j :| 0 <= j < n && chain[..n][j].origin == o;
        assert chain[j].origin == o;
      } else if chain[n].origin == o {
        assert chain[n].origin == o;
      }
    }
  }

  lemma AnnulusIsRegion(outer: Loop, hole: Loop)
    requires hole != [] && IsAnnulus(outer, hole)
    ensures IsRegion(AlongOuter(outer), AgainstOuter(hole))
    ensures Winding(AlongOuter(outer), EntryOf(hole)) == 1
  {
    hide Simple, WindsLeft, KeepApart, Winding, Encloses, AlongOuter, AgainstOuter, EntryOf;
    SimpleOrientation(outer);
    AgainstIsRight(hole);
    OrientedKeepApart(outer, hole);
    WindingExact(outer, EntryOf(hole));
    AlongEncloses(outer, EntryOf(hole));
    SimpleHasTwoEars(AlongOuter(outer));
  }

  lemma AnnulusIsReady(outer: Loop, hole: Loop, ring: seq<Vertex>)
    requires IsAnnulus(outer, hole) && Places(ring) == AgainstOuter(hole) && ring != []
    requires EntryOfRing(ring) == EntryOf(hole)
    ensures ReadyToBridge(OuterChain(outer), ring)
  {
    hide IsAnnulus, IsRegion, Winding, RightmostIndex, AlongOuter, AgainstOuter, Free, OuterChain, Places, EntryOf;
    PlacesOfRings(0, outer);
    AnnulusIsLong(outer, hole);
    AnnulusIsRegion(outer, hole);
    OuterChainLength(outer);
    forall i: nat | i < |OuterChain(outer)| ensures Free(OuterChain(outer), i) {
      FreeAtFirst(outer, i);
    }
  }

  lemma OuterChainLength(outer: Loop)
    ensures |OuterChain(outer)| == |outer|
  {
  }

  lemma AlongEncloses(outer: Loop, p: Point)
    ensures Winding(AlongOuter(outer), p) % 2 == 1 <==> Winding(outer, p) % 2 == 1
  {
    hide Winding, IsCounterClockwise;
    WindingReversed(outer, p);
  }

  // ----- the tiling -----

  lemma OneIsBridged(outer: Loop, hole: Loop)
    requires |outer| >= 3 && IsAnnulus(outer, hole)
    ensures SplicedHoles(outer, [hole]) == [0]
    ensures IsStage(Places(WholeChain(outer, [hole]).chain))
    ensures |WholeChain(outer, [hole]).chain| == |outer| + |hole| + 2
  {
    hide Simple, KeepApart, Encloses, RightmostIndex, BridgeAll, Queue, Bridge, OuterChain, AlongOuter, HoleRing,
         AllPoints, IsStage, ReadyToBridge, EntryOfRing, EntryOf;
    var (queue, chain) := (Queue(outer, [hole]), OuterChain(outer));
    SimpleIsDistinct(hole);
    OneIsQueued(outer, hole);
    var ring := queue[0].ring;
    PlacesOfRings(|AllPoints(outer, [])|, hole);
    assert |ring| == |hole|;
    EntryOfNumbered(|AllPoints(outer, [])|, hole);
    AnnulusIsReady(outer, hole, ring);
    BridgeMakesStage(chain, ring);
    BridgeKeepsVertices(chain, ring);
    OneSucceeds(chain, queue);
    QueueIsOfHoles(outer, [hole]);
    assert queue[0] in queue;
    assert queue == [queue[0]];
  }

  lemma OneSucceeds(chain: seq<Vertex>, queue: seq<Pending>)
    requires |queue| == 1 && Bridge(chain, queue[0].ring).Some?
    ensures BridgeAll(chain, queue) == Bridged(Bridge(chain, queue[0].ring).value, [queue[0].number])
  {
    hide Bridge;
    assert queue[..0] == [];
    assert BridgeAll(chain, queue[..0]) == Bridged(chain, []);
  }

  /** The loop with its hole is always tiled, into as many triangles as there are vertices, and all turn left. */
  lemma OneHoleIsTiled(outer: Loop, hole: Loop)
    requires IsAnnulus(outer, hole)
    ensures |outer| >= 3 && SplicedHoles(outer, [hole]) == [0]
    ensures Tiling(outer, [hole]).Some?
    ensures |Answer(outer, [hole])| == |outer| + |hole| && AllTurnLeft(Answer(outer, [hole]))
  {
    hide Clip, IsAnnulus, IsCounterClockwise, Cross, SignedArea2, Corners, IsStage, BridgeAll, Queue, Bridge;
    AnnulusIsLong(outer, hole);
    OneIsBridged(outer, hole);
    var chain := WholeChain(outer, [hole]).chain;
    StageClip(chain, 0);
    AnswerCorners(outer, [hole]);
    forall loop | loop in Answer(outer, [hole]) ensures IsCounterClockwise(loop) {
      var t := OfTriangles(Tiling(outer, [hole]).value, loop);
      LeftCorner(t);
    }
  }

  lemma AnnulusIsLong(outer: Loop, hole: Loop)
    requires IsAnnulus(outer, hole)
    ensures |outer| >= 3 && |hole| >= 3
  {
  }

  /**
   And it is covered exactly: no point is in two triangles, and a point is in one exactly where the outer loop
   encloses it and the hole does not.
   */
  lemma OneHoleIsCovered(outer: Loop, hole: Loop, p: Point)
    requires IsAnnulus(outer, hole)
    ensures Tiling(outer, [hole]).Some? && AllTurnLeft(Answer(outer, [hole]))
    ensures RegionWinding(outer, [hole], p) in {0, 1}
    ensures CountEnclosing(Answer(outer, [hole]), p) == if Encloses(outer, p) && !Encloses(hole, p) then 1 else 0
    ensures Encloses(hole, p) ==> Encloses(outer, p)
  {
    hide Answer, Tiling, IsAnnulus, XorOf, CountEnclosing, RegionWinding, AllTurnLeft, Odd, IntSum, Encloses,
         SplicedHoles;
    OneHoleIsTiled(outer, hole);
    OneIsCutOut(outer, hole);
    CoverIsWinding(outer, [hole], p);
    CountIsSum(Answer(outer, [hole]), p);
    CountNotNegative(EnclosesPoint(p), Answer(outer, [hole]));
    AnnulusWindsOnce(outer, hole, p);
    ParityConserved(outer, [hole], p);
    XorOfOne(EnclosesPoint(p), hole);
    OddOfFew(CountEnclosing(Answer(outer, [hole]), p));
  }

  lemma OneIsCutOut(outer: Loop, hole: Loop)
    requires |outer| >= 3 && SplicedHoles(outer, [hole]) == [0]
    ensures CutOut(outer, [hole]) == [hole]
  {
    hide SplicedHoles;
  }

  lemma XorOfOne(f: Loop -> bool, loop: Loop)
    ensures XorOf(f, [loop]) <==> f(loop)
  {
    assert [loop][1..] == [];
  }

  /** The region winds once at most; and as the outer loop winds left and the hole right, where it winds at all. */
  lemma AnnulusWindsOnce(outer: Loop, hole: Loop, p: Point)
    requires IsAnnulus(outer, hole) && |outer| >= 3 && CutOut(outer, [hole]) == [hole]
    ensures RegionWinding(outer, [hole], p) <= 1
    ensures RegionWinding(outer, [hole], p) >= 0 ==> (Encloses(hole, p) ==> Encloses(outer, p))
  {
    hide IsAnnulus, Encloses, AlongOuter, AgainstOuter, CutOut, Winding, RegionWinding;
    AnnulusIsLong(outer, hole);
    LoopsWind(outer, hole, p);
    RegionOfOne(outer, hole, p);
    AlongEncloses(outer, p);
    AgainstEncloses(hole, p);
    WindingExact(outer, p);
    WindingExact(hole, p);
    OddWindings(Winding(AlongOuter(outer), p), Winding(AgainstOuter(hole), p));
  }

  lemma LoopsWind(outer: Loop, hole: Loop, p: Point)
    requires IsAnnulus(outer, hole) && hole != []
    ensures 0 <= Winding(AlongOuter(outer), p) <= 1 && -1 <= Winding(AgainstOuter(hole), p) <= 0
  {
    hide Simple, WindsLeft, KeepApart, Encloses, AlongOuter, AgainstOuter, Winding, EntryOf;
    SimpleOrientation(outer);
    AgainstIsRight(hole);
    WindsWithin(AlongOuter(outer), p);
    WindsWithin(AgainstOuter(hole), p);
  }

  lemma OddWindings(m: int, n: int)
    requires 0 <= m <= 1 && -1 <= n <= 0
    ensures m + n >= 0 && n % 2 == 1 ==> m % 2 == 1
  {
  }

  lemma AgainstEncloses(hole: Loop, p: Point)
    ensures Winding(AgainstOuter(hole), p) % 2 == 1 <==> Winding(hole, p) % 2 == 1
  {
    hide Winding, IsCounterClockwise;
    WindingReversed(hole, p);
  }

  lemma RegionOfOne(outer: Loop, hole: Loop, p: Point)
    requires |outer| >= 3 && CutOut(outer, [hole]) == [hole]
    ensures RegionWinding(outer, [hole], p) == Winding(AlongOuter(outer), p) + Winding(AgainstOuter(hole), p)
  {
    hide Winding, CutOut, AlongOuter, AgainstOuter;
    var f := WindingAgainst(p);
    assert IntSum(f, [hole]) == f(hole) + IntSum(f, [hole][1..]);
    assert f(hole) == Winding(AgainstOuter(hole), p);
  }
}
