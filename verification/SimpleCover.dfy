/** Every loop that does not touch itself is tiled, and covered exactly. */
module SimpleCover {
  import opened Options
  import opened Sums
  import opened Geometry
  import opened EdgeSums
  import opened RingMeasures
  import opened Clipping
  import opened Triangulation
  import opened TilingLaws
  import opened SegmentCrossing
  import opened SimpleLoops
  import opened Nearby
  import opened EarWinding
  import opened LowestVertex
  import opened TwoEars
  import opened ChainStages
  import opened StageClips

  /** A loop that does not touch itself, on its way counter-clockwise. */
  ghost predicate IsSimpleLeft(ring: seq<Vertex>) {
    Simple(Places(ring)) && WindsLeft(Places(ring))
  }

  /** Wherever it starts, the clip of such a loop never stalls, and all n - 2 triangles turn left. */
  lemma SimpleClip(ring: seq<Vertex>, cursor: nat)
    requires IsSimpleLeft(ring) && cursor < |ring|
    ensures Clip(ring, cursor, 0).Some?
    ensures |Clip(ring, cursor, 0).value| == |ring| - 2
    ensures AllCounterClockwise(Clip(ring, cursor, 0).value)
  {
    hide Simple, WindsLeft, Clip, AllCounterClockwise;
    StageClip(ring, cursor);
  }

  // ----- the tiling -----

  lemma SimpleOrientation(outer: Loop)
    requires Simple(outer)
    ensures Simple(AlongOuter(outer)) && WindsLeft(AlongOuter(outer))
  {
    hide Simple, WindsLeft, SignedArea2;
    AreaTellsTheWay(outer);
    SimpleReversed(outer);
    LeftOrRight(outer);
  }

  /** A loop that does not touch itself, wound either way, is always tiled, into n - 2 left turns. */
  lemma SimpleIsTiled(outer: Loop)
    requires Simple(outer)
    ensures Tiling(outer, []).Some?
    ensures |Answer(outer, [])| == |outer| - 2 && AllTurnLeft(Answer(outer, []))
  {
    hide Clip, Simple, WindsLeft, IsCounterClockwise, Cross, SignedArea2, Corners;
    SimpleIsDistinct(outer);
    SimpleOrientation(outer);
    assert WholeChain(outer, []).chain == OuterChain(outer);
    PlacesOfRings(0, outer);
    SimpleClip(OuterChain(outer), 0);
    AnswerCorners(outer, []);
    forall loop | loop in Answer(outer, []) ensures IsCounterClockwise(loop) {
      var t := OfTriangles(Tiling(outer, []).value, loop);
      LeftCorner(t);
    }
  }

  lemma LeftCorner(t: Triangle)
    requires TwiceArea(t) > 0.0
    ensures IsCounterClockwise(Corners(t))
  {
    AreaOfCorners(t);
  }

  /**
   It is covered exactly as well: it winds zero times or once around every point, no point is in two of its
   triangles, and a point is in one exactly where the loop encloses it.
   */
  lemma SimpleIsCovered(outer: Loop, p: Point)
    requires Simple(outer)
    ensures Tiling(outer, []).Some? && AllTurnLeft(Answer(outer, []))
    ensures RegionWinding(outer, [], p) in {0, 1}
    ensures CountEnclosing(Answer(outer, []), p) == if Encloses(outer, p) then 1 else 0
  {
    hide Answer, Tiling, Simple, XorOf, CountEnclosing, RegionWinding, AllTurnLeft, Odd, IntSum, Encloses;
    SimpleIsTiled(outer);
    SimpleRegionWindsOnce(outer, p);
    CoverIsWinding(outer, [], p);
    CountIsSum(Answer(outer, []), p);
    NothingIsCutOut(outer);
    ParityConserved(outer, [], p);
    NoneXor(EnclosesPoint(p), []);
    OddOfFew(CountEnclosing(Answer(outer, []), p));
  }

  lemma OddOfFew(n: int)
    requires 0 <= n <= 1
    ensures Odd(n) <==> n == 1
  {
  }

  lemma SimpleRegionWindsOnce(outer: Loop, p: Point)
    requires Simple(outer)
    ensures 0 <= RegionWinding(outer, [], p) <= 1
  {
    hide AlongOuter, Winding, Simple, WindsLeft, CutOut;
    SimpleIsDistinct(outer);
    SimpleOrientation(outer);
    SimpleHasTwoEars(AlongOuter(outer));
    NothingIsCutOut(outer);
  }

  lemma CountIsSum(triangles: seq<Loop>, p: Point)
    ensures CountEnclosing(triangles, p) == IntSum(Indicator(EnclosesPoint(p)), triangles)
  {
  }

  lemma NothingIsCutOut(outer: Loop)
    requires |outer| >= 3
    ensures CutOut(outer, []) == []
  {
    assert Queue(outer, []) == [];
  }

  // ----- convex loops -----

  /** Strictly convex and counter-clockwise: any three vertices in order turn left. */
  ghost predicate Convex(loop: Loop) {
    forall i, j, k :: 0 <= i < j < k < |loop| ==> Cross(loop[i], loop[j], loop[k]) > 0.0
  }

  /** All vertices but its ends are to the left of an edge of a convex loop. */
  lemma LeftOfEdge(loop: Loop, i: nat, j: nat)
    requires Convex(loop) && i < |loop| && j < |loop| && j != i && j != After(i, |loop|)
    ensures Cross(loop[i], loop[After(i, |loop|)], loop[j]) > 0.0
  {
    var k := After(i, |loop|);
    CornerSides(loop[i], loop[k], loop[j]);
    CornerSides(loop[j], loop[i], loop[k]);
    CornerSides(loop[k], loop[j], loop[i]);
  }

  lemma ConvexIsDistinct(loop: Loop)
    requires Convex(loop) && |loop| >= 3
    ensures Distinct(loop)
  {
    hide Cross;
    forall i, j | 0 <= i < j < |loop| ensures loop[i] != loop[j] {
      var (k, l) := (After(i, |loop|), After(j, |loop|));
      CornerSides(loop[i], loop[k], loop[k]);
      CornerSides(loop[j], loop[l], loop[l]);
      if k != j {
        LeftOfEdge(loop, i, j);
      } else {
        LeftOfEdge(loop, j, i);
      }
    }
  }

  /** So an edge that has a point on the line of another one has it as an end of both. */
  lemma ConvexEdgesApart(loop: Loop, i: nat, j: nat)
    requires Convex(loop) && |loop| >= 3 && i < |loop| && j < |loop| && i != j
    ensures EdgesApart(loop[i], loop[After(i, |loop|)], loop[j], loop[After(j, |loop|)])
  {
    hide Cross, Along;
    var (a, b, c, d) := (loop[i], loop[After(i, |loop|)], loop[j], loop[After(j, |loop|)]);
    CornerSides(a, b, b);
    forall s: real, t: real | MeetAt(a, b, c, d, s, t)
      ensures IsEnd(Along(a, b, s), a, b) && IsEnd(Along(a, b, s), c, d)
    {
      OnItsOwnLine(a, b, s);
      CrossIsAffine(a, b, c, d, t);
      EndsAlong(c, d);
      ZeroMean(t, Cross(a, b, c), Cross(a, b, d));
      if j != After(i, |loop|) {
        LeftOfEdge(loop, i, j);
      }
      if After(j, |loop|) != i {
        LeftOfEdge(loop, i, After(j, |loop|));
      }
    }
  }

  lemma ConvexIsSimple(loop: Loop)
    requires Convex(loop) && |loop| >= 3
    ensures Simple(loop)
  {
    hide Cross, EdgesApart;
    ConvexIsDistinct(loop);
    forall a, b, c, d | IsEdge(loop, a, b) && IsEdge(loop, c, d) && (a, b) != (c, d) ensures EdgesApart(a, b, c, d) {
      var i: nat :| EdgeAt(loop, i, a, b);
      var j: nat :| EdgeAt(loop, j, c, d);
      ConvexEdgesApart(loop, i, j);
    }
  }

  lemma ConvexEitherWayIsSimple(outer: Loop)
    requires |outer| >= 3 && (Convex(outer) || Convex(Reversed(outer)))
    ensures Simple(outer)
  {
    hide Simple, Convex;
    if Convex(outer) {
      ConvexIsSimple(outer);
    } else {
      ConvexIsSimple(Reversed(outer));
      SimpleReversed(Reversed(outer));
      assert Reversed(Reversed(outer)) == outer;
    }
  }

  /** Strictly convex loops, wound either way, among them: nothing more is asked of the caller. */
  lemma ConvexIsCovered(outer: Loop, p: Point)
    requires |outer| >= 3 && (Convex(outer) || Convex(Reversed(outer)))
    ensures Tiling(outer, []).Some? && |Answer(outer, [])| == |outer| - 2 && AllTurnLeft(Answer(outer, []))
    ensures RegionWinding(outer, [], p) in {0, 1}
    ensures CountEnclosing(Answer(outer, []), p) == if Encloses(outer, p) then 1 else 0
  {
    hide Answer, Tiling, Simple, Convex, CountEnclosing, RegionWinding, AllTurnLeft, Encloses;
    ConvexEitherWayIsSimple(outer);
    SimpleIsTiled(outer);
    SimpleIsCovered(outer, p);
  }
}
