/**
 What a tiling promises about the region it was asked for. Nothing here asks the loops to be
 simple: they may cross themselves, touch each other, and wind either way.
 */
module TilingLaws {
  import opened Options
  import opened Sums
  import opened Geometry
  import opened EdgeSums
  import opened RingMeasures
  import opened Clipping
  import opened Triangulation

  /** The returned triangles, read through the caller's own list. */
  function ThroughList(all: seq<Point>, ts: seq<Indices>): (r: seq<Loop>)
    requires AllInRange(all, ts)
    ensures |r| == |ts|
    ensures forall i :: 0 <= i < |ts| ==> r[i] == CornerPlaces(all, ts[i])
  {
    seq(|ts|, i requires 0 <= i < |ts| => assert ts[i] in ts; CornerPlaces(all, ts[i]))
  }

  /** The answer to the caller, as triangles of points. */
  function Answer(outer: Loop, holes: seq<Loop>): seq<Loop>
    requires Tiling(outer, holes).Some?
  {
    IndicesAddressTheInput(outer, holes);
    ThroughList(AllPoints(outer, holes), AllIndices(Tiling(outer, holes).value))
  }

  function SumOfAreas(triangles: seq<Loop>): real {
    RealSum(SignedArea2, triangles)
  }

  function AbsoluteArea2(loop: Loop): real {
    Abs(SignedArea2(loop))
  }

  function SumOfAbsoluteAreas(triangles: seq<Loop>): real {
    RealSum(AbsoluteArea2, triangles)
  }

  function EnclosesPoint(p: Point): Loop -> bool {
    (loop: Loop) => Encloses(loop, p)
  }

  function WindingAround(p: Point): Loop -> int {
    (loop: Loop) => Winding(loop, p)
  }

  function Indicator(f: Loop -> bool): Loop -> int {
    (loop: Loop) => if f(loop) then 1 else 0
  }

  /** How many of the triangles contain p, by the source's own even-odd test. */
  function CountEnclosing(triangles: seq<Loop>, p: Point): int {
    IntSum(Indicator(EnclosesPoint(p)), triangles)
  }

  ghost predicate AllTurnLeft(triangles: seq<Loop>) {
    forall t :: t in triangles ==> IsCounterClockwise(t)
  }

  function Corners(t: Triangle): Loop {
    [t.a.at, t.b.at, t.c.at]
  }

  function CornersOf(ts: seq<Triangle>): (r: seq<Loop>)
    ensures |r| == |ts|
    ensures forall i :: 0 <= i < |ts| ==> r[i] == Corners(ts[i])
  {
    seq(|ts|, i requires 0 <= i < |ts| => Corners(ts[i]))
  }

  lemma AnswerCorners(outer: Loop, holes: seq<Loop>)
    requires Tiling(outer, holes).Some?
    ensures Answer(outer, holes) == CornersOf(Tiling(outer, holes).value)
  {
    TilingClips(outer, holes);
    var ts := Tiling(outer, holes).value;
    assert forall i :: 0 <= i < |ts| ==> ts[i] in ts;
  }

  lemma {:induction false} SumThroughCorners(f: Triangle -> real, g: Loop -> real, ts: seq<Triangle>)
    requires forall t: Triangle :: f(t) == g(Corners(t))
    ensures RealSum(f, ts) == RealSum(g, CornersOf(ts))
  {
    if ts != [] {
      assert CornersOf(ts)[1..] == CornersOf(ts[1..]);
      SumThroughCorners(f, g, ts[1..]);
    }
  }

  // ----- area -----

  lemma OrientedArea(loop: Loop)
    ensures SignedArea2(AlongOuter(loop)) == AbsoluteArea2(loop)
    ensures HoleWeight(AreaTerm)(loop) == -AbsoluteArea2(loop)
  {
    hide AreaTerm;
    AreaTermAntisymmetric();
    CycleSumReversed(AreaTerm, loop);
  }

  lemma SumOfAlong(loop: Loop)
    ensures CycleSum(AreaTerm, AlongOuter(loop)) == SignedArea2(AlongOuter(loop))
  {
  }

  lemma AreaOfCorners(t: Triangle)
    ensures SignedArea2(Corners(t)) == TriangleWeight(AreaTerm)(t) == TwiceArea(t)
  {
    AreaOfTriangle(t.a.at, t.b.at, t.c.at);
  }

  /** The area the caller asked for: the outer loop's, less that of every hole that was cut out. */
  function RegionArea2(outer: Loop, holes: seq<Loop>): real
    requires |outer| >= 3
  {
    AbsoluteArea2(outer) - RealSum(AbsoluteArea2, CutOut(outer, holes))
  }

  /** The triangles have the outer loop's area less the spliced holes', whichever way any loop was wound. */
  lemma AreaConserved(outer: Loop, holes: seq<Loop>)
    requires Tiling(outer, holes).Some?
    ensures SumOfAreas(Answer(outer, holes)) == RegionArea2(outer, holes)
  {
    hide Tiling, CutOut, AlongOuter, AgainstOuter, CycleSum, AreaTerm, RealSum, Answer, CornersOf, TriangleWeight,
         HoleWeight,
         AbsoluteArea2, Corners, TwiceArea;
    AreaTermAntisymmetric();
    AreaFlatVanishes();
    TilingConserves(AreaTerm, outer, holes);
    AnswerCorners(outer, holes);
    forall t: Triangle ensures TriangleWeight(AreaTerm)(t) == SignedArea2(Corners(t)) {
      AreaOfCorners(t);
    }
    SumThroughCorners(TriangleWeight(AreaTerm), SignedArea2, Tiling(outer, holes).value);
    OrientedArea(outer);
    SumOfAlong(outer);
    forall hole: Loop ensures HoleWeight(AreaTerm)(hole) == -AbsoluteArea2(hole) {
      OrientedArea(hole);
    }
    RealSumNegated(HoleWeight(AreaTerm), AbsoluteArea2, CutOut(outer, holes));
  }

  // ----- containment -----

  lemma WindingOfReversed(loop: Loop, p: Point)
    ensures Winding(Reversed(loop), p) == -Winding(loop, p)
  {
    WindingTermAntisymmetric(p);
    CycleSumReversed(WindingTerm(p), loop);
    WindingExact(loop, p);
    WindingExact(Reversed(loop), p);
  }

  function WindingAgainst(p: Point): Loop -> int {
    (hole: Loop) => Winding(AgainstOuter(hole), p)
  }

  lemma OrientedWinding(loop: Loop, p: Point)
    ensures Winding(AlongOuter(loop), p) as real == CycleSum(WindingTerm(p), AlongOuter(loop))
    ensures HoleWeight(WindingTerm(p))(loop) == WindingAgainst(p)(loop) as real
    ensures Odd(Winding(AlongOuter(loop), p)) <==> EnclosesPoint(p)(loop)
    ensures Odd(WindingAgainst(p)(loop)) <==> EnclosesPoint(p)(loop)
  {
    hide IsCounterClockwise, CycleSum, Winding, WindingTerm, Encloses;
    WindingExact(loop, p);
    WindingExact(Reversed(loop), p);
    WindingOfReversed(loop, p);
    OddSum(Winding(loop, p), 0);
  }

  lemma WindingOfCorners(t: Triangle, p: Point)
    ensures TriangleWeight(WindingTerm(p))(t) == WindingAround(p)(Corners(t)) as real
    ensures Odd(WindingAround(p)(Corners(t))) <==> EnclosesPoint(p)(Corners(t))
    ensures IsCounterClockwise(Corners(t)) ==> WindingAround(p)(Corners(t)) == Indicator(EnclosesPoint(p))(Corners(t))
  {
    AreaOfTriangle(t.a.at, t.b.at, t.c.at);
    EnclosesTriangle(p, t.a.at, t.b.at, t.c.at);
    WindingExact(Corners(t), p);
  }

  /** The winding number of the region: the outer loop counter-clockwise, the holes that were cut out clockwise. */
  function RegionWinding(outer: Loop, holes: seq<Loop>, p: Point): int
    requires |outer| >= 3
  {
    Winding(AlongOuter(outer), p) + IntSum(WindingAgainst(p), CutOut(outer, holes))
  }

  /** Signed by their own winding, the triangles cover every point exactly as often as the region winds around it. */
  lemma TurnsConserved(outer: Loop, holes: seq<Loop>, p: Point)
    requires Tiling(outer, holes).Some?
    ensures IntSum(WindingAround(p), Answer(outer, holes)) == RegionWinding(outer, holes, p)
  {
    hide Tiling, CutOut, AlongOuter, CycleSum, WindingTerm, RealSum, IntSum, Answer, CornersOf, TriangleWeight,
         HoleWeight,
         WindingAgainst, WindingAround, Winding, Corners;
    var (w, ts, cut) := (WindingTerm(p), Tiling(outer, holes).value, CutOut(outer, holes));
    WindingTermAntisymmetric(p);
    WindingFlatVanishes(p);
    TilingConserves(w, outer, holes);
    AnswerCorners(outer, holes);
    var asReal := (loop: Loop) => WindingAround(p)(loop) as real;
    forall t: Triangle ensures TriangleWeight(w)(t) == asReal(Corners(t)) {
      WindingOfCorners(t, p);
    }
    SumThroughCorners(TriangleWeight(w), asReal, ts);
    IntSumAsReal(WindingAround(p), asReal, CornersOf(ts));
    forall loop: Loop ensures HoleWeight(w)(loop) == WindingAgainst(p)(loop) as real {
      OrientedWinding(loop, p);
    }
    IntSumAsReal(WindingAgainst(p), HoleWeight(w), cut);
    OrientedWinding(outer, p);
  }

  lemma OfTriangles(ts: seq<Triangle>, loop: Loop) returns (t: Triangle)
    requires loop in CornersOf(ts)
    ensures t in ts && loop == Corners(t)
  {
    var i :| 0 <= i < |ts| && CornersOf(ts)[i] == loop;
    t := ts[i];
  }

  /** Even-odd, the triangles are the outer loop less the spliced holes, for arbitrary loops. */
  lemma ParityConserved(outer: Loop, holes: seq<Loop>, p: Point)
    requires Tiling(outer, holes).Some?
    ensures Odd(CountEnclosing(Answer(outer, holes), p))
       <==> (Encloses(outer, p) != XorOf(EnclosesPoint(p), CutOut(outer, holes)))
  {
    hide Tiling, CutOut, CycleSum, IntSum, XorOf, Answer, CornersOf, Corners, Encloses, EnclosesPoint,
         WindingAround, RegionWinding,
         Odd;
    var answer := Answer(outer, holes);
    TurnsConserved(outer, holes, p);
    AnswerCorners(outer, holes);
    forall loop | loop in answer
      ensures Odd(WindingAround(p)(loop)) <==> EnclosesPoint(p)(loop)
      ensures Odd(Indicator(EnclosesPoint(p))(loop)) <==> EnclosesPoint(p)(loop)
    {
      var t := OfTriangles(Tiling(outer, holes).value, loop);
      WindingOfCorners(t, p);
      IndicatorParity(EnclosesPoint(p), loop);
    }
    IntSumParity(WindingAround(p), EnclosesPoint(p), answer);
    IntSumParity(Indicator(EnclosesPoint(p)), EnclosesPoint(p), answer);
    RegionParity(outer, holes, p);
  }

  lemma IndicatorParity(f: Loop -> bool, loop: Loop)
    ensures Odd(Indicator(f)(loop)) <==> f(loop)
  {
  }

  lemma RegionParity(outer: Loop, holes: seq<Loop>, p: Point)
    requires |outer| >= 3
    ensures Odd(RegionWinding(outer, holes, p))
       <==> (Encloses(outer, p) != XorOf(EnclosesPoint(p), CutOut(outer, holes)))
  {
    hide CutOut, IntSum, XorOf, AlongOuter, WindingAgainst, Winding, Odd, Encloses;
    var cut := CutOut(outer, holes);
    forall loop: Loop ensures Odd(WindingAgainst(p)(loop)) <==> EnclosesPoint(p)(loop) {
      OrientedWinding(loop, p);
    }
    IntSumParity(WindingAgainst(p), EnclosesPoint(p), cut);
    OrientedWinding(outer, p);
    OddSum(Winding(AlongOuter(outer), p), IntSum(WindingAgainst(p), cut));
  }

  /** Where the triangles all turn left, the number of them containing a point is the region's winding number there. */
  lemma CoverIsWinding(outer: Loop, holes: seq<Loop>, p: Point)
    requires Tiling(outer, holes).Some? && AllTurnLeft(Answer(outer, holes))
    ensures CountEnclosing(Answer(outer, holes), p) == RegionWinding(outer, holes, p)
  {
    var answer := Answer(outer, holes);
    TurnsConserved(outer, holes, p);
    AnswerCorners(outer, holes);
    forall loop | loop in answer ensures WindingAround(p)(loop) == Indicator(EnclosesPoint(p))(loop) {
      var t := OfTriangles(Tiling(outer, holes).value, loop);
      WindingOfCorners(t, p);
    }
    IntSumEqual(WindingAround(p), Indicator(EnclosesPoint(p)), answer);
  }

  /** A tiling that turns left is an exact cover: a point is in one triangle where the region is, or in none. */
  lemma ExactCover(outer: Loop, holes: seq<Loop>)
    requires Tiling(outer, holes).Some? && AllTurnLeft(Answer(outer, holes))
    requires forall p: Point :: RegionWinding(outer, holes, p) in {0, 1}
    ensures forall p: Point :: CountEnclosing(Answer(outer, holes), p) in {0, 1}
    ensures forall p: Point :: CountEnclosing(Answer(outer, holes), p) == 1 <==> RegionWinding(outer, holes, p) == 1
  {
    forall p: Point ensures CountEnclosing(Answer(outer, holes), p) == RegionWinding(outer, holes, p) {
      CoverIsWinding(outer, holes, p);
    }
  }

  // ----- which way the triangles turn -----

  /** Every triangle but the last turns counter-clockwise, and none is flat. */
  lemma OnlyTheLastMayTurnBack(outer: Loop, holes: seq<Loop>)
    requires Tiling(outer, holes).Some?
    ensures var (n, answer) := (|WholeChain(outer, holes).chain|, Answer(outer, holes));
            && 3 <= n && n - 3 <= |answer| <= n - 2
            && AllTurnLeft(answer[..n - 3])
            && forall t :: t in answer ==> SignedArea2(t) != 0.0
  {
    hide Tiling, WholeChain, Clips, TwiceArea, Answer, Corners, SignedArea2;
    var (chain, ts) := (WholeChain(outer, holes).chain, Tiling(outer, holes).value);
    WholeChainAddressed(outer, holes);
    TilingClips(outer, holes);
    ClipsShape(chain, ts);
    AnswerCorners(outer, holes);
    forall i | 0 <= i < |ts|
      ensures SignedArea2(CornersOf(ts)[i]) != 0.0
      ensures i < |chain| - 3 ==> IsCounterClockwise(CornersOf(ts)[i])
    {
      AreaOfCorners(ts[i]);
      if i < |chain| - 3 {
        assert ts[i] == EarsOf(chain, ts)[i];
      }
    }
  }

  /**
   The triangles all turn counter-clockwise exactly when their absolute areas add up to the region's -
   which is the check the source's own tests make on a finished tiling.
   */
  lemma TurnsLeftIffAreasAddUp(outer: Loop, holes: seq<Loop>)
    requires Tiling(outer, holes).Some?
    ensures AllTurnLeft(Answer(outer, holes))
       <==> SumOfAbsoluteAreas(Answer(outer, holes)) == RegionArea2(outer, holes)
  {
    hide Tiling, Answer, RealSum, RegionArea2, SignedArea2;
    AreaConserved(outer, holes);
    OnlyTheLastMayTurnBack(outer, holes);
    SumOfSizes(SignedArea2, AbsoluteArea2, Answer(outer, holes));
  }

  lemma {:induction false} CountNotNegative(f: Loop -> bool, loops: seq<Loop>)
    ensures IntSum(Indicator(f), loops) >= 0
  {
    if loops != [] {
      CountNotNegative(f, loops[1..]);
    }
  }

  /** Where the region winds negatively around some point, the last triangle has to turn back. */
  lemma NegativeRegionTurnsBack(outer: Loop, holes: seq<Loop>, p: Point)
    requires Tiling(outer, holes).Some? && RegionWinding(outer, holes, p) < 0
    ensures !AllTurnLeft(Answer(outer, holes))
  {
    if AllTurnLeft(Answer(outer, holes)) {
      CoverIsWinding(outer, holes, p);
      CountNotNegative(EnclosesPoint(p), Answer(outer, holes));
    }
  }
}
