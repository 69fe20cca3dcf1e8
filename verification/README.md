# Groma, modelled and proved

Groma converts building models and serves them. This project models the parts of it that are
hardest to get right and proves what they promise. Every loop of the program that is modelled is a
method proved against a function, every mutable object a class, and every concurrent part a state
machine over its atomic steps; the laws are lemmas about those functions and machines.

- **Triangulating a polygon with holes** (Geometry, EdgeSums, RingMeasures, SegmentCrossing, Clipping,
  StableSort, Bridging, BridgeLaws, Triangulation, with the laws in TilingLaws, HoleLaws,
  DroppedHoles and TilingCases).
  Signed area and even-odd containment are sums over directed edges, so the doubled bridge and each
  clipped diagonal cancel. That gives laws of the whole algorithm for arbitrary loops.
- **Loops that do not touch themselves** (SimpleLoops, SegmentWinding, Nearby, EarWinding, EdgeJumps, LowestVertex,
  CornerCuts, Diagonals, TwoEars, SimpleCover). Every such loop is tiled, all its triangles turn left, and they
  cover exactly what it encloses. This rests on a polygonal Jordan theorem, a two-ears theorem and the fact that
  clipping an ear keeps a loop simple, all of them proved here from the sign of a cross product.
- **One hole** (CornerSectors, HungLoops, HungEars, HookEars, HoleStages, HoleClips, HookClips, ChainStages, StageClips,
  Sight, RaySight, FirstBridge, OneHole). Such a loop with one such hole inside is tiled and covered exactly as well:
  some bridge always passes, and the chain, which meets two vertices twice, goes through three stages as it is clipped.
- **Two holes** (Grid, TwoHoles, StalledRegion). A region with two holes that is not tiled.
- **The ray construction** (Fans, Views, FanSight, RayBridges, WalledRay). What the bridge's first guess is, said in
  points and segments, and exactly when nothing crosses the way to it.
- **The conversion service** (ConversionJob, ConversionService, ConversionOutcomes, ConversionProducts, JobHistory):
  queue workers, the converters they start, the threads that follow them and the requests that cancel.
- **Scene versions** (SafeNames, SceneVersions, SceneLives, SceneReads): numbering, deletion, resolution and range reads, as
  single operations and along every interleaving of them.
- **Loading a model once** (ModelLoading) and **request targets** (Targets).
- **Storeys and queries** (ModelStore, NameOrder, Doubles, Storeys, StoreyLaws).
- **Smaller algorithms**: the closed-form date (Calendar), rebuilding rings from edges (EdgeRings),
  document ids (DocumentIds, Numerals), JSON strings (JsonText), ordered fork and join (ForkJoin).

## Where the code and its comments differ

The model follows the code. These are the differences it shows, each with a lemma.

- crates/bim-mesh/src/triangulate.rs:61-67 says triangles come back counter-clockwise and a loop that
  crosses itself gives an empty result. The last triangle is kept with either sign (line 407), and
  `TilingCases.DartedTurnsBack` is a loop that crosses itself and is tiled with a clockwise triangle.
  `TilingLaws.OnlyTheLastMayTurnBack` is what holds always. `TilingLaws.TurnsLeftIffAreasAddUp` is an
  exact check on the answer. No condition on the winding number alone decides it before the call: a region
  that winds negatively somewhere has to have a triangle turned back (`TilingLaws.NegativeRegionTurnsBack`),
  but so can one that winds zero times or once everywhere (`TilingCases.KnottedTurnsBack`). For every loop that
  does not touch itself, without holes or with one that does not touch it, all holds as the comment says
  (`SimpleCover.SimpleIsTiled`, `SimpleCover.SimpleIsCovered`, `OneHole.OneHoleIsTiled`, `OneHole.OneHoleIsCovered`).
- The same file, lines 65-67, says an empty result means a degenerate loop or one that crosses itself. With two
  holes it does not: where no vertex passes the bridge test for the second one, the bridge is cut untested
  (line 148), at a corner that carries a bridge already and on the wrong side of it, and the clip stalls
  (`StalledRegion.FairRegionIsNotTiled`, `StalledRegion.SecondBridgeIsUntested`). With one hole that never
  happens (`FirstBridge.SomeBridgePasses`).
- The same file, lines 212-214, says the vertex chosen is one the bridge must not cut through. Where the ray comes
  to the candidate itself, the triangle it looks in is flat, and the first reflex vertex at that height is taken,
  behind the origin or beyond a wall (`RayBridges.LevelAnswer`, `WalledRay.RayAnswersBehindAWall`).
  `RayBridges.AnswerIsClearExactly` says exactly when nothing crosses the way. The test the bridge has to pass
  afterwards turns such an answer down.
- The same file, lines 283-285, says touching another vertex is no crossing. A vertex strictly inside
  the segment is one (`SegmentCrossing.ATouchedCornerCrosses`).
- A hole with nothing to bridge to is dropped without a sign (line 178). `DroppedHoles.HoleIsDroppedExactly`
  says exactly when, `DroppedHoles.AHoleIsDropped` is a case, and `HoleLaws.NoHoleLost` gives a condition on the
  input under which it cannot happen; the area and parity laws name the holes that were cut out.
- apps/groma-api/src/scenes.rs:90-93 says nobody resolves to a partial file. A failed conversion's file
  is not removed, and it is the newest version (`SceneReads.PartialFileIsResolved`); when it is what the name
  resolves to is `SceneReads.ConversionIsResolvedExactly`. Of a cancelled one that was cleaned up the comment
  holds (`SceneReads.CancelledFileStaysGone`).
- A range that ends before it starts, invalid by section 14.1.2 of RFC 9110, is resolved, and its length
  then underflows (`SceneVersions.BackwardRangeIsResolved`); the model reports an overflow there.
- apps/groma-api/src/scenes.rs:85 says a number is never reused. The call that takes one is not under a lock
  (apps/groma-api/src/main.rs:582-584): `SceneLives.NumbersAreDistinctExactlyInTurn` says exactly which
  interleavings hand a number out twice, and `SceneLives.NumbersAreNewExactly` does so whatever becomes of the
  marks. `SceneVersions.LostMarkReusesANumber` and `SceneLives.LateMarkReusesANumber` are cases.
- apps/groma-api/src/main.rs:354-355 says the order of job ids is chronological. In one millisecond the tenth
  comes before the ninth (`JobHistory.NinthAndTenthAreSwapped`).
- apps/groma-api/src/main.rs:230-231 says a malformed escape is left as written. `%+F` is decoded
  (`Targets.SignedEscapeDecodes`, and `Targets.MalformedEscapesExactly` for when).
- apps/groma-api/src/scenes.rs:316-318 says every version is forgotten, so that a deleted scene does not come back.
  Where a numbered first version hid a flat file, the flat file is left and the scene does come back
  (`SceneVersions.RemovingForgetsUnlessHidden`).
- Exports of one stem share one path, so a cancelled export can remove the file of an earlier one
  (`ConversionProducts.SharedPathLosesTheProduct`); `ConversionProducts.DoneIsMeasured`
  says exactly when a done job's report is still right.

## Model

| member | source | states |
|---|---|---|
| EdgeSums.CycleSumReversed | crates/bim-mesh/src/triangulate.rs:81-83 | Reversing a ring, as the triangulator does to orient a loop, negates every antisymmetric edge sum, so also its area and its winding number. |
| EdgeSums.CycleSumRotate | crates/bim-mesh/src/triangulate.rs:184-186 | Entering a hole at another of its vertices does not change any edge sum around it. |
| EdgeSums.CycleSumSpliced | crates/bim-mesh/src/triangulate.rs:182-190 | The doubled bridge cancels: a chain with a hole spliced in carries the chain's own edge sum plus the hole's, for arbitrary rings. |
| EdgeSums.CycleSumWithout | crates/bim-mesh/src/triangulate.rs:390-396 | A clipped diagonal cancels: an edge sum around a ring is that of the cut-off ear plus that of what remains. |
| RingMeasures.WindingExact | crates/bim-mesh/src/triangulate.rs:340-359 | The even-odd test is the parity of a half-open winding number, and that number is an edge sum. |
| RingMeasures.HitBySide | crates/bim-mesh/src/triangulate.rs:347-355 | The ray construction, with its division, answers exactly which side of a crossed edge the point is on. |
| RingMeasures.WindingOfTriangle | crates/bim-mesh/src/triangulate.rs:342-359 | A counter-clockwise triangle winds zero times or once around any point, a flat one never. |
| RingMeasures.EnclosesTriangle | crates/bim-mesh/src/triangulate.rs:342-359 | In a triangle the even-odd test is the winding number without its sign, and the sign is the way the triangle turns. |
| RingMeasures.AreaOfTriangle | crates/bim-mesh/src/triangulate.rs:19-38 | The signed area of a three-vertex loop is the cross product used on triangles. |
| Clipping.ComputeSignedArea2 | crates/bim-mesh/src/triangulate.rs:19-27 | The accumulating loop computes the edge sum that the area laws are about. |
| Clipping.ComputeEncloses | crates/bim-mesh/src/triangulate.rs:342-359 | The flag-flipping loop computes the even-odd containment that the parity laws are about. |
| SegmentCrossing.CrossesExactlyWhenTheyMeet | crates/bim-mesh/src/triangulate.rs:307-338 | Two segments cross exactly when they share a point and no end of one is an end of the other, although the test looks only at signs and bounding boxes. |
| SegmentCrossing.ATouchedCornerCrosses | crates/bim-mesh/src/triangulate.rs:277-285 | A corner of the chain that merely lies on a bridge does count as crossed, against what the comment on the test says. |
| SegmentCrossing.StraddlingMeets | crates/bim-mesh/src/triangulate.rs:328 | Ends weakly on either side of each other's line imply a common point, even where a product of signs is zero. |
| BridgeLaws.ReachesExactlyWhenClear | crates/bim-mesh/src/triangulate.rs:277-305 | A bridge passes the test exactly when its ends differ, it shares no point with an edge of either ring except at ends, and its middle is wound around an odd number of times by the chain and an even number by the hole. |
| Clipping.ClipEars | crates/bim-mesh/src/triangulate.rs:366-416 | The loop over remaining positions, cursor and failure count terminates, and returns what the recursive search returns, or nothing at all when the search stalls. |
| Clipping.ClipFollowsEars | crates/bim-mesh/src/triangulate.rs:366-416 | Whatever the cursor does, the triangles are ears clipped one at a time down to three vertices: left-turning corners with no other non-coincident remaining vertex in or on them. |
| Clipping.ClipsShape | crates/bim-mesh/src/triangulate.rs:374-415 | A finished clip of n vertices is n - 3 strictly counter-clockwise ears and at most one further triangle, which is not flat. |
| Clipping.StalledWithoutEars | crates/bim-mesh/src/triangulate.rs:374-382 | The search gives up only on a ring, reached by clipping ears, none of whose vertices is an ear: the guard never stops a search that could go on. |
| Clipping.ClipTakesEarsInTurn | crates/bim-mesh/src/triangulate.rs:370-399 | Which ears are clipped: always the first one in the order of the chain from where the last one was taken, round and round; the search answers with triangles exactly when they are those of that clip. |
| Clipping.ClipsCorners | crates/bim-mesh/src/triangulate.rs:383-414 | All corners of all triangles are vertices of the chain that was clipped. |
| Clipping.ClipsConserve | crates/bim-mesh/src/triangulate.rs:366-416 | A finished clip of any chain conserves every antisymmetric edge sum that ignores flat triangles. |
| StableSort.FirstOfSortedIsLeast | crates/bim-mesh/src/triangulate.rs:201-209 | Sorting positions by a key and taking the first that will do finds the least key, and the lowest position where several tie. |
| StableSort.SortOrdered | crates/bim-mesh/src/triangulate.rs:118-123 | The library sort is stable: equal keys keep the order they came in. |
| Bridging.ComputeVisibleFrom | crates/bim-mesh/src/triangulate.rs:215-275 | The two loops of the ray construction compute the answer that the rows of RayBridges describe. |
| Bridging.NearestHitIsNearest | crates/bim-mesh/src/triangulate.rs:216-239 | The first loop finds the nearest edge at or past the origin on the ray, the first of them where several tie. |
| Bridging.LeastAngleIsLeast | crates/bim-mesh/src/triangulate.rs:252-273 | The second loop finds, among the reflex vertices inside the triangle to the candidate, the one of least angle. |
| Bridging.VisibleFromInChain | crates/bim-mesh/src/triangulate.rs:215-275 | The construction answers with a vertex of the chain, and answers with none exactly when the ray hits no edge. |
| RayBridges.VisibleFromIs | crates/bim-mesh/src/triangulate.rs:212-275 | The answer outright, for every chain and origin: none exactly when the ray comes to no edge; otherwise the end further right of the edge it comes to first, unless a vertex that does not turn left lies in the triangle to it, and then the one of those at the least angle, first in the chain where several tie. |
| RayBridges.AnswerIsClearExactly | crates/bim-mesh/src/triangulate.rs:212-214 | From inside a loop that does not touch itself nothing crosses the way to the answer, except exactly where the ray comes to the further end itself, the answer is another vertex at that height, and an edge goes through that height in between. |
| RayBridges.LevelAnswer | crates/bim-mesh/src/triangulate.rs:255-266 | Why: where the ray comes to the further end itself the triangle is flat, every point at that height counts as in it, and the first vertex in the chain that does not turn left there is the answer, wherever it is. |
| RayBridges.AnswerIsSeenExactly | crates/bim-mesh/src/triangulate.rs:212-214 | Where no vertex is level with the origin nothing crosses the way, and the segment shares nothing with the loop but its end exactly when it passes no other vertex. |
| FanSight.ReflexBelow | crates/bim-mesh/src/triangulate.rs:252-266 | Looking at reflex vertices only is enough: where an edge goes through the way to a point of the triangle, some vertex that does not turn left is seen in it at a lesser angle. |
| Views.TurnsBackOnLeft | crates/bim-mesh/src/triangulate.rs:260-263 | A vertex that is seen from inside, with both its edges on the left of the line of sight, does not turn left. |
| WalledRay.RayAnswersBehindAWall | crates/bim-mesh/src/triangulate.rs:252-275 | A loop of six vertices that does not touch itself and a point inside it for which the construction answers with a vertex behind two edges. |
| Bridging.NearestReachableIsNearest | crates/bim-mesh/src/triangulate.rs:193-210 | The search finds a vertex exactly when one passes the bridge test, and then the nearest, lowest index first. |
| Bridging.BridgeTargetPassesIfAnyDoes | crates/bim-mesh/src/triangulate.rs:143-149 | The derived bridge is used if it passes the test; otherwise the nearest vertex that passes, lowest index first; an untested bridge is used only when none passes. |
| Bridging.FreeIsMetOnce | crates/bim-mesh/src/triangulate.rs:143-147 | A bridge may land on a corner exactly when the chain comes to the caller's vertex there only once, so that no bridge is cut at it yet. |
| Bridging.CountCorners | crates/bim-mesh/src/triangulate.rs:165-172 | The table counts how often each of the caller's corners is in the chain. |
| Bridging.BridgeHole | crates/bim-mesh/src/triangulate.rs:151-191 | The chain becomes the splice at the chosen target, or stays as it was where there is nothing to bridge to. |
| Bridging.SpliceAt | crates/bim-mesh/src/triangulate.rs:182-190 | The pushing loop builds the chain with the hole entered, walked once around and left along the same edge. |
| Bridging.BridgeAdds | crates/bim-mesh/src/triangulate.rs:151-191 | A bridged hole adds exactly its own edge sum to the chain's, wherever the bridge was cut. |
| Bridging.BridgeKeepsVertices | crates/bim-mesh/src/triangulate.rs:182-190 | Bridging brings in no vertex but the hole's, and lengthens the chain by the hole and two. |
| Bridging.EnclosedEntryIsBridged | crates/bim-mesh/src/triangulate.rs:173-180 | A hole whose entry vertex is even-odd inside the current chain is always spliced. |
| Triangulation.BridgeQueue | crates/bim-mesh/src/triangulate.rs:124-126 | The loop bridges every pending hole in turn, each into the chain left by those before it. |
| Triangulation.Triangulate | crates/bim-mesh/src/triangulate.rs:69-129 | The whole algorithm returns the indices of the tiling, or the empty list where there is none. |
| Triangulation.IndicesAddressTheInput | crates/bim-mesh/src/triangulate.rs:60-62 | Every returned index addresses the concatenation of the outer loop and all holes as given, and what stands there is the corner the clip meant, also when holes of fewer than three vertices are skipped. |
| Triangulation.IndexNamesTheVertex | crates/bim-mesh/src/triangulate.rs:60-62 | Index i is the outer loop's vertex i, and behind the outer loop come all vertices of each hole in the order given, those of holes of fewer than three included. |
| Triangulation.TilingConserves | crates/bim-mesh/src/triangulate.rs:69-129 | The triangles together carry the outer loop's edge sum plus those of the holes cut out, each oriented as the algorithm orients it. |
| TilingLaws.AreaConserved | crates/bim-mesh/src/triangulate.rs:69-129 | The signed areas of a tiling add up to the outer loop's absolute area less those of the holes cut out, whichever way any input loop winds. |
| TilingLaws.TurnsConserved | crates/bim-mesh/src/triangulate.rs:69-129 | Counted with the way they turn, the triangles cover every point exactly as often as the region winds around it. |
| TilingLaws.ParityConserved | crates/bim-mesh/src/triangulate.rs:69-129 | Every point is in an odd number of triangles exactly when it is inside the outer loop xor inside an odd number of the holes cut out, for arbitrary and self-crossing loops. |
| TilingLaws.CoverIsWinding | crates/bim-mesh/src/triangulate.rs:63-67 | Where all triangles turn left, the number of them that contain a point is the region's winding number there. |
| TilingLaws.ExactCover | crates/bim-mesh/src/triangulate.rs:4-6 | A left-turning tiling of a region that winds zero times or once everywhere is an exact cover: no point in two triangles, and in one exactly where the region is. |
| TilingLaws.OnlyTheLastMayTurnBack | crates/bim-mesh/src/triangulate.rs:61-63 | Every returned triangle but the last is counter-clockwise and none is flat; this is what holds of the claim that all come back counter-clockwise. |
| TilingLaws.TurnsLeftIffAreasAddUp | crates/bim-mesh/src/triangulate.rs:400-414 | All triangles turn left exactly when their absolute areas add up to the region's area, a check a caller can make on the answer. |
| TilingLaws.NegativeRegionTurnsBack | crates/bim-mesh/src/triangulate.rs:400-414 | Where the region winds negatively around any point, the last triangle has to turn back. |
| TilingCases.KnottedTurnsBack | crates/bim-mesh/src/triangulate.rs:61-67 | The converse fails: a loop of five vertices winds zero times or once around every point and is still tiled with a triangle turned back, so no condition on the winding alone decides it. |
| TilingCases.DartedTurnsBack | crates/bim-mesh/src/triangulate.rs:61-67 | A four-vertex loop that crosses itself is tiled, with a clockwise last triangle: the unconditional claims of the comment fail of it. |
| SimpleLoops.DiagonalIsApart | crates/bim-mesh/src/triangulate.rs:418-440 | The cut across a corner whose triangle no other vertex is in shares nothing but common ends with an edge that shared nothing but common ends with the corner's two. |
| SimpleLoops.EarKeepsSimple | crates/bim-mesh/src/triangulate.rs:390-396 | Clipping an ear of a loop whose vertices are distinct and whose edges meet at common ends only leaves another such loop. |
| SegmentWinding.WindingAlong | crates/bim-mesh/src/triangulate.rs:342-359 | Along a segment that meets no edge of a ring the winding number, and so the even-odd answer, does not change. |
| EarWinding.EarIsClear | crates/bim-mesh/src/triangulate.rs:418-440 | No edge of such a loop enters one of its ears: that the test looks at vertices only is enough. |
| EarWinding.WindsLikeTheRest | crates/bim-mesh/src/triangulate.rs:390-396 | Around every point such a loop winds as what the clip of an ear leaves winds around some point, so clipping never hides a point wound twice. |
| LowestVertex.NearLowest | crates/bim-mesh/src/triangulate.rs:342-359 | Close to the lowest vertex of a loop the half-open winding number is told by the two edges at that vertex. |
| TwoEars.EarLeavesLeft | crates/bim-mesh/src/triangulate.rs:390-396 | What the clip of an ear leaves goes round the same way as the loop, and winds zero times or once around every point. |
| TwoEars.SimpleHasTwoEars | crates/bim-mesh/src/triangulate.rs:363-364 | Every loop of more than three vertices whose edges meet at common ends only, and which turns left at its lowest vertex, has two ears that are not neighbours, and winds zero times or once around every point. |
| TwoEars.AreaTellsTheWay | crates/bim-mesh/src/triangulate.rs:19-38 | The sign of the area says which way such a loop goes round, and the area is never zero, so the triangulator's orientation is right. |
| EdgeJumps.JumpAcross | crates/bim-mesh/src/triangulate.rs:342-359 | On the left of an edge of such a loop the winding number is one more than on its right, as close to the edge as one likes. |
| CornerSectors.BesideEdge | crates/bim-mesh/src/triangulate.rs:342-359 | Setting out from a vertex of such a loop between two of its edges, one is on the side of the loop that those two edges tell. |
| HookEars.HungHasEar | crates/bim-mesh/src/triangulate.rs:363-364 | A loop into which something is hung at one vertex, so that the chain meets that vertex twice, has an ear in the sense of the search, which lets coincident vertices pass. |
| ChainStages.StageHasEar | crates/bim-mesh/src/triangulate.rs:433-440 | At every stage of clipping a chain with one hole - the hole on its bridge, the hole touching the outer loop at one vertex, one loop - there is an ear. |
| ChainStages.ClipKeepsStage | crates/bim-mesh/src/triangulate.rs:390-396 | Whatever ear is clipped, the chain that is left is at one of these stages again, so a corner met twice is never clipped across the bridge. |
| StageClips.EarOfPlaces | crates/bim-mesh/src/triangulate.rs:418-440 | The search's ear test is the geometric one, coincident vertices included. |
| StageClips.StageClip | crates/bim-mesh/src/triangulate.rs:366-416 | On a chain at any such stage the clip never stalls, from any cursor, and all n - 2 triangles turn left. |
| RaySight.VisibleVertex | crates/bim-mesh/src/triangulate.rs:193-210 | From a point inside such a loop some vertex to the right of it can be seen: the segment to it shares nothing with the loop but its end. |
| FirstBridge.SomeBridgePasses | crates/bim-mesh/src/triangulate.rs:134-149 | For one hole that is entered inside the loop and touches nothing, some vertex passes the bridge test, so the bridge taken is a tested one. |
| FirstBridge.BridgeMakesStage | crates/bim-mesh/src/triangulate.rs:173-190 | The chain with that hole bridged in is at the first of the stages. |
| OneHole.OneHoleIsTiled | crates/bim-mesh/src/triangulate.rs:61-67 | Every outer loop and hole that do not touch themselves or each other, the hole entered inside the loop, in any windings, are tiled, into as many triangles as they have vertices, all counter-clockwise: the hole is never dropped and the answer is never empty. |
| OneHole.OneHoleIsCovered | crates/bim-mesh/src/triangulate.rs:1-10 | And the tiling is an exact cover: every point is in one triangle where the loop encloses it and the hole does not, and in none elsewhere. |
| StalledRegion.FairRegionIsNotTiled | crates/bim-mesh/src/triangulate.rs:65-67 | The claim that an empty result means a degenerate or self-crossing loop fails with two holes: three simple loops of which no two touch, properly nested, winding zero times or once around every point, both holes cut out - and the answer is empty. |
| StalledRegion.SecondBridgeIsUntested | crates/bim-mesh/src/triangulate.rs:143-149 | What goes wrong there: no vertex of the chain passes the bridge test for the second hole, and the derived one is used untested. |
| StalledRegion.OneEarNoClip | crates/bim-mesh/src/triangulate.rs:374-382 | A search stalls when, whichever ear is clipped, no ear is left. |
| SimpleCover.SimpleClip | crates/bim-mesh/src/triangulate.rs:366-416 | On every such loop the clip never stalls, from any cursor, and all n - 2 triangles turn left. |
| SimpleCover.SimpleIsTiled | crates/bim-mesh/src/triangulate.rs:61-67 | Every outer loop whose vertices are distinct and whose edges meet at common ends only, wound either way, is tiled into n - 2 triangles that all come back counter-clockwise: the answer is never empty. |
| SimpleCover.SimpleIsCovered | crates/bim-mesh/src/triangulate.rs:4-6 | And its tiling is an exact cover: every point is in one triangle where the loop encloses it and in none elsewhere. |
| SimpleCover.ConvexIsCovered | crates/bim-mesh/src/triangulate.rs:4-6 | Strictly convex loops, wound either way, are such loops. |
| HoleLaws.ChainParity | crates/bim-mesh/src/triangulate.rs:85-126 | After any holes are bridged in any order, the chain encloses what the outer loop does less the holes spliced so far. |
| HoleLaws.NoHoleLostInAnyOrder | crates/bim-mesh/src/triangulate.rs:118-126 | Holes entered inside the outer loop and outside each other are all spliced, whatever order they are bridged in. |
| HoleLaws.NoHoleLost | crates/bim-mesh/src/triangulate.rs:85-126 | Then every hole of three or more vertices is cut out, exactly once. |
| DroppedHoles.BridgeFailsExactly | crates/bim-mesh/src/triangulate.rs:173-180 | A hole is not bridged exactly when the ray from its entry meets no edge of the chain and no vertex of the chain passes the bridge test. |
| DroppedHoles.HoleIsDroppedExactly | crates/bim-mesh/src/triangulate.rs:85-126 | Each hole of three or more vertices is cut out exactly when that is not so of the chain left by those before it in the queue. |
| DroppedHoles.HoleFarAboveIsDropped | crates/bim-mesh/src/triangulate.rs:178-180 | A hole entered far enough above the outer loop is dropped, and nothing is cut out. |
| DroppedHoles.AHoleIsDropped | crates/bim-mesh/src/triangulate.rs:178-180 | So is a triangle above a triangle. |
| HoleLaws.QueueGoesLeft | crates/bim-mesh/src/triangulate.rs:85-123 | Told by the caller's points: of two holes in the queue the first has a vertex as far right as every vertex of the second, and where both reach equally far they come in the caller's order. |
| HoleLaws.HolesAreCutGoingLeft | crates/bim-mesh/src/triangulate.rs:85-126 | The holes that are cut out are so in that order. |
| HoleLaws.QueueIsComplete | crates/bim-mesh/src/triangulate.rs:87-123 | The queue holds every hole of three or more vertices once. |
| ConversionJob.Job.constructor | apps/groma-api/src/upload.rs:401-426 | A new job is running, with nothing published, finished or produced. |
| ConversionJob.Job.Cancel | apps/groma-api/src/upload.rs:428-438 | A running job becomes cancelled and its process, if published, is handed over; any other job refuses and is unchanged. |
| ConversionJob.Job.Publish | apps/groma-api/src/upload.rs:617-626 | Publishing the child and reading the cancellation are one critical section, so a cancel is seen either by the canceller's process or by the follower's kill. |
| ConversionJob.Job.BeginStage | apps/groma-api/src/upload.rs:636-642 | A stage begins in a running job only. |
| ConversionJob.Job.EndStage | apps/groma-api/src/upload.rs:643-662 | A stage that ends is folded into its row, in a running job only. |
| ConversionJob.Job.Note | apps/groma-api/src/upload.rs:664-672 | A prose line is kept, in a running job only. |
| ConversionJob.Job.Settle | apps/groma-api/src/upload.rs:703-727 | The last critical section settles a reaped child: cancelled stays cancelled and asks for the product's removal, otherwise done is measured or failed has its reason. |
| ConversionJob.Job.CouldNotStart | apps/groma-api/src/main.rs:645-651 | A converter that could not be started fails the job, unless it was cancelled. |
| ConversionJob.FoldStageAt | apps/groma-api/src/upload.rs:648-658 | A report goes into the first row of its name, or a new row at the end. |
| ConversionJob.FoldConserves | apps/groma-api/src/upload.rs:648-658 | However often a federation reports its stages, there is one row a name, in order of first appearance, holding all the seconds reported for it. |
| ConversionOutcomes.JobTellsItsOutcome | apps/groma-api/src/upload.rs:703-727 | On every run a done job has the announced name in the field of the announced product and nothing in the two others, any other job names none, and a failed job, and no other, tells an error: the reason it was settled or could not be started for. |
| ConversionOutcomes.JobShowsWhatWasHeard | apps/groma-api/src/upload.rs:628-677 | On every run a job shows exactly the lines read while it ran: stages folded by name, prose in the order it came, the time of the last stage line, and a stage under way only while it still is. |
| ConversionService.MoveIsSound | apps/groma-api/src/upload.rs:608-728 | Every step of a conversion keeps the invariant tying its phase, child, published process, outcome and kill together. |
| ConversionService.StepKeepsInv | apps/groma-api/src/main.rs:618-658 | Every step of every conversion keeps the invariant of the whole service, with the one-at-a-time lock held by exactly the worker that is under way. |
| ConversionService.RunKeepsInv | apps/groma-api/src/main.rs:618-658 | Every state of every run of any number of interleaved conversions satisfies that invariant. |
| ConversionService.NoLostCancel | apps/groma-api/src/upload.rs:431-438 | If a job is cancelled and its child has been published, the child has been killed or a kill is pending with someone; cancelled before its start, no child ever exists. |
| ConversionService.TerminalIsAbsorbing | apps/groma-api/src/upload.rs:706-727 | No step changes a finished job's state, stages, notes, error or product, late reports and second cancels included. |
| ConversionService.TerminalForever | apps/groma-api/src/upload.rs:706-727 | The same along every run. |
| ConversionService.CancelledInTheQueueNeverStarts | apps/groma-api/src/main.rs:620-630 | A job cancelled before its turn never starts a converter, on any continuation of any run. |
| ConversionService.OneCancelIsAccepted | apps/groma-api/src/main.rs:889-912 | Of all cancel requests for a job exactly one is accepted if it ends up cancelled, and none otherwise. |
| ConversionService.OneChildAtATime | apps/groma-api/src/main.rs:620-624 | At most one converter is alive in any reachable state. |
| ConversionProducts.FilesFollowTouches | apps/groma-api/src/upload.rs:706-717 | Along every run the file at a path is the one last written there, unless a cancelled job's removal came later. |
| ConversionProducts.DoneIsMeasured | apps/groma-api/src/upload.rs:713-717 | On every run a done job's reported length is that of the file there exactly when, since it was settled, nothing touched its path, or the last write had that length, or a removal came last and it had found no file; and its child succeeded and was not killed. |
| ConversionProducts.CancelledProductIsRemoved | apps/groma-api/src/upload.rs:706-713 | On every run, where a cancelled job's removal did not fail, there is a file at its path exactly when a write came last there since, whoever's it was. |
| ConversionProducts.OnlyTheCancelledAreRemoved | apps/groma-api/src/upload.rs:707-721 | On every run, where no conversion that writes to a path was cancelled, what was there or was written there is there still: a failed conversion's file is kept. |
| ConversionProducts.AloneIsAccounted | apps/groma-api/src/main.rs:584-597 | Alone at its path, as a scene version's conversion is while numbers are new, a done job is always measured and a cancelled one's product gone unless its removal failed. |
| ConversionProducts.SharedPathLosesTheProduct | apps/groma-api/src/main.rs:735-742 | A run of twenty steps from an empty directory: two exports of one name, the first done, the second cancelled, and then the first still reports a length and its file is gone. |
| ConversionService.SomethingIsDue | apps/groma-api/src/main.rs:618-658 | While any conversion is unfinished some worker or converter can move, so the lock never blocks everyone. |
| ConversionService.OwnStepsApproachTheEnd | apps/groma-api/src/upload.rs:686-727 | Each step of a worker or its converter brings that conversion nearer its end and leaves the others as they are. |
| JobHistory.ConversionSlot.constructor | apps/groma-api/src/main.rs:343-347 | No job is remembered at first. |
| JobHistory.ConversionSlot.Remember | apps/groma-api/src/main.rs:374-386 | The loop evicts the oldest jobs until there is room, then remembers the new one. |
| JobHistory.ConversionSlot.Find | apps/groma-api/src/main.rs:350-352 | A request finds a job exactly when it is remembered. |
| JobHistory.TheNewestAreRemembered | apps/groma-api/src/main.rs:374-386 | For distinct ids, after every announcement exactly the newest 32 are remembered, each with its own job, if and only if at every eviction the job announced 32 before is first as text. |
| JobHistory.FoundUntilCrowdedOut | apps/groma-api/src/main.rs:889-896 | With ids in that order a job can be polled or cancelled exactly until 32 more have been announced, running or not: after that a cancel of it answers that it is unknown. |
| JobHistory.JobIdsLess | apps/groma-api/src/main.rs:870-880 | Two ids are ordered as text by the digits of the clock, and in one millisecond by those of the counter. |
| JobHistory.ServedIdsLess | apps/groma-api/src/main.rs:352-355 | A later id comes later as text exactly when the clock has moved on or the counter's text has, so always among counters of one length. |
| JobHistory.NinthAndTenthAreSwapped | apps/groma-api/src/main.rs:352-355 | The ninth and tenth job of one millisecond are the other way round as text, though the comment calls the order chronological. |
| Numerals.NumeralsAscend | apps/groma-api/src/main.rs:352-355 | Numerals of one length are ordered as text as they are as numbers. |
| ModelLoading.Store.constructor | apps/groma-api/src/main.rs:117-124 | A new store has no model loaded. |
| ModelLoading.Store.Get | apps/groma-api/src/main.rs:143-185 | One call answers from the map, or refuses the name, or finds the lock poisoned, or answers what arrived while it waited, or loads and remembers; nothing else of the map changes. |
| ModelLoading.StepKeepsSound | apps/groma-api/src/main.rs:143-185 | Every step of every call keeps the lock, the map, the loads and what each call knows consistent, a panic under the lock included. |
| ModelLoading.RunKeepsSound | apps/groma-api/src/main.rs:143-185 | So does every run of any number of interleaved calls. |
| ModelLoading.LoadedAtMostOnce | apps/groma-api/src/main.rs:161-183 | On every run each name is loaded successfully at most once, and no name that could leave the directory is loaded at all. |
| ModelLoading.AnswersShareOneModel | apps/groma-api/src/main.rs:143-185 | Successful calls for one name all return the same shared model, calls for different names different ones, and each was loaded from its name. |
| ModelLoading.NothingExactlyWhenTurnedAway | apps/groma-api/src/main.rs:143-175 | On every run a call goes away with nothing exactly when one of its own steps turned it away: an unsafe name, no file, a poisoned lock, or a file that cannot be read. |
| ModelLoading.PoisonedByACrash | apps/groma-api/src/main.rs:161 | The loading lock is poisoned exactly when some call has panicked under it. |
| ModelLoading.OneLoaderAtATime | apps/groma-api/src/main.rs:161-163 | At most one call is inside the loading lock. |
| ModelLoading.ModelsStay | apps/groma-api/src/main.rs:144-146 | A model once in the map stays there unchanged along every run. |
| ModelLoading.RunsEnd | apps/groma-api/src/main.rs:143-185 | A call takes at most seven steps, so without new calls every run ends. |
| ModelLoading.SomeCallCanStep | apps/groma-api/src/main.rs:143-185 | While any call is unanswered some call can step. |
| ModelLoading.QuietStoreHoldsEveryLoad | apps/groma-api/src/main.rs:178-183 | When every call is over the map holds exactly the models that were loaded. |
| SceneVersions.Scenes.constructor | apps/groma-api/src/scenes.rs:195-199 | No scene has any file at first. |
| SceneVersions.Scenes.NextVersionPath | apps/groma-api/src/scenes.rs:99-123 | A safe name with a directory gets one past the larger of the mark and the newest version, and the mark moves to it, stays or is emptied; otherwise nothing changes. |
| SceneVersions.Scenes.RemoveVersion | apps/groma-api/src/scenes.rs:373-393 | One version goes and its number stays spent; a version that is not there, is the only one, or will not go is refused and nothing changes. |
| SceneVersions.Scenes.Remove | apps/groma-api/src/scenes.rs:310-358 | Every version, the mark and the preview go and the number of versions removed is reported; a version that will not go ends it with those below it gone and all else as it was; an unknown name is refused. |
| SceneVersions.RemoveFiles | apps/groma-api/src/scenes.rs:319-324 | The loop removes exactly the versions below the one that is stuck, or all of them, and counts them. |
| SceneVersions.Scenes.WriteVersion | apps/groma-api/src/upload.rs:223-256 | A converter writes the file of the number it was pointed at and nothing else. |
| SafeNames.SafeNamesExactly | apps/groma-api/src/scenes.rs:538-543 | A name is taken exactly when it is one visible segment: not empty, no dot in front, no separator and no two dots anywhere in it. |
| SceneVersions.ReadServes | apps/groma-api/src/scenes.rs:144-172 | A number is the numbered file, or for the first version the flat one where no numbered file has it; without a number the newest is read. |
| SceneVersions.LostMarkReusesANumber | apps/groma-api/src/scenes.rs:118-121 | With a mark that would not write, deleting the newest version hands its number out again. |
| SceneVersions.CallsInTurnDiffer | apps/groma-api/src/scenes.rs:117-121 | Two calls in turn get different numbers exactly until the numbers run out, and a call changes no version. |
| SceneVersions.RemovingForgetsUnlessHidden | apps/groma-api/src/scenes.rs:316-330 | Removing a scene forgets every version, except a flat file that a numbered first version was hiding. |
| SceneVersions.RemovingStartsOver | apps/groma-api/src/scenes.rs:325-330 | Removing a scene starts its numbering over. |
| SceneLives.NumbersAreNewExactly | apps/groma-api/src/scenes.rs:81-89 | On every interleaving of any number of calls, conversions, deletions and removals, from any directory, with marks written, refused or emptied: all numbers are new exactly when each is taken while the mark or a version shows the number taken before it, and they do not run out. |
| SceneLives.NumbersAreDistinctExactlyInTurn | apps/groma-api/src/main.rs:582-584 | With every mark written, from any directory, whatever is written, cleaned up and deleted in between: the numbers are new exactly when no call takes one between another's taking and its mark, they do not run out, and a newest version that the mark did not cover is still there whenever one is taken; but for the last two, out of turn is exactly when two calls get one number. |
| SceneLives.NumbersAreNewExactlyInTurn | apps/groma-api/src/scenes.rs:325-329 | The last condition holds by itself where the mark covers the versions, and where there is one version only, as in a directory from before there were numbers. |
| SceneLives.NumbersAreNeverReused | apps/groma-api/src/scenes.rs:85-89 | The next number is past every number spent and every version there is exactly when the directory shows the last one and there is one left. |
| SceneLives.LateMarkReusesANumber | apps/groma-api/src/scenes.rs:113-121 | From every directory: a call that writes its mark after two others takes the mark back, so that a later call, itself in turn, gets a number another one has. |
| SceneVersions.DeletedNewestGoesBack | apps/groma-api/src/scenes.rs:360-366 | Deleting a version keeps all others as they were, brings back the newest of them, and never frees the number. |
| SceneVersions.DeletedExactly | apps/groma-api/src/scenes.rs:373-378 | A version is deleted exactly when it is there and another is; otherwise it is the only one, or not found. |
| SceneVersions.PreviewGoesWithTheNewest | apps/groma-api/src/scenes.rs:388-393 | The preview goes with the newest version and stays when any other is deleted. |
| SceneVersions.LeftWhenStuck | apps/groma-api/src/scenes.rs:319-324 | A removal that gets stuck leaves the version it is stuck at, those above it, the mark and the preview as they were, and of those below it none but a flat file that was hidden. |
| SceneVersions.ServesWhatWasAsked | apps/groma-api/src/scenes.rs:545-577 | What a range read serves, for every request: the whole file, the last n bytes, the bytes from a on, or those from a to b; refused exactly for an empty file, a start past the end, the last no bytes, or no position at all. |
| SceneVersions.ResolvedRangeIsOrdered | apps/groma-api/src/scenes.rs:545-577 | A resolved range lies in the file, first to last, exactly when the request was not one that ends before it starts. |
| SceneVersions.BackwardRangeIsResolved | apps/groma-api/src/scenes.rs:566-574 | The request bytes=5-3 of a ten-byte file is resolved to a range whose length underflows. |
| SceneReads.FilesFollowTouches | apps/groma-api/src/scenes.rs:144-172 | Along every life of a scene the file of a number is the one last written there, unless a deletion, a removal or a cancelled conversion's clean-up came later. |
| SceneReads.ResolvedExactly | apps/groma-api/src/scenes.rs:443-449 | Along every life a name resolves to a conversion's number exactly when its file stands and no larger number's does. |
| SceneReads.ConversionIsResolvedExactly | apps/groma-api/src/upload.rs:706-727 | Where numbers are new: done, failed or unfinished, a conversion's file is what the name resolves to exactly when it wrote one that was not removed since and no later number's conversion left one standing; and the bytes are its own. |
| SceneReads.PartialFileIsResolved | apps/groma-api/src/upload.rs:723-726 | From every directory with a number left, whatever becomes of the mark, the file of a failed conversion is what the name then resolves to, against the comment that nobody resolves to it. |
| SceneReads.CancelledFileStaysGone | apps/groma-api/src/upload.rs:709-712 | The file a cancelled conversion removed never comes back: of cancelled conversions the comment holds. |
| SceneReads.PinnedVersionNeverChanges | apps/groma-api/src/scenes.rs:85-87 | Where numbers are new, a version whose conversion has ended is later the same bytes or gone, through any conversions, clean-ups and deletions, unless it is a numbered first version that hides a flat file. |
| SceneReads.KeptVersionStays | apps/groma-api/src/scenes.rs:434-449 | Such a version that nobody deletes stays exactly as it is. |
| SceneReads.PreviewFollowsDrawing | apps/groma-api/src/scenes.rs:388-425 | Along every life of a scene there is a preview exactly when, of storing one for a scene that is there, a conversion being done, the newest of several versions being deleted and the scene being forgotten, storing one came last. |
| SceneReads.PinnedReadsAreOneFile | apps/groma-api/src/scenes.rs:434-481 | Ranges of one such version, read end to end at whatever moments, concatenate to that version's bytes. |
| Calendar.ClosedFormIsTheCalendar | apps/groma-cli/src/export.rs:591-605 | Day zero is 1970-01-01, and the date of each further day, before or after it, is the Gregorian successor of the date before. |
| Calendar.DaysInvertCivil | apps/groma-cli/src/export.rs:591-605 | For every integer day the month and day are valid and lead back to that day. |
| Calendar.CivilInvertsDays | apps/groma-cli/src/export.rs:591-605 | Every valid Gregorian date comes out for exactly its own day, so the map is a bijection. |
| Calendar.DatesAscend | apps/groma-cli/src/export.rs:591-605 | Later days have later dates. |
| Calendar.YearOfEraInverts | apps/groma-cli/src/export.rs:596-599 | The closed form finds the year of every day of a 400-year era. |
| Calendar.MonthsFromMarch | apps/groma-cli/src/export.rs:600-602 | The closed form finds the month of every day of a year counted from March. |
| Calendar.StampNamesTheInstant | apps/groma-cli/src/export.rs:577-588 | A timestamp's fields are a time of day of a valid date, and the instant can be read back from them. |
| EdgeRings.RebuildRings | apps/groma-cli/src/probe.rs:1846-1906 | The walk succeeds exactly when the face has an edge, none names it twice, no step goes onto another face's edge, and stepping is injective and acyclic; then the reported rings are separate paths that partition the face's edges, reported in the order in which their first edges are listed, their lengths adding up. A refusal tells what is wrong: no edge, no edge that begins a ring, an edge named or stepped onto twice, a step off the face, or edges in a circle. |
| EdgeRings.WalkRing | apps/groma-cli/src/probe.rs:1883-1901 | One walk yields, unless refused, a path over edges no earlier ring used; from a head of a face that forms rings it is never refused. |
| EdgeRings.PartitionFormsRings | apps/groma-cli/src/probe.rs:1836-1845 | A partition of the face's edges into paths is possible only where stepping stays on the face, is injective and has no cycle. |
| EdgeRings.PathsStartAtHeads | apps/groma-cli/src/probe.rs:1854-1857 | The rings are maximal at their start too: no edge of the face steps onto one. |
| EdgeRings.PathsFollowTheLinks | apps/groma-cli/src/probe.rs:1878-1900 | Each edge of a ring is continued by the next field of the side on which it first names the face, and the last one by something that is no edge. |
| EdgeRings.PredecessorsEverywhereMeanCycle | apps/groma-cli/src/probe.rs:1866-1873 | Edges that are all stepped onto from among themselves hold a cycle, so a face that forms rings always has a head. |
| EdgeRings.NothingIsLeft | apps/groma-cli/src/probe.rs:1902-1904 | In a face that forms rings, the rings from the heads use every edge. |
| EdgeRings.UsesCountEdges | apps/groma-cli/src/probe.rs:1902-1904 | Comparing visited edges with the uses handed over detects exactly an edge that names the face on both sides. |
| ModelStore.RunQuery | apps/groma-api/src/store.rs:350-377 | The counting loop returns the asked-for slice of the matching elements in order, how many matched, and how many the model-element flag alone removed. |
| ModelStore.PageHolds | apps/groma-api/src/store.rs:352-378 | Element i of a page is match offset + i, and the page is full unless the matches run out. |
| ModelStore.PagingIsLossless | apps/groma-api/src/store.rs:353-377 | Pages at offsets 0, limit, 2 limit and so on, end to end, are the filtered elements in order, each once, and every page reports the same total. |
| ModelStore.FlagAccountsForAll | apps/groma-api/src/store.rs:361-366 | A page's total and what the flag excluded are together what matches without the flag. |
| ModelStore.EachFilterAlone | apps/groma-api/src/store.rs:322-348 | Which elements a query with one filter returns, filter by filter: the same class, category or level name but for the case of ASCII letters, one of the level ids, text contained in the name or in the searched text, a geometry, or a building class outside views, phased and without a category. |
| ModelStore.FiltersCombine | apps/groma-api/src/store.rs:322-348 | A query with several filters returns exactly what each of them alone returns. |
| Storeys.FoldLevels | apps/groma-api/src/store.rs:398-413 | The table holds, for each name and elevation, its level records in order, and no empty row. |
| Storeys.TallyLevels | apps/groma-api/src/store.rs:415-425 | The two tables count the model elements and the rooms on every level id. |
| Storeys.ComputeStoreys | apps/groma-api/src/store.rs:397-462 | The storeys are one for each name and elevation something stands at, counted over all its records, from the lowest up and by name where elevations tie, flagged where a name is used at two elevations. |
| StoreyLaws.StoreysAreDetermined | apps/groma-api/src/store.rs:397-462 | Nothing of the list is left open: any two lists that are the storeys of a model in that sense are equal, order and flags included. |
| StoreyLaws.StoreysRiseByHeight | apps/groma-api/src/store.rs:460 | Of two storeys the first is lower by the number its elevation stands for; at one elevation the nameless come first and then the names in the order of their characters. |
| Doubles.OrderIsOfNumbers | apps/groma-api/src/store.rs:460 | The order of the bits is the order of the numbers that finite doubles stand for, but that the negative zero comes before the positive one. |
| StoreyLaws.StoreyShowsItsRecords | apps/groma-api/src/store.rs:399-448 | A storey's level ids are those of exactly the level records with its name and elevation, ascending, and its id is the least of them. |
| StoreyLaws.StoreyCountsWhatIsThere | apps/groma-api/src/store.rs:413-441 | With unique ids its two counts are the numbers of model elements and of rooms on any of its levels. |
| Storeys.SortedRises | apps/groma-api/src/store.rs:460 | The stable sort by elevation keeps the table's order of names among storeys at one elevation. |
| StoreyLaws.StoreyAgreesWithQuery | apps/groma-api/src/store.rs:384-395 | A storey's count is the total of the filtered query for its level records exactly when no record id repeats with elements on it. |
| StoreyLaws.StoreysAgreeWithQueries | apps/groma-api/src/store.rs:464-473 | With unique ids every storey agrees with its query. |
| StoreyLaws.LevelSetsAreDisjoint | apps/groma-api/src/store.rs:387-391 | With unique ids no level record is folded into two storeys. |
| StoreyLaws.EveryModelElementIsCounted | apps/groma-api/src/store.rs:393-395 | Summed over storeys, with those on no level and those on a level id that names no elevated record, the counts are all model elements. |
| StoreyLaws.SummaryCounts | apps/groma-api/src/store.rs:477-494 | The summary's loop counts the model elements and those without a level, and their difference is what the storeys hold plus what stands on no elevated record. |
| StoreyLaws.StoreyIsNamedByItsId | apps/groma-api/src/store.rs:464-473 | A storey's id names that storey and no other, and the filter it opens counts what the storey counts. |
| DocumentIds.DocumentId | apps/groma-cli/src/source.rs:647-670 | The loop ends within one try more than there are names taken, with the first candidate that was free, and takes it. |
| DocumentIds.BaseIsAName | apps/groma-cli/src/source.rs:648-663 | The base is a non-empty name of at most 48 letters, digits, hyphens and underscores with no underscore at either end. |
| DocumentIds.BaseIsTheStems | apps/groma-cli/src/source.rs:648-663 | A file lends its name: the base is the first 48 characters of the stem, with an underscore for each that is no letter, digit, hyphen or underscore, less the underscores at both ends; it is the fallback exactly when nothing else is in them. |
| DocumentIds.NamesAreTheirOwnBases | apps/groma-cli/src/source.rs:648-663 | A stem is its own base exactly when it has 1 to 48 name characters and no underscore at either end. |
| DocumentIds.BaseIsANormalForm | apps/groma-cli/src/source.rs:648-663 | Naming a base gives that base again. |
| DocumentIds.CandidatesDiffer | apps/groma-cli/src/source.rs:664-668 | No two candidates for one base are the same name. |
| DocumentIds.ReadSources | apps/groma-cli/src/source.rs:607-629 | The files of one call are named in order, each with the first name its predecessors left free. |
| DocumentIds.IdsAreDistinctNames | apps/groma-cli/src/source.rs:640-646 | All documents of one call have distinct ids of the allowed characters. |
| DocumentIds.NamesAreDetermined | apps/groma-cli/src/source.rs:607-629 | There is exactly one such naming of the files in their order. |
| DocumentIds.SharedBaseCountsUp | apps/groma-cli/src/source.rs:642-646 | Files that share a base are numbered without a gap. |
| DocumentIds.NumbersStartAtTwo | apps/groma-cli/src/source.rs:664-669 | The second file of one name is numbered two, and the tenth ten. |
| JsonText.JsonEscape | apps/groma-cli/src/json.rs:1194-1210 | The pushing loop writes the escapes of all characters in order. |
| JsonText.EscapeRoundTrips | apps/groma-cli/src/json.rs:1194-1210 | A reader by section 7 of RFC 8259, surrogate pairs included, gets back every value and exactly the text behind the closing mark. |
| JsonText.EscapeIsInjective | apps/groma-cli/src/json.rs:1194-1210 | Different values are written differently. |
| JsonText.ClosingQuoteIsTheWriters | apps/groma-cli/src/json.rs:1194-1210 | A scanner that only skips guarded characters stops at the quotation mark the writer put there. |
| JsonText.NoRawControl | apps/groma-cli/src/json.rs:1203-1205 | No control character, so no line break, is written raw. |
| JsonText.UnchangedExactlyWhenPlain | apps/groma-cli/src/json.rs:1197-1207 | The text is the value itself exactly when it holds no quote, backslash or control character, and is at most six times as long. |
| JsonText.EscapesAreShort | apps/groma-cli/src/json.rs:1197-1207 | The quotation mark, the backslash, the line feed, the carriage return and the tab take two characters, other controls six, and everything else stands for itself. |
| Targets.PercentDecode | apps/groma-api/src/main.rs:232-261 | The byte loop decodes plus signs and escapes from left to right. |
| Targets.ParseTarget | apps/groma-api/src/main.rs:215-228 | The target is split into its non-empty decoded segments and its decoded pairs, the later of two equal keys standing. |
| Targets.TargetRoundTrips | apps/groma-api/src/main.rs:214-228 | For every non-empty segments and every pairs of valid UTF-8, escaped in any permitted way and joined, parsing gives back those segments and those pairs. |
| Targets.DistinctKeysAreAMap | apps/groma-api/src/main.rs:223-227 | Pairs with distinct keys come back as exactly that map. |
| Targets.WrittenDecodes | apps/groma-api/src/main.rs:230-261 | Decoding undoes every permitted way of escaping a text. |
| Targets.EveryTextCanBeWritten | apps/groma-api/src/main.rs:230-261 | Every text has such an escaping. |
| Targets.UnchangedExactlyWhenNothingDecodes | apps/groma-api/src/main.rs:230-231 | A text is left as written exactly when no plus sign and no escape that decodes stands in it. |
| Targets.MalformedEscapesExactly | apps/groma-api/src/main.rs:243-249 | An escape that is not two hexadecimal digits is decoded exactly where it is a plus sign and a digit. |
| Targets.SignedEscapeDecodes | apps/groma-api/src/main.rs:243-249 | The malformed escape %+F is decoded rather than left as written, because the number parser takes a sign. |
| ForkJoin.ForkJoinIsSequential | crates/bim-core/src/work.rs:22-53 | For any number of cores and any interleaving at most that many threads are spawned, and the call ends as the plain loop does: all results in input order, or the panic of the earliest item that panics. |
| ForkJoin.SharesFitTheMachine | crates/bim-core/src/work.rs:20-37 | The chunks lose no item and are never empty; they are no more than the cores or the items, and none is longer than an even division over those asks for. |
| ForkJoin.ChunksArePieces | crates/bim-core/src/work.rs:39-42 | Chunks are non-empty, bounded and in order the items. |
| ForkJoin.RunKeepsSound | crates/bim-core/src/work.rs:38-52 | Along every interleaving each thread is somewhere in its own plain loop, and what is joined is the plain loop over the chunks joined. |
| ForkJoin.StepsGetThere | crates/bim-core/src/work.rs:38-52 | Every step leaves less to do. |
| ForkJoin.RunsEnd | crates/bim-core/src/work.rs:38-52 | No run is longer than what there was to do at its start. |
| ForkJoin.SomeStepIsPossible | crates/bim-core/src/work.rs:38-52 | Until the scope ends some thread or the joining caller can step. |

## Left out

- OneHole.OneHoleIsTiled: is about one hole; with two or more the law fails, and exactly which regions with two or more holes are tiled is out of reach here. The area, parity and cover laws hold of every tiling that is found, whatever the number of holes.
- RayBridges.AnswerIsClearExactly: is about loops that do not touch themselves; of a chain that carries a bridge RayBridges.VisibleFromIs states the answer, and nothing is said of the way to it.
- ConversionService.NoLostCancel: a kill is an act on the child; that the operating system delivers it is assumed.
- SceneVersions.Scenes.Remove: the upload beside a scene is left out, and of what was freed only the number of versions is reported.
- ModelLoading.Store.Get: what other calls do while it waits is a parameter here; their interleaving is the state machine's matter.
- ConversionProducts.DoneIsMeasured: requests that delete versions do not touch the service's files here; SceneReads has them.
- SceneVersions.Scenes.NextVersionPath: version files with a stem such as 007 or +7, which the source's number parser also accepts, are left out.
- DocumentIds.DocumentId: the counter is unbounded where the source's is 32 bits wide, the stem is the path's as the library splits it, and letters and digits outside ASCII are a parameter.
- ModelStore.RunQuery: full lower-casing is a parameter, and the text searched in an element is one field of it.
- Targets.ParseTarget: replacing malformed UTF-8 is a parameter.
- Rounding: coordinates are exact reals, a fused multiply-add is exact, points are coincident when equal, the smallest positive double is zero, infinity is an absent value, an angle is compared by its square, and the undefined angle of a vertex at the origin is never least.
- Real files, child processes, clocks and sockets are maps, phases and parameters; a wait that fails counts as a child that did not succeed; locks other than the loading lock do not poison.
- A job's description (its batch, its source, the scene name it is announced under) and the preview a finished conversion drops are left out of the service.
- HTTP handling, headers, command lines, banners and report printing hold no hard invariant.
- The surfaces and curves of bim-mesh need trigonometry; their files and the refinement are left out.
- The probe and inspect commands other than the ring walk, classification, formats and memory budgets would add only easy members.
- UUID and byte-size formatting, name sanitising and header parsing would add only easy members.
- The Revit and IFC readers and writers, the scene packer and federation are not part of this model.
