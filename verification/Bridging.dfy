/** Splicing one hole into the chain along a bridge. */
module Bridging {
  import opened Options
  import opened Geometry
  import opened EdgeSums
  import opened RingMeasures
  import opened Clipping
  import opened StableSort

  /** The rightmost vertex, the last of them where several tie. */
  function RightmostIndex(ring: seq<Vertex>): (r: nat)
    requires ring != []
    ensures r < |ring|
    ensures forall j :: 0 <= j < |ring| ==> ring[j].at.x <= ring[r].at.x
    ensures forall j :: r < j < |ring| ==> ring[j].at.x < ring[r].at.x
  {
    var last := |ring| - 1;
    if last == 0 then 0
    else
      var best := RightmostIndex(ring[..last]);
      if ring[last].at.x >= ring[best].at.x then last else best
  }

  // ----- the vertex the ray construction derives -----

  /** Where the ray from `origin` in +x meets the edge starting at `index`, at or past `origin`. */
  function EdgeHit(chain: seq<Vertex>, origin: Point, index: nat): Option<real>
    requires index < |chain|
  {
    var (start, end) := (chain[index].at, chain[After(index, |chain|)].at);
    if !Straddles(start, end, origin.y) then None
    else
      var crossing := CrossingX(start, end, origin.y);
      if crossing < origin.x then None else Some(crossing)
  }

  datatype Found = Found(index: nat, value: real)

  /** The nearest hit among the first n edges, the first of them where several tie. */
  function NearestHit(chain: seq<Vertex>, origin: Point, n: nat): Option<Found>
    requires n <= |chain|
  {
    if n == 0 then None
    else
      var (best, hit) := (NearestHit(chain, origin, n - 1), EdgeHit(chain, origin, n - 1));
      if hit.Some? && (best.None? || hit.value - origin.x < best.value.value - origin.x)
      then Some(Found(n - 1, hit.value))
      else best
  }

  /** The endpoint of the hit edge further along x. */
  function Candidate(chain: seq<Vertex>, edge: nat): (r: nat)
    requires edge < |chain|
    ensures r < |chain|
  {
    var end := After(edge, |chain|);
    if chain[edge].at.x > chain[end].at.x then edge else end
  }

  /** A reflex vertex in the way of the bridge to the candidate; a vertex at `origin` itself has no angle. */
  predicate InTheWay(chain: seq<Vertex>, origin: Point, apex: Point, candidate: nat, index: nat)
    requires candidate < |chain| && index < |chain|
  {
    var (n, at) := (|chain|, chain[index].at);
    && index != candidate
    && InsideTriangle(origin, apex, chain[candidate].at, at)
    && Cross(chain[Before(index, n)].at, at, chain[After(index, n)].at) <= 0.0
    && at != origin
  }

  lemma SquaredSign(d: real)
    ensures d == 0.0 ==> Squared(d) == 0.0
    ensures d != 0.0 ==> Squared(d) > 0.0
  {
    assert Squared(d) >= 0.0;
    if d != 0.0 { assert Squared(d) / d == d; }
  }

  lemma DistanceZero(a: Point, b: Point)
    ensures a == b ==> Distance2(a, b) == 0.0
    ensures a != b ==> Distance2(a, b) > 0.0
  {
    SquaredSign(a.x - b.x);
    SquaredSign(a.y - b.y);
  }

  /** The square of the source's angle, |dy| over the distance; squaring keeps the order. */
  function SquaredAngle(origin: Point, at: Point): real
    requires at != origin
  {
    DistanceZero(at, origin);
    (at.y - origin.y) * (at.y - origin.y) / Distance2(at, origin)
  }

  /** The vertex in the way with the least angle among the first n, the first where several tie. */
  function LeastAngle(chain: seq<Vertex>, origin: Point, apex: Point, candidate: nat, n: nat): Option<Found>
    requires candidate < |chain| && n <= |chain|
  {
    if n == 0 then None
    else
      var best := LeastAngle(chain, origin, apex, candidate, n - 1);
      if !InTheWay(chain, origin, apex, candidate, n - 1) then best
      else
        var angle := SquaredAngle(origin, chain[n - 1].at);
        if best.None? || angle < best.value.value then Some(Found(n - 1, angle)) else best
  }

  function VisibleFrom(chain: seq<Vertex>, origin: Point): Option<nat> {
    var hit := NearestHit(chain, origin, |chain|);
    if hit.None? || hit.value.index >= |chain| then None
    else
      var candidate := Candidate(chain, hit.value.index);
      var blocker := LeastAngle(chain, origin, Point(hit.value.value, origin.y), candidate, |chain|);
      Some(if blocker.None? then candidate else blocker.value.index)
  }

  /** What the first loop finds, stated outright. */
  lemma {:induction false} NearestHitIsNearest(chain: seq<Vertex>, origin: Point, n: nat)
    requires n <= |chain|
    ensures var best := NearestHit(chain, origin, n);
            if best.None? then forall i :: 0 <= i < n ==> EdgeHit(chain, origin, i).None?
            else
              && best.value.index < n && EdgeHit(chain, origin, best.value.index) == Some(best.value.value)
              && (forall i :: 0 <= i < n && EdgeHit(chain, origin, i).Some? ==>
                    best.value.value <= EdgeHit(chain, origin, i).value)
              && (forall i :: 0 <= i < best.value.index && EdgeHit(chain, origin, i).Some? ==>
                    best.value.value < EdgeHit(chain, origin, i).value)
  {
    if n > 0 {
      NearestHitIsNearest(chain, origin, n - 1);
    }
  }

  /** What the second loop finds, stated outright. */
  lemma {:induction false} LeastAngleIsLeast(chain: seq<Vertex>, origin: Point, apex: Point, candidate: nat, n: nat)
    requires candidate < |chain| && n <= |chain|
    ensures var best := LeastAngle(chain, origin, apex, candidate, n);
            if best.None? then forall i :: 0 <= i < n ==> !InTheWay(chain, origin, apex, candidate, i)
            else
              && best.value.index < n && InTheWay(chain, origin, apex, candidate, best.value.index)
              && best.value.value == SquaredAngle(origin, chain[best.value.index].at)
              && (forall i :: 0 <= i < n && InTheWay(chain, origin, apex, candidate, i) ==>
                    best.value.value <= SquaredAngle(origin, chain[i].at))
              && (forall i :: 0 <= i < best.value.index && InTheWay(chain, origin, apex, candidate, i) ==>
                    best.value.value < SquaredAngle(origin, chain[i].at))
  {
    if n > 0 {
      LeastAngleIsLeast(chain, origin, apex, candidate, n - 1);
    }
  }

  lemma VisibleFromInChain(chain: seq<Vertex>, origin: Point)
    ensures VisibleFrom(chain, origin).Some? ==> VisibleFrom(chain, origin).value < |chain|
    ensures VisibleFrom(chain, origin).None? <==> forall i :: 0 <= i < |chain| ==> EdgeHit(chain, origin, i).None?
  {
    NearestHitIsNearest(chain, origin, |chain|);
    var hit := NearestHit(chain, origin, |chain|);
    if hit.Some? {
      LeastAngleIsLeast(chain, origin, Point(hit.value.value, origin.y), Candidate(chain, hit.value.index), |chain|);
    }
  }

  /** The chain vertex the ray construction bridges to. */
  method ComputeVisibleFrom(chain: seq<Vertex>, origin: Point) returns (chosen: Option<nat>)
    ensures chosen == VisibleFrom(chain, origin)
  {
    var bestEdge: Option<Found> := None;
    var index := 0;
    while index < |chain|
      invariant 0 <= index <= |chain|
      invariant bestEdge == NearestHit(chain, origin, index)
      invariant bestEdge.Some? ==> bestEdge.value.index < index
    {
      var (start, end) := (chain[index].at, chain[After(index, |chain|)].at);
      if (start.y > origin.y) != (end.y > origin.y) {
        var crossing := CrossingX(start, end, origin.y);
        if crossing >= origin.x {
          var distance := crossing - origin.x;
          if bestEdge.None? || distance < bestEdge.value.value - origin.x {
            bestEdge := Some(Found(index, crossing));
          }
        }
      }
      index := index + 1;
    }
    if bestEdge.None? {
      return None;
    }
    var candidate := Candidate(chain, bestEdge.value.index);
    var apex := Point(bestEdge.value.value, origin.y);
    var best: Option<Found> := None;
    index := 0;
    while index < |chain|
      invariant 0 <= index <= |chain|
      invariant best == LeastAngle(chain, origin, apex, candidate, index)
    {
      if InTheWay(chain, origin, apex, candidate, index) {
        var angle := SquaredAngle(origin, chain[index].at);
        if best.None? || angle < best.value.value {
          best := Some(Found(index, angle));
        }
      }
      index := index + 1;
    }
    return Some(if best.None? then candidate else best.value.index);
  }

  // ----- the test a bridge must pass -----

  function Occurrences(chain: seq<Vertex>, origin: nat): nat {
    if chain == [] then 0
    else (if chain[|chain| - 1].origin == origin then 1 else 0) + Occurrences(chain[..|chain| - 1], origin)
  }

  /** No bridge lands on this corner yet: the caller's vertex is in the chain once. */
  predicate Free(chain: seq<Vertex>, index: nat)
    requires index < |chain|
  {
    Occurrences(chain, chain[index].origin) <= 1
  }

  predicate CrossesNothing(from: Point, to: Point, ring: seq<Vertex>, skip: nat) {
    forall i :: 0 <= i < |ring| && i != skip && After(i, |ring|) != skip ==>
      !Crosses(from, to, ring[i].at, ring[After(i, |ring|)].at)
  }

  /** The bridge crosses no edge, runs inside the chain, and runs outside the hole. */
  predicate Reaches(chain: seq<Vertex>, hole: seq<Vertex>, entry: nat, target: nat)
    requires entry < |hole| && target < |chain|
  {
    var (from, to) := (hole[entry].at, chain[target].at);
    && Distance2(from, to) > 0.0
    && CrossesNothing(from, to, chain, target)
    && CrossesNothing(from, to, hole, entry)
    && Encloses(Places(chain), Midpoint(from, to))
    && !Encloses(Places(hole), Midpoint(from, to))
  }

  predicate Passes(chain: seq<Vertex>, hole: seq<Vertex>, entry: nat, target: nat)
    requires entry < |hole|
  {
    target < |chain| && Free(chain, target) && Reaches(chain, hole, entry, target)
  }

  /** The squared distance of a chain vertex from the entry; nothing is off the chain. */
  function DistanceFrom(chain: seq<Vertex>, origin: Point): nat -> real {
    (index: nat) => if index < |chain| then Distance2(chain[index].at, origin) else 0.0
  }

  function NearestReachable(chain: seq<Vertex>, hole: seq<Vertex>, entry: nat): Option<nat>
    requires entry < |hole|
  {
    FirstIn(SortedPositions(|chain|, DistanceFrom(chain, hole[entry].at)), (i: nat) => Passes(chain, hole, entry, i))
  }

  /** The search finds a passing vertex if there is one, and then the nearest, the lowest index where several tie. */
  lemma NearestReachableIsNearest(chain: seq<Vertex>, hole: seq<Vertex>, entry: nat)
    requires entry < |hole|
    ensures var found := NearestReachable(chain, hole, entry);
            var key := DistanceFrom(chain, hole[entry].at);
            && (found.None? <==> forall i: nat :: i < |chain| ==> !Passes(chain, hole, entry, i))
            && (found.Some? ==>
                  && Passes(chain, hole, entry, found.value)
                  && forall i: nat :: i < |chain| && Passes(chain, hole, entry, i) ==>
                       key(found.value) < key(i) || (key(found.value) == key(i) && found.value <= i))
  {
    var key := DistanceFrom(chain, hole[entry].at);
    var ok := (i: nat) => Passes(chain, hole, entry, i);
    var found := FirstIn(SortedPositions(|chain|, key), ok);
    FirstOfSortedIsLeast(|chain|, key, ok);
    assert found == NearestReachable(chain, hole, entry);
    assert forall i: nat :: ok(i) <==> Passes(chain, hole, entry, i);
  }

  // ----- the splice -----

  function BridgeTarget(chain: seq<Vertex>, hole: seq<Vertex>): Option<nat>
    requires hole != []
  {
    var entry := RightmostIndex(hole);
    var derived := VisibleFrom(chain, hole[entry].at);
    if derived.Some? && Passes(chain, hole, entry, derived.value) then derived
    else
      var nearest := NearestReachable(chain, hole, entry);
      if nearest.Some? then nearest else derived
  }

  /** The chain with the hole spliced in, or None when the hole has nothing to bridge to and is dropped. */
  function Bridge(chain: seq<Vertex>, hole: seq<Vertex>): Option<seq<Vertex>> {
    if hole == [] then None
    else
      var target := BridgeTarget(chain, hole);
      if target.None? || target.value >= |chain| then None
      else Some(Spliced(chain, target.value, hole, RightmostIndex(hole)))
  }

  /**
   A bridge that passes the test is used whenever the chain has one: the derived one if it passes, and otherwise the
   nearest that does, the lowest index where several tie. Only where none passes is the derived one used untested.
   */
  lemma BridgeTargetPassesIfAnyDoes(chain: seq<Vertex>, hole: seq<Vertex>)
    requires hole != []
    ensures var (entry, target) := (RightmostIndex(hole), BridgeTarget(chain, hole));
            var derived := VisibleFrom(chain, hole[entry].at);
            && (target.Some? ==> target.value < |chain|)
            && ((target.Some? && Passes(chain, hole, entry, target.value))
                <==> exists i: nat :: i < |chain| && Passes(chain, hole, entry, i))
            && (target.None? ==> derived.None?)
            && (derived.Some? && Passes(chain, hole, entry, derived.value) ==> target == derived)
            && (target != derived ==> IsNearestPassing(chain, hole, entry, target))
  {
    var entry := RightmostIndex(hole);
    VisibleFromInChain(chain, hole[entry].at);
    NearestReachableIsNearest(chain, hole, entry);
  }

  /** A vertex that passes, and none that does is nearer, or as near and earlier in the chain. */
  ghost predicate IsNearestPassing(chain: seq<Vertex>, hole: seq<Vertex>, entry: nat, target: Option<nat>)
    requires entry < |hole|
  {
    && target.Some? && Passes(chain, hole, entry, target.value)
    && forall i: nat :: Passes(chain, hole, entry, i) ==>
         var (near, other) := (Distance2(chain[target.value].at, hole[entry].at),
                               Distance2(chain[i].at, hole[entry].at));
         near < other || (near == other && target.value <= i)
  }

  lemma {:induction false} OccursOnce(chain: seq<Vertex>, origin: nat)
    ensures Occurrences(chain, origin) == 0 <==> forall i :: 0 <= i < |chain| ==> chain[i].origin != origin
    ensures Occurrences(chain, origin) <= 1
       <==> forall i, j :: 0 <= i < j < |chain| ==> !(chain[i].origin == chain[j].origin == origin)
  {
    if chain != [] {
      var (front, last) := (chain[..|chain| - 1], chain[|chain| - 1]);
      OccursOnce(front, origin);
      assert chain == front + [last];
      assert forall i :: 0 <= i < |front| ==> chain[i] == front[i];
      if Occurrences(front, origin) > 0 && last.origin == origin {
        var i :| 0 <= i < |front| && front[i].origin == origin;
        assert chain[i].origin == chain[|front|].origin == origin;
      }
      if Occurrences(front, origin) > 1 {
        var i, j :| 0 <= i < j < |front| && front[i].origin == front[j].origin == origin;
        assert chain[i].origin == chain[j].origin == origin;
      }
    }
  }

  /** A corner is free exactly when the chain comes to the caller's vertex there only once. */
  lemma FreeIsMetOnce(chain: seq<Vertex>, index: nat)
    requires index < |chain|
    ensures Free(chain, index)
       <==> forall j :: 0 <= j < |chain| && j != index ==> chain[j].origin != chain[index].origin
  {
    OccursOnce(chain, chain[index].origin);
    if !Free(chain, index) {
      var o := chain[index].origin;
      var i, j :| 0 <= i < j < |chain| && chain[i].origin == chain[j].origin == o;
    }
  }

  /** The counts the loop collects. */
  ghost predicate Counts(cut: map<nat, nat>, chain: seq<Vertex>) {
    forall o: nat :: CountOf(cut, o) == Occurrences(chain, o)
  }

  function CountOf(cut: map<nat, nat>, o: nat): nat {
    if o in cut then cut[o] else 0
  }

  method CountCorners(chain: seq<Vertex>) returns (cut: map<nat, nat>)
    ensures Counts(cut, chain)
  {
    cut := map[];
    var i := 0;
    while i < |chain|
      invariant 0 <= i <= |chain|
      invariant Counts(cut, chain[..i])
    {
      assert chain[..i + 1][..i] == chain[..i];
      var o := chain[i].origin;
      cut := cut[o := CountOf(cut, o) + 1];
      i := i + 1;
    }
    assert chain[..i] == chain;
  }

  method SpliceAt(chain: seq<Vertex>, at: nat, hole: seq<Vertex>, entry: nat) returns (spliced: seq<Vertex>)
    requires at < |chain| && entry < |hole|
    ensures spliced == Spliced(chain, at, hole, entry)
  {
    spliced := chain[..at + 1];
    var step := 0;
    while step < |hole|
      invariant 0 <= step <= |hole|
      invariant spliced == chain[..at + 1] + Rotated(hole, entry)[..step]
    {
      Wraps(entry + step, |hole|);
      assert hole[(entry + step) % |hole|] == Rotated(hole, entry)[step];
      spliced := spliced + [hole[(entry + step) % |hole|]];
      step := step + 1;
    }
    assert Rotated(hole, entry)[..step] == Rotated(hole, entry);
    spliced := spliced + [hole[entry]];
    spliced := spliced + [chain[at]];
    spliced := spliced + chain[at + 1..];
  }

  /** Splice `hole` into `chain`; the chain comes back as it was when there is nothing to bridge to. */
  method BridgeHole(chain: seq<Vertex>, hole: seq<Vertex>) returns (result: seq<Vertex>)
    ensures result == if Bridge(chain, hole).Some? then Bridge(chain, hole).value else chain
  {
    if hole == [] {
      return chain;
    }
    var entry := RightmostIndex(hole);
    var cut := CountCorners(chain);
    var derived := ComputeVisibleFrom(chain, hole[entry].at);
    VisibleFromInChain(chain, hole[entry].at);
    BridgeTargetPassesIfAnyDoes(chain, hole);
    var outerIndex: Option<nat>;
    if derived.Some? && CountOf(cut, chain[derived.value].origin) <= 1 && Reaches(chain, hole, entry, derived.value) {
      assert Passes(chain, hole, entry, derived.value);
      outerIndex := derived;
    } else {
      assert derived.Some? ==> !Passes(chain, hole, entry, derived.value);
      outerIndex := NearestReachable(chain, hole, entry);
      if outerIndex.None? {
        outerIndex := derived;
      }
    }
    if outerIndex.None? {
      return chain;
    }
    result := SpliceAt(chain, outerIndex.value, hole, entry);
  }

  lemma Wraps(k: nat, n: nat)
    requires n > 0 && k < 2 * n
    ensures k % n == if k < n then k else k - n
  {
    if k >= n {
      assert k == 1 * n + (k - n);
    }
  }

  // ----- what a splice keeps -----

  lemma PlacesOfSpliced(chain: seq<Vertex>, at: nat, hole: seq<Vertex>, entry: nat)
    requires at < |chain| && entry < |hole|
    ensures Places(Spliced(chain, at, hole, entry)) == Spliced(Places(chain), at, Places(hole), entry)
  {
  }

  lemma SplicedAdds(w: Weight, chain: seq<Vertex>, at: nat, hole: seq<Vertex>, entry: nat)
    requires Antisymmetric(w) && at < |chain| && entry < |hole|
    ensures CycleSum(w, Places(Spliced(chain, at, hole, entry)))
         == CycleSum(w, Places(chain)) + CycleSum(w, Places(hole))
  {
    PlacesOfSpliced(chain, at, hole, entry);
    CycleSumSpliced(w, Places(chain), at, Places(hole), entry);
  }

  /** A bridged hole adds exactly its own edge sum to the chain's. */
  lemma BridgeAdds(w: Weight, chain: seq<Vertex>, hole: seq<Vertex>)
    requires Antisymmetric(w) && Bridge(chain, hole).Some?
    ensures CycleSum(w, Places(Bridge(chain, hole).value)) == CycleSum(w, Places(chain)) + CycleSum(w, Places(hole))
  {
    SplicedAdds(w, chain, BridgeTarget(chain, hole).value, hole, RightmostIndex(hole));
  }

  lemma BridgeKeepsVertices(chain: seq<Vertex>, hole: seq<Vertex>)
    requires Bridge(chain, hole).Some?
    ensures forall v :: v in Bridge(chain, hole).value ==> v in chain || v in hole
    ensures |Bridge(chain, hole).value| == |chain| + |hole| + 2
  {
    var (entry, at) := (RightmostIndex(hole), BridgeTarget(chain, hole).value);
    var r := Spliced(chain, at, hole, entry);
    forall v | v in r ensures v in chain || v in hole {
      assert || v in chain[..at + 1] || v in Rotated(hole, entry) || v == hole[entry] || v == chain[at]
             || v in chain[at + 1..];
      assert v in Rotated(hole, entry) ==> v in hole;
    }
  }

  lemma {:induction false} OddParityHits(path: seq<Point>, p: Point) returns (i: nat)
    requires HitParity(path, p)
    ensures i + 1 < |path| && Hit(p, path[i], path[i + 1])
  {
    if Hit(p, path[0], path[1]) {
      i := 0;
    } else {
      var k := OddParityHits(path[1..], p);
      i := k + 1;
    }
  }

  lemma EnclosedHasAnswer(chain: seq<Vertex>, origin: Point)
    requires Encloses(Places(chain), origin)
    ensures VisibleFrom(chain, origin).Some?
  {
    var path := Places(chain);
    var i: nat;
    if HitParity(path, origin) {
      i := OddParityHits(path, origin);
    } else {
      i := |path| - 1;
    }
    assert EdgeHit(chain, origin, i).Some?;
    VisibleFromInChain(chain, origin);
  }

  /** An entry vertex even-odd inside the chain always has an edge to bridge towards. */
  lemma EnclosedEntryIsBridged(chain: seq<Vertex>, hole: seq<Vertex>)
    requires hole != [] && Encloses(Places(chain), hole[RightmostIndex(hole)].at)
    ensures Bridge(chain, hole).Some?
  {
    EnclosedHasAnswer(chain, hole[RightmostIndex(hole)].at);
    BridgeTargetPassesIfAnyDoes(chain, hole);
  }
}
