/** Triangulating an outer loop with holes cut out of it: orient, bridge every hole in, clip. */
module Triangulation {
  import opened Options
  import opened Geometry
  import opened EdgeSums
  import opened RingMeasures
  import opened Sums
  import opened Clipping
  import opened StableSort
  import opened Bridging

  type Loop = seq<Point>

  function Numbered(start: nat, loop: Loop): (ring: seq<Vertex>)
    ensures |ring| == |loop|
    ensures forall i :: 0 <= i < |loop| ==> ring[i] == Vertex(start + i, loop[i])
  {
    seq(|loop|, i requires 0 <= i < |loop| => Vertex(start + i, loop[i]))
  }

  /** The outer loop as a chain that does not wind clockwise. */
  function OuterChain(outer: Loop): (ring: seq<Vertex>)
    ensures |ring| == |outer|
  {
    if IsCounterClockwise(outer) then Numbered(0, outer) else Reversed(Numbered(0, outer))
  }

  /** Holes are turned clockwise. */
  function HoleRing(start: nat, hole: Loop): (ring: seq<Vertex>)
    ensures |ring| == |hole|
  {
    if IsCounterClockwise(hole) then Reversed(Numbered(start, hole)) else Numbered(start, hole)
  }

  function Flat(loops: seq<Loop>): seq<Point> {
    if loops == [] then [] else Flat(loops[..|loops| - 1]) + loops[|loops| - 1]
  }

  /** The caller's own list: the outer loop, then each hole in the order given. */
  function AllPoints(outer: Loop, holes: seq<Loop>): seq<Point> {
    outer + Flat(holes)
  }

  /** A hole waiting to be bridged, with its place among the caller's holes. */
  datatype Pending = Pending(rightmost: real, number: nat, ring: seq<Vertex>)

  function PendingHoles(outer: Loop, holes: seq<Loop>): seq<Pending> {
    if holes == [] then []
    else
      var (front, hole) := (holes[..|holes| - 1], holes[|holes| - 1]);
      var ring := HoleRing(|AllPoints(outer, front)|, hole);
      PendingHoles(outer, front)
      + if |hole| < 3 then [] else [Pending(ring[RightmostIndex(ring)].at.x, |front|, ring)]
  }

  function LeftOf(): Pending -> real {
    (p: Pending) => -p.rightmost
  }

  /** The holes from the rightmost inwards. */
  function Queue(outer: Loop, holes: seq<Loop>): seq<Pending> {
    Sort(PendingHoles(outer, holes), LeftOf())
  }

  /** The chain so far, and the caller's numbers of the holes spliced into it. */
  datatype Bridged = Bridged(chain: seq<Vertex>, spliced: seq<nat>)

  function BridgeAll(chain: seq<Vertex>, queue: seq<Pending>): Bridged {
    if queue == [] then Bridged(chain, [])
    else
      var (before, next) := (BridgeAll(chain, queue[..|queue| - 1]), queue[|queue| - 1]);
      var after := Bridge(before.chain, next.ring);
      if after.None? then before else Bridged(after.value, before.spliced + [next.number])
  }

  function WholeChain(outer: Loop, holes: seq<Loop>): Bridged {
    BridgeAll(OuterChain(outer), Queue(outer, holes))
  }

  /** The triangles, or None where the source answers with an empty list because nothing was tiled. */
  function Tiling(outer: Loop, holes: seq<Loop>): (r: Option<seq<Triangle>>)
    ensures r.Some? ==> |outer| >= 3
  {
    if |outer| < 3 then None else ClipChain(WholeChain(outer, holes).chain)
  }

  method Triangulate(outer: Loop, holes: seq<Loop>) returns (triangles: seq<Indices>)
    ensures triangles == if Tiling(outer, holes).Some? then AllIndices(Tiling(outer, holes).value) else []
  {
    if |outer| < 3 {
      return [];
    }
    var outerArea := ComputeSignedArea2(outer);
    var chain := Numbered(0, outer);
    if !(outerArea > 0.0) {
      chain := Reversed(chain);
    }
    assert chain == OuterChain(outer);
    var base := |outer|;
    var pending: seq<Pending> := [];
    var k := 0;
    while k < |holes|
      invariant 0 <= k <= |holes|
      invariant base == |AllPoints(outer, holes[..k])|
      invariant pending == PendingHoles(outer, holes[..k])
    {
      assert holes[..k + 1][..k] == holes[..k];
      var hole := holes[k];
      var start := base;
      base := base + |hole|;
      if |hole| >= 3 {
        var ring := Numbered(start, hole);
        var area := ComputeSignedArea2(hole);
        if area > 0.0 {
          ring := Reversed(ring);
        }
        pending := pending + [Pending(ring[RightmostIndex(ring)].at.x, k, ring)];
      }
      k := k + 1;
    }
    assert holes[..k] == holes;
    var queue := Sort(pending, LeftOf());
    chain := BridgeQueue(chain, queue);
    triangles := ClipEars(chain);
  }

  method BridgeQueue(start: seq<Vertex>, queue: seq<Pending>) returns (chain: seq<Vertex>)
    ensures chain == BridgeAll(start, queue).chain
  {
    chain := start;
    var k := 0;
    while k < |queue|
      invariant 0 <= k <= |queue|
      invariant chain == BridgeAll(start, queue[..k]).chain
    {
      assert queue[..k + 1][..k] == queue[..k];
      chain := BridgeHole(chain, queue[k].ring);
      k := k + 1;
    }
    assert queue[..k] == queue;
  }

  // ----- the caller's indices -----

  ghost predicate Addressed(ring: seq<Vertex>, all: seq<Point>) {
    forall v :: v in ring ==> v.origin < |all| && all[v.origin] == v.at
  }

  lemma NumberedAddressed(start: nat, loop: Loop, all: seq<Point>)
    requires start + |loop| <= |all| && all[start..start + |loop|] == loop
    ensures Addressed(Numbered(start, loop), all) && Addressed(Reversed(Numbered(start, loop)), all)
  {
    forall i | 0 <= i < |loop| ensures all[start + i] == loop[i] {
      assert all[start..start + |loop|][i] == all[start + i];
    }
  }

  /** A pending hole is one of the caller's, of at least three vertices, oriented against the outer loop. */
  ghost predicate IsPendingOf(p: Pending, outer: Loop, holes: seq<Loop>) {
    && p.number < |holes| && |holes[p.number]| >= 3
    && p.ring == HoleRing(|AllPoints(outer, holes[..p.number])|, holes[p.number])
  }

  lemma {:induction false} PendingHolesAre(outer: Loop, holes: seq<Loop>)
    ensures forall p :: p in PendingHoles(outer, holes) ==> IsPendingOf(p, outer, holes)
    ensures forall i, j :: 0 <= i < j < |PendingHoles(outer, holes)| ==>
              PendingHoles(outer, holes)[i].number < PendingHoles(outer, holes)[j].number
  {
    hide AllPoints, HoleRing, RightmostIndex;
    if holes != [] {
      var n := |holes| - 1;
      var front := holes[..n];
      PendingHolesAre(outer, front);
      var ps := PendingHoles(outer, front);
      forall p | p in ps ensures IsPendingOf(p, outer, holes) && p.number < n {
        assert IsPendingOf(p, outer, front);
        assert front[..p.number] == holes[..p.number] && front[p.number] == holes[p.number];
      }
      assert forall i :: 0 <= i < |ps| ==> ps[i] in ps;
    }
  }

  lemma {:induction false} PendingHolesComplete(outer: Loop, holes: seq<Loop>, k: nat) returns (p: Pending)
    requires k < |holes| && |holes[k]| >= 3
    ensures p in PendingHoles(outer, holes) && p.number == k
  {
    hide AllPoints, HoleRing, RightmostIndex;
    var n := |holes| - 1;
    if k < n {
      p := PendingHolesComplete(outer, holes[..n], k);
    } else {
      var ring := HoleRing(|AllPoints(outer, holes[..n])|, holes[n]);
      p := Pending(ring[RightmostIndex(ring)].at.x, n, ring);
    }
  }

  lemma {:induction false} FlatSlice(loops: seq<Loop>, k: nat)
    requires k < |loops|
    ensures var at := |Flat(loops[..k])|;
            at + |loops[k]| <= |Flat(loops)| && Flat(loops)[at..at + |loops[k]|] == loops[k]
  {
    var n := |loops| - 1;
    if k < n {
      FlatSlice(loops[..n], k);
      assert loops[..n][..k] == loops[..k];
    }
  }

  function TotalLength(loops: seq<Loop>): nat {
    if loops == [] then 0 else |loops[0]| + TotalLength(loops[1..])
  }

  lemma {:induction false} FlatLength(loops: seq<Loop>)
    ensures |Flat(loops)| == TotalLength(loops)
  {
    if loops != [] {
      var n := |loops| - 1;
      FlatLength(loops[..n]);
      TotalSnoc(loops[..n], loops[n]);
      assert loops == loops[..n] + [loops[n]];
    }
  }

  lemma {:induction false} TotalSnoc(front: seq<Loop>, last: Loop)
    ensures TotalLength(front + [last]) == TotalLength(front) + |last|
  {
    if front != [] {
      assert (front + [last])[1..] == front[1..] + [last];
      TotalSnoc(front[1..], last);
    }
  }

  /** Index i behind the outer loop and the holes before hole k names vertex i of hole k. */
  lemma IndexInHole(outer: Loop, holes: seq<Loop>, k: nat, i: nat)
    requires k < |holes| && i < |holes[k]|
    ensures var index := |outer| + TotalLength(holes[..k]) + i;
            index < |AllPoints(outer, holes)| && AllPoints(outer, holes)[index] == holes[k][i]
  {
    FlatLength(holes[..k]);
    FlatSlice(holes, k);
    var (flat, at) := (Flat(holes), |Flat(holes[..k])|);
    var all := AllPoints(outer, holes);
    assert all == outer + flat;
    hide Flat, TotalLength, AllPoints;
    SliceAt(flat, at, holes[k], i);
    BehindTheOuter(outer, flat, at + i);
  }

  lemma BehindTheOuter(outer: seq<Point>, flat: seq<Point>, n: nat)
    requires n < |flat|
    ensures (outer + flat)[|outer| + n] == flat[n]
  {
  }

  /**
   Which index names which vertex: those of the outer loop come first, then hole by hole in the caller's order, and
   short holes have theirs too.
   */
  lemma IndexNamesTheVertex(outer: Loop, holes: seq<Loop>, k: nat, i: nat)
    ensures i < |outer| ==> i < |AllPoints(outer, holes)| && AllPoints(outer, holes)[i] == outer[i]
    ensures k < |holes| && i < |holes[k]| ==>
              var index := |outer| + TotalLength(holes[..k]) + i;
              index < |AllPoints(outer, holes)| && AllPoints(outer, holes)[index] == holes[k][i]
    ensures |AllPoints(outer, holes)| == |outer| + TotalLength(holes)
  {
    FlatLength(holes);
    hide Flat, TotalLength;
    if k < |holes| && i < |holes[k]| {
      IndexInHole(outer, holes, k, i);
    }
  }

  lemma SliceAt(s: seq<Point>, at: nat, part: seq<Point>, i: nat)
    requires at + |part| <= |s| && s[at..at + |part|] == part && i < |part|
    ensures s[at + i] == part[i]
  {
    assert s[at..at + |part|][i] == s[at + i];
  }

  lemma HoleRingAddressed(p: Pending, outer: Loop, holes: seq<Loop>)
    requires IsPendingOf(p, outer, holes)
    ensures Addressed(p.ring, AllPoints(outer, holes))
  {
    FlatSlice(holes, p.number);
    var (start, hole) := (|AllPoints(outer, holes[..p.number])|, holes[p.number]);
    var all := AllPoints(outer, holes);
    assert all[start..start + |hole|] == Flat(holes)[start - |outer|..start - |outer| + |hole|];
    NumberedAddressed(start, hole, all);
  }

  ghost predicate QueueOf(queue: seq<Pending>, outer: Loop, holes: seq<Loop>) {
    forall p :: p in queue ==> IsPendingOf(p, outer, holes)
  }

  lemma QueueIsOfHoles(outer: Loop, holes: seq<Loop>)
    ensures QueueOf(Queue(outer, holes), outer, holes)
  {
    PendingHolesAre(outer, holes);
    forall p | p in Queue(outer, holes) ensures IsPendingOf(p, outer, holes) {
      assert p in multiset(Queue(outer, holes)) && p in multiset(PendingHoles(outer, holes));
    }
  }

  lemma {:induction false} BridgeAllAddressed(chain: seq<Vertex>, queue: seq<Pending>, outer: Loop, holes: seq<Loop>)
    requires QueueOf(queue, outer, holes) && Addressed(chain, AllPoints(outer, holes))
    ensures Addressed(BridgeAll(chain, queue).chain, AllPoints(outer, holes))
    ensures |BridgeAll(chain, queue).chain| >= |chain|
    ensures NamesHoles(BridgeAll(chain, queue).spliced, holes)
  {
    if queue != [] {
      var (front, next) := (queue[..|queue| - 1], queue[|queue| - 1]);
      assert next in queue;
      BridgeAllAddressed(chain, front, outer, holes);
      HoleRingAddressed(next, outer, holes);
      var before := BridgeAll(chain, front);
      if Bridge(before.chain, next.ring).Some? {
        BridgeKeepsVertices(before.chain, next.ring);
      }
    }
  }

  lemma WholeChainAddressed(outer: Loop, holes: seq<Loop>)
    requires |outer| >= 3
    ensures var whole := WholeChain(outer, holes);
            && Addressed(whole.chain, AllPoints(outer, holes)) && |whole.chain| >= 3
            && NamesHoles(whole.spliced, holes)
  {
    var all := AllPoints(outer, holes);
    assert all[0..0 + |outer|] == outer;
    NumberedAddressed(0, outer, all);
    QueueIsOfHoles(outer, holes);
    BridgeAllAddressed(OuterChain(outer), Queue(outer, holes), outer, holes);
  }

  /** The corners of a returned triangle in the caller's list. */
  function CornerPlaces(all: seq<Point>, t: Indices): seq<Point>
    requires InRange(all, t)
  {
    [all[t.a], all[t.b], all[t.c]]
  }

  predicate InRange(all: seq<Point>, t: Indices) {
    t.a < |all| && t.b < |all| && t.c < |all|
  }

  ghost predicate AllInRange(all: seq<Point>, ts: seq<Indices>) {
    forall t :: t in ts ==> InRange(all, t)
  }

  /** Where the triangles are the same read through the caller's list. */
  ghost predicate Faithful(all: seq<Point>, ts: seq<Triangle>) {
    forall t :: t in ts ==> InRange(all, TriangleIndices(t))
                            && CornerPlaces(all, TriangleIndices(t)) == [t.a.at, t.b.at, t.c.at]
  }

  lemma TilingClips(outer: Loop, holes: seq<Loop>)
    requires Tiling(outer, holes).Some?
    ensures Clips(WholeChain(outer, holes).chain, Tiling(outer, holes).value)
    ensures Faithful(AllPoints(outer, holes), Tiling(outer, holes).value)
  {
    hide Clips, Clip, WholeChain, AllPoints;
    var (chain, ts, all) := (WholeChain(outer, holes).chain, Tiling(outer, holes).value, AllPoints(outer, holes));
    WholeChainAddressed(outer, holes);
    ClipFollowsEars(chain, 0, 0);
    ClipsCorners(chain, ts);
    forall t | t in ts
      ensures InRange(all, TriangleIndices(t)) && CornerPlaces(all, TriangleIndices(t)) == [t.a.at, t.b.at, t.c.at]
    {
      assert t.a in chain && t.b in chain && t.c in chain;
    }
  }

  /** Every returned index addresses the caller's own list, short holes and all, and there stands the corner meant. */
  lemma IndicesAddressTheInput(outer: Loop, holes: seq<Loop>)
    requires Tiling(outer, holes).Some?
    ensures AllInRange(AllPoints(outer, holes), AllIndices(Tiling(outer, holes).value))
    ensures Faithful(AllPoints(outer, holes), Tiling(outer, holes).value)
  {
    TilingClips(outer, holes);
  }

  // ----- what bridging adds up to -----

  predicate NamesHoles(numbers: seq<nat>, holes: seq<Loop>) {
    forall i :: 0 <= i < |numbers| ==> numbers[i] < |holes| && |holes[numbers[i]]| >= 3
  }

  function Named(numbers: seq<nat>, holes: seq<Loop>): (r: seq<Loop>)
    requires NamesHoles(numbers, holes)
    ensures |r| == |numbers| && forall i :: 0 <= i < |numbers| ==> r[i] == holes[numbers[i]]
  {
    seq(|numbers|, i requires 0 <= i < |numbers| => holes[numbers[i]])
  }

  /** A hole's edge sum, oriented against the outer loop. */
  function HoleWeight(w: Weight): Loop -> real {
    (hole: Loop) => CycleSum(w, AgainstOuter(hole))
  }

  function AgainstOuter(hole: Loop): Loop {
    if IsCounterClockwise(hole) then Reversed(hole) else hole
  }

  function AlongOuter(outer: Loop): Loop {
    if IsCounterClockwise(outer) then outer else Reversed(outer)
  }

  lemma PlacesOfRings(start: nat, loop: Loop)
    ensures Places(HoleRing(start, loop)) == AgainstOuter(loop)
    ensures Places(OuterChain(loop)) == AlongOuter(loop)
  {
    hide IsCounterClockwise;
    assert Places(Numbered(start, loop)) == loop == Places(Numbered(0, loop));
    assert Places(Reversed(Numbered(start, loop))) == Reversed(loop) == Places(Reversed(Numbered(0, loop)));
  }

  lemma {:induction false} BridgeAllAdds(w: Weight, chain: seq<Vertex>, queue: seq<Pending>, outer: Loop,
      holes: seq<Loop>)
    requires Antisymmetric(w) && QueueOf(queue, outer, holes)
    ensures var b := BridgeAll(chain, queue);
            && NamesHoles(b.spliced, holes)
            && CycleSum(w, Places(b.chain))
               == CycleSum(w, Places(chain)) + RealSum(HoleWeight(w), Named(b.spliced, holes))
  {
    hide Bridge, HoleRing, AgainstOuter, CycleSum, AllPoints, Places;
    if queue != [] {
      var (front, next) := (queue[..|queue| - 1], queue[|queue| - 1]);
      assert next in queue;
      BridgeAllAdds(w, chain, front, outer, holes);
      var before := BridgeAll(chain, front);
      if Bridge(before.chain, next.ring).Some? {
        BridgeAdds(w, before.chain, next.ring);
        PlacesOfRings(|AllPoints(outer, holes[..next.number])|, holes[next.number]);
        assert Named(before.spliced + [next.number], holes) == Named(before.spliced, holes) + [holes[next.number]];
        RealSumSnoc(HoleWeight(w), Named(before.spliced, holes), holes[next.number]);
      }
    }
  }

  /** The caller's numbers of the holes that were cut out; a hole with nothing to bridge to is not among them. */
  function SplicedHoles(outer: Loop, holes: seq<Loop>): (r: seq<nat>)
    requires |outer| >= 3
    ensures NamesHoles(r, holes)
  {
    WholeChainAddressed(outer, holes);
    WholeChain(outer, holes).spliced
  }

  /** The holes that were cut out. */
  function CutOut(outer: Loop, holes: seq<Loop>): seq<Loop>
    requires |outer| >= 3
  {
    Named(SplicedHoles(outer, holes), holes)
  }

  /**
   The triangles together carry the outer loop's edge sum plus the spliced holes', for any weight that ignores flat
   triangles.
   */
  lemma TilingConserves(w: Weight, outer: Loop, holes: seq<Loop>)
    requires Antisymmetric(w) && FlatVanishes(w) && Tiling(outer, holes).Some?
    ensures SumOver(w, Tiling(outer, holes).value)
         == CycleSum(w, AlongOuter(outer)) + RealSum(HoleWeight(w), CutOut(outer, holes))
  {
    hide Clips, ClipChain, BridgeAll, Queue, OuterChain, AlongOuter, CycleSum, Places, SumOver, RealSum;
    WholeChainAddressed(outer, holes);
    TilingClips(outer, holes);
    ClipsConserve(w, WholeChain(outer, holes).chain, Tiling(outer, holes).value);
    QueueIsOfHoles(outer, holes);
    BridgeAllAdds(w, OuterChain(outer), Queue(outer, holes), outer, holes);
    PlacesOfRings(0, outer);
  }
}
