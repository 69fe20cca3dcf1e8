/** When a hole is dropped: exactly where the chain offers it nothing to bridge to. */
module DroppedHoles {
  import opened Options
  import opened Geometry
  import opened EdgeSums
  import opened RingMeasures
  import opened Clipping
  import opened StableSort
  import opened Bridging
  import opened Triangulation
  import opened HoleLaws

  /** The ray from the hole's entry meets no edge of the chain, and no vertex of the chain passes the bridge test. */
  ghost predicate NothingToBridgeTo(chain: seq<Vertex>, hole: seq<Vertex>)
    requires hole != []
  {
    var entry := RightmostIndex(hole);
    && (forall i :: 0 <= i < |chain| ==> EdgeHit(chain, hole[entry].at, i).None?)
    && (forall i: nat :: i < |chain| ==> !Passes(chain, hole, entry, i))
  }

  lemma BridgeFailsExactly(chain: seq<Vertex>, hole: seq<Vertex>)
    requires hole != []
    ensures Bridge(chain, hole).None? <==> NothingToBridgeTo(chain, hole)
  {
    hide VisibleFrom, NearestReachable, Passes, EdgeHit, RightmostIndex, Spliced;
    var entry := RightmostIndex(hole);
    VisibleFromInChain(chain, hole[entry].at);
    NearestReachableIsNearest(chain, hole, entry);
    BridgeTargetPassesIfAnyDoes(chain, hole);
  }

  ghost predicate DistinctNumbers(queue: seq<Pending>) {
    forall i, j :: 0 <= i < j < |queue| ==> queue[i].number != queue[j].number
  }

  lemma {:induction false} SplicedAreQueued(chain: seq<Vertex>, queue: seq<Pending>, k: nat)
    requires k in BridgeAll(chain, queue).spliced
    ensures exists i :: 0 <= i < |queue| && queue[i].number == k
  {
    hide Bridge;
    var n := |queue| - 1;
    if k in BridgeAll(chain, queue[..n]).spliced {
      SplicedAreQueued(chain, queue[..n], k);
      var i :| 0 <= i < n && queue[..n][i].number == k;
      assert queue[i].number == k;
    } else {
      assert queue[n].number == k;
    }
  }

  /** Each queued hole is spliced exactly when the chain left by those before it offers something. */
  lemma {:induction false} SplicedInTurn(chain: seq<Vertex>, queue: seq<Pending>, i: nat)
    requires DistinctNumbers(queue) && i < |queue|
    ensures queue[i].number in BridgeAll(chain, queue).spliced
       <==> Bridge(BridgeAll(chain, queue[..i]).chain, queue[i].ring).Some?
  {
    hide Bridge;
    var n := |queue| - 1;
    var front := queue[..n];
    if i < n {
      SplicedInTurn(chain, front, i);
      assert front[..i] == queue[..i] && front[i] == queue[i];
      assert queue[i].number != queue[n].number;
    } else if queue[n].number in BridgeAll(chain, front).spliced {
      SplicedAreQueued(chain, front, queue[n].number);
    }
  }

  /** The hole at a place of the queue finds nothing to bridge to when its turn comes. */
  ghost predicate DroppedAt(outer: Loop, holes: seq<Loop>, i: nat)
    requires i < |Queue(outer, holes)|
  {
    var queue := Queue(outer, holes);
    queue[i].ring == [] || NothingToBridgeTo(BridgeAll(OuterChain(outer), queue[..i]).chain, queue[i].ring)
  }

  /** At its place in the queue hole k has something to bridge to. */
  ghost predicate IsBridgedInTurn(outer: Loop, holes: seq<Loop>, k: nat)
    requires |outer| >= 3 && k < |holes|
  {
    exists i: nat :: i < |Queue(outer, holes)| && IsAt(outer, holes, i, k) && !DroppedAt(outer, holes, i)
  }

  /**
   The caller's hole k is cut out exactly when it has three or more vertices and, at its place in the queue, the
   ray from its entry meets an edge of the chain or some vertex passes the bridge test; otherwise it is dropped.
   */
  lemma HoleIsDroppedExactly(outer: Loop, holes: seq<Loop>, k: nat)
    requires |outer| >= 3 && k < |holes|
    ensures k in SplicedHoles(outer, holes)
       <==> |holes[k]| >= 3 && IsBridgedInTurn(outer, holes, k)
  {
    hide Bridge, NothingToBridgeTo, Queue, OuterChain, BridgeAll;
    var (chain, queue) := (OuterChain(outer), Queue(outer, holes));
    QueueIsComplete(outer, holes);
    assert DistinctNumbers(queue);
    assert SplicedHoles(outer, holes) == BridgeAll(chain, queue).spliced;
    if k in BridgeAll(chain, queue).spliced {
      SplicedAreQueued(chain, queue, k);
    }
    forall i: nat | i < |queue| && queue[i].number == k
      ensures |holes[k]| >= 3 && (k in BridgeAll(chain, queue).spliced <==> !DroppedAt(outer, holes, i))
      ensures IsAt(outer, holes, i, k)
    {
      assert queue[i] in queue;
      assert IsPendingOf(queue[i], outer, holes);
      SplicedInTurn(chain, queue, i);
      BridgeFailsExactly(BridgeAll(chain, queue[..i]).chain, queue[i].ring);
    }
  }

  predicate IsAt(outer: Loop, holes: seq<Loop>, i: nat, k: nat) {
    i < |Queue(outer, holes)| && Queue(outer, holes)[i].number == k
  }

  // ----- holes that are dropped -----

  /** Nothing of the ring is above the point. */
  predicate IsAbove(p: Point, ring: seq<Point>) {
    forall i :: 0 <= i < |ring| ==> ring[i].y <= p.y
  }

  lemma {:induction false} NothingHitAbove(path: seq<Point>, p: Point)
    requires IsAbove(p, path)
    ensures !HitParity(path, p)
  {
    if |path| >= 2 {
      NothingHitAbove(path[1..], p);
    }
  }

  lemma NothingEnclosesAbove(ring: seq<Point>, p: Point)
    requires IsAbove(p, ring)
    ensures !Encloses(ring, p)
  {
    NothingHitAbove(ring, p);
  }

  /** The hole is entered so far above the loop that the middle of no bridge to it comes down to the loop. */
  predicate FarAbove(entry: Point, loop: Loop) {
    forall v, w :: v in loop && w in loop ==> 2.0 * w.y <= entry.y + v.y
  }

  lemma FarAboveIsAbove(entry: Point, loop: Loop)
    requires FarAbove(entry, loop)
    ensures IsAbove(entry, loop) && forall v :: v in loop ==> IsAbove(Midpoint(entry, v), loop)
  {
    forall i | 0 <= i < |loop| ensures loop[i].y <= entry.y {
      assert loop[i] in loop;
    }
    forall v | v in loop ensures IsAbove(Midpoint(entry, v), loop) {
      forall i | 0 <= i < |loop| ensures loop[i].y <= Midpoint(entry, v).y {
        assert loop[i] in loop;
      }
    }
  }

  lemma FarAboveOffersNothing(chain: seq<Vertex>, hole: seq<Vertex>)
    requires hole != [] && FarAbove(hole[RightmostIndex(hole)].at, Places(chain))
    ensures NothingToBridgeTo(chain, hole)
  {
    hide CrossesNothing, Free, Encloses, InTheWay, FarAbove, RightmostIndex;
    var (entry, loop) := (RightmostIndex(hole), Places(chain));
    var origin := hole[entry].at;
    FarAboveIsAbove(origin, loop);
    forall i | 0 <= i < |chain| ensures EdgeHit(chain, origin, i).None? {
      assert loop[i].y <= origin.y && loop[After(i, |chain|)].y <= origin.y;
    }
    forall i: nat | i < |chain| ensures !Passes(chain, hole, entry, i) {
      assert loop[i] in loop;
      NothingEnclosesAbove(loop, Midpoint(origin, loop[i]));
    }
  }

  /** One hole above the outer loop is dropped: nothing is cut out, and nothing says so. */
  lemma HoleFarAboveIsDropped(outer: Loop, hole: Loop)
    requires |outer| >= 3 && |hole| >= 3 && FarAbove(EntryOf(hole), outer)
    ensures SplicedHoles(outer, [hole]) == []
  {
    hide FarAbove, NothingToBridgeTo, RightmostIndex, BridgeAll, Queue, Bridge, OuterChain, AlongOuter, HoleRing,
         AllPoints;
    var (queue, chain) := (Queue(outer, [hole]), OuterChain(outer));
    OneIsQueued(outer, hole);
    FarAboveAlong(EntryOf(hole), outer);
    PlacesOfRings(0, outer);
    EntryOfNumbered(|AllPoints(outer, [])|, hole);
    FarAboveOffersNothing(chain, queue[0].ring);
    BridgeFailsExactly(chain, queue[0].ring);
    OneFailsToBridge(chain, queue);
  }

  lemma OneFailsToBridge(chain: seq<Vertex>, queue: seq<Pending>)
    requires |queue| == 1 && Bridge(chain, queue[0].ring).None?
    ensures BridgeAll(chain, queue).spliced == []
  {
    hide Bridge;
    assert queue[..0] == [];
  }

  lemma OneIsQueued(outer: Loop, hole: Loop)
    requires |hole| >= 3
    ensures |Queue(outer, [hole])| == 1
    ensures Queue(outer, [hole])[0].ring == HoleRing(|AllPoints(outer, [])|, hole)
  {
    hide HoleRing, AllPoints, RightmostIndex, PendingHoles, Sort;
    OneIsPending(outer, hole);
    SortsOne(PendingHoles(outer, [hole]), LeftOf());
  }

  lemma OneIsPending(outer: Loop, hole: Loop)
    requires |hole| >= 3
    ensures var pending := PendingHoles(outer, [hole]);
      |pending| == 1 && pending[0].ring == HoleRing(|AllPoints(outer, [])|, hole)
  {
    hide HoleRing, AllPoints, RightmostIndex;
    assert [hole][..0] == [];
  }

  lemma SortsOne<T>(s: seq<T>, key: T -> real)
    requires |s| == 1
    ensures Sort(s, key) == s
  {
    assert s[..0] == [];
  }

  lemma FarAboveAlong(entry: Point, loop: Loop)
    requires FarAbove(entry, loop)
    ensures FarAbove(entry, AlongOuter(loop))
  {
    assert forall v :: v in AlongOuter(loop) ==> v in loop;
  }

  /** A triangle, and a triangular hole above it. */
  lemma AHoleIsDropped()
    ensures SplicedHoles([Point(0.0, 0.0), Point(1.0, 0.0), Point(0.0, 1.0)],
                         [[Point(2.0, 4.0), Point(3.0, 4.0), Point(2.0, 5.0)]]) == []
  {
    hide SplicedHoles, EntryOf, FarAbove;
    var outer := [Point(0.0, 0.0), Point(1.0, 0.0), Point(0.0, 1.0)];
    var hole := [Point(2.0, 4.0), Point(3.0, 4.0), Point(2.0, 5.0)];
    EntryIsAVertex(hole);
    LowIsFarBelow(EntryOf(hole), outer);
    HoleFarAboveIsDropped(outer, hole);
  }

  lemma LowIsFarBelow(entry: Point, outer: Loop)
    requires entry.y >= 4.0 && forall v :: v in outer ==> 0.0 <= v.y <= 1.0
    ensures FarAbove(entry, outer)
  {
  }

  lemma EntryIsAVertex(hole: Loop)
    requires hole != []
    ensures EntryOf(hole) in hole
  {
    hide RightmostIndex;
    PlacesOfRings(0, hole);
    var ring := HoleRing(0, hole);
    assert EntryOf(hole) == Places(ring)[RightmostIndex(ring)];
  }
}
