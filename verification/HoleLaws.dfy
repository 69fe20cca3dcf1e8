/** When no hole is lost on the way into the chain, whatever order the holes are bridged in. */
module HoleLaws {
  import opened Options
  import opened Sums
  import opened Geometry
  import opened EdgeSums
  import opened RingMeasures
  import opened Clipping
  import opened StableSort
  import opened Bridging
  import opened Triangulation
  import opened TilingLaws

  /** Where a ring is entered: its rightmost vertex, the last of them in the order it is walked. */
  function EntryOfRing(ring: seq<Vertex>): Point
    requires ring != []
  {
    ring[RightmostIndex(ring)].at
  }

  function EntryOf(hole: Loop): Point
    requires hole != []
  {
    EntryOfRing(HoleRing(0, hole))
  }

  lemma EntryByPlace(r: seq<Vertex>, s: seq<Vertex>)
    requires r != [] && s != [] && Places(r) == Places(s)
    ensures EntryOfRing(r) == EntryOfRing(s)
  {
    assert |r| == |Places(r)| == |s|;
    assert forall k :: 0 <= k < |r| ==> r[k].at == Places(r)[k] == Places(s)[k] == s[k].at;
    var (i, j) := (RightmostIndex(r), RightmostIndex(s));
    assert r[i].at == s[i].at && r[j].at == s[j].at;
  }

  lemma EntryOfNumbered(start: nat, hole: Loop)
    requires hole != []
    ensures EntryOfRing(HoleRing(start, hole)) == EntryOf(hole)
  {
    PlacesOfRings(start, hole);
    PlacesOfRings(0, hole);
    EntryByPlace(HoleRing(start, hole), HoleRing(0, hole));
  }

  /** The hole is entered inside the outer loop and outside every other hole. */
  ghost predicate EnteredInside(outer: Loop, holes: seq<Loop>, k: nat)
    requires k < |holes|
  {
    && |holes[k]| >= 3
    && Encloses(outer, EntryOf(holes[k]))
    && forall j :: 0 <= j < |holes| && j != k && |holes[j]| >= 3 ==> !Encloses(holes[j], EntryOf(holes[k]))
  }

  /** The chain after any bridging encloses what the outer loop does, less the holes spliced in. */
  lemma ChainParity(outer: Loop, holes: seq<Loop>, queue: seq<Pending>, p: Point)
    requires QueueOf(queue, outer, holes)
    ensures var b := BridgeAll(OuterChain(outer), queue);
            && NamesHoles(b.spliced, holes)
            && (EnclosesPoint(p)(Places(b.chain))
                <==> (EnclosesPoint(p)(outer) != XorOf(EnclosesPoint(p), Named(b.spliced, holes))))
  {
    hide BridgeAll, OuterChain, Encloses, CycleSum, RealSum, IntSum, XorOf, Winding, WindingTerm, AlongOuter,
         AgainstOuter,
         Named, Places, HoleWeight, WindingAgainst, Odd;
    var b := BridgeAll(OuterChain(outer), queue);
    var w := WindingTerm(p);
    WindingTermAntisymmetric(p);
    BridgeAllAdds(w, OuterChain(outer), queue, outer, holes);
    var cut := Named(b.spliced, holes);
    forall loop: Loop
      ensures HoleWeight(w)(loop) == WindingAgainst(p)(loop) as real
      ensures Odd(WindingAgainst(p)(loop)) <==> EnclosesPoint(p)(loop)
    {
      OrientedWinding(loop, p);
    }
    IntSumAsReal(WindingAgainst(p), HoleWeight(w), cut);
    IntSumParity(WindingAgainst(p), EnclosesPoint(p), cut);
    PlacesOfRings(0, outer);
    OrientedWinding(outer, p);
    WindingExact(Places(b.chain), p);
    WindingParity(Places(b.chain), p);
    OddSum(Winding(AlongOuter(outer), p), IntSum(WindingAgainst(p), cut));
  }

  lemma WindingParity(ring: Loop, p: Point)
    ensures Odd(Winding(ring, p)) <==> EnclosesPoint(p)(ring)
  {
    WindingExact(ring, p);
  }

  /** One more hole is spliced in, if it is entered inside the outer loop and outside those before it. */
  lemma NextIsBridged(outer: Loop, holes: seq<Loop>, front: seq<Pending>, next: Pending)
    requires QueueOf(front, outer, holes) && IsPendingOf(next, outer, holes)
    requires EnteredInside(outer, holes, next.number)
    requires next.number !in BridgeAll(OuterChain(outer), front).spliced
    ensures Bridge(BridgeAll(OuterChain(outer), front).chain, next.ring).Some?
  {
    hide BridgeAll, OuterChain, Encloses, RightmostIndex, HoleRing, XorOf, Bridge, Places, AllPoints;
    var before := BridgeAll(OuterChain(outer), front);
    var entry := EntryOf(holes[next.number]);
    EntryOfNumbered(|AllPoints(outer, holes[..next.number])|, holes[next.number]);
    ChainParity(outer, holes, front, entry);
    var cut := Named(before.spliced, holes);
    forall loop | loop in cut ensures !EnclosesPoint(entry)(loop) {
      var i :| 0 <= i < |cut| && cut[i] == loop;
      assert before.spliced[i] in before.spliced;
    }
    NoneXor(EnclosesPoint(entry), cut);
    EnclosedEntryIsBridged(before.chain, next.ring);
  }

  function NumbersOf(queue: seq<Pending>): (r: seq<nat>)
    ensures |r| == |queue|
    ensures forall i :: 0 <= i < |queue| ==> r[i] == queue[i].number
  {
    seq(|queue|, i requires 0 <= i < |queue| => queue[i].number)
  }

  /** Bridged in any order, holes entered inside the outer loop and outside each other are all spliced. */
  lemma {:induction false} NoHoleLostInAnyOrder(outer: Loop, holes: seq<Loop>, queue: seq<Pending>)
    requires QueueOf(queue, outer, holes)
    requires forall i, j :: 0 <= i < j < |queue| ==> queue[i].number != queue[j].number
    requires forall i :: 0 <= i < |queue| ==> queue[i].number < |holes| && EnteredInside(outer, holes, queue[i].number)
    ensures BridgeAll(OuterChain(outer), queue).spliced == NumbersOf(queue)
  {
    hide OuterChain, Bridge, EnteredInside;
    if queue != [] {
      var (front, next) := (queue[..|queue| - 1], queue[|queue| - 1]);
      assert next in queue;
      NoHoleLostInAnyOrder(outer, holes, front);
      assert next.number !in NumbersOf(front);
      NextIsBridged(outer, holes, front, next);
      assert NumbersOf(queue) == NumbersOf(front) + [next.number];
    }
  }

  /** Some vertex of the one loop is as far right as every vertex of the other. */
  ghost predicate ReachesAsFar(loop: Loop, other: Loop) {
    exists p :: p in loop && forall q :: q in other ==> q.x <= p.x
  }

  /** The one hole is bridged before the other: it reaches further right, or as far and is given first. */
  ghost predicate GoesBefore(holes: seq<Loop>, a: nat, b: nat) {
    && a < |holes| && b < |holes|
    && ReachesAsFar(holes[a], holes[b])
    && (ReachesAsFar(holes[b], holes[a]) ==> a < b)
  }

  /** What a hole waits by is how far right its points reach. */
  ghost predicate IsReachOf(x: real, loop: Loop) {
    (exists p :: p in loop && p.x == x) && forall q :: q in loop ==> q.x <= x
  }

  lemma ReachOfRightmost(ring: seq<Vertex>)
    requires ring != []
    ensures IsReachOf(ring[RightmostIndex(ring)].at.x, Places(ring))
  {
    var (r, places) := (RightmostIndex(ring), Places(ring));
    hide RightmostIndex;
    assert places[r] in places && places[r].x == ring[r].at.x;
    forall q | q in places ensures q.x <= ring[r].at.x {
      var i :| 0 <= i < |places| && places[i] == q;
      assert ring[i].at == q;
    }
  }

  lemma ReachOfSame(x: real, a: Loop, b: Loop)
    requires IsReachOf(x, a) && forall q :: q in a <==> q in b
    ensures IsReachOf(x, b)
  {
  }

  lemma ReachOfRing(start: nat, hole: Loop)
    requires hole != []
    ensures var ring := HoleRing(start, hole); IsReachOf(ring[RightmostIndex(ring)].at.x, hole)
  {
    hide HoleRing, AgainstOuter, IsReachOf, RightmostIndex, Places;
    var ring := HoleRing(start, hole);
    PlacesOfRings(start, hole);
    forall q ensures q in Places(ring) <==> q in hole {
      SamePointsEitherWay(hole, q);
    }
    ReachOfRightmost(ring);
    ReachOfSame(ring[RightmostIndex(ring)].at.x, Places(ring), hole);
  }

  lemma SamePointsEitherWay(hole: Loop, q: Point)
    ensures q in AgainstOuter(hole) <==> q in hole
  {
    hide IsCounterClockwise;
    if q in hole {
      var i :| 0 <= i < |hole| && hole[i] == q;
      assert Reversed(hole)[|hole| - 1 - i] == q;
    }
  }

  lemma {:induction false} PendingByReach(outer: Loop, holes: seq<Loop>)
    ensures forall p :: p in PendingHoles(outer, holes) ==>
              p.number < |holes| && IsReachOf(p.rightmost, holes[p.number])
  {
    hide AllPoints, HoleRing, RightmostIndex, IsReachOf;
    if holes != [] {
      var n := |holes| - 1;
      PendingByReach(outer, holes[..n]);
      if |holes[n]| >= 3 {
        ReachOfRing(|AllPoints(outer, holes[..n])|, holes[n]);
      }
    }
  }

  lemma ReachesCompare(x: real, y: real, a: Loop, b: Loop)
    requires IsReachOf(x, a) && IsReachOf(y, b)
    ensures ReachesAsFar(a, b) <==> x >= y
  {
    if x >= y {
      var p :| p in a && p.x == x;
      assert forall q :: q in b ==> q.x <= p.x;
    } else {
      var q :| q in b && q.x == y;
    }
  }

  /**
   The holes are bridged from the rightmost inwards, told by the caller's own points, and those that reach equally
   far in the caller's order.
   */
  lemma QueueGoesLeft(outer: Loop, holes: seq<Loop>)
    ensures var queue := Queue(outer, holes);
            forall i, j :: 0 <= i < j < |queue| ==>
              queue[i] != queue[j] && GoesBefore(holes, queue[i].number, queue[j].number)
  {
    hide PendingHoles, IsReachOf, ReachesAsFar;
    var (pending, queue, rank) := (PendingHoles(outer, holes), Queue(outer, holes), (p: Pending) => p.number);
    PendingHolesAre(outer, holes);
    PendingByReach(outer, holes);
    SortOrdered(pending, LeftOf(), rank);
    forall i, j | 0 <= i < j < |queue|
      ensures queue[i] != queue[j] && GoesBefore(holes, queue[i].number, queue[j].number)
    {
      var (p, q) := (queue[i], queue[j]);
      assert LeftOf()(p) < LeftOf()(q) || (LeftOf()(p) == LeftOf()(q) && rank(p) < rank(q));
      assert p in multiset(queue) && q in multiset(queue) && p in multiset(pending) && q in multiset(pending);
      ReachesCompare(p.rightmost, q.rightmost, holes[p.number], holes[q.number]);
      ReachesCompare(q.rightmost, p.rightmost, holes[q.number], holes[p.number]);
    }
  }

  lemma QueueNamesHoles(outer: Loop, holes: seq<Loop>, k: nat)
    requires k < |holes| && |holes[k]| >= 3
    ensures k in NumbersOf(Queue(outer, holes))
  {
    hide PendingHoles;
    var (pending, queue) := (PendingHoles(outer, holes), Queue(outer, holes));
    var p := PendingHolesComplete(outer, holes, k);
    assert p in multiset(pending) && p in multiset(queue);
    var i :| 0 <= i < |queue| && queue[i] == p;
    assert NumbersOf(queue)[i] == k;
  }

  /** The queue holds every hole of three or more vertices, and none twice. */
  lemma QueueIsComplete(outer: Loop, holes: seq<Loop>)
    ensures var queue := Queue(outer, holes);
            && QueueOf(queue, outer, holes)
            && (forall k: nat :: k < |holes| && |holes[k]| >= 3 ==> k in NumbersOf(queue))
            && (forall i, j :: 0 <= i < j < |queue| ==> queue[i].number != queue[j].number)
  {
    hide Queue;
    var queue := Queue(outer, holes);
    QueueIsOfHoles(outer, holes);
    QueueGoesLeft(outer, holes);
    forall k: nat | k < |holes| && |holes[k]| >= 3 ensures k in NumbersOf(queue) {
      QueueNamesHoles(outer, holes, k);
    }
    forall i, j | 0 <= i < j < |queue| ensures queue[i].number != queue[j].number {
      assert GoesBefore(holes, queue[i].number, queue[j].number);
    }
  }

  /** Every hole of three or more vertices is cut out once, if all are entered inside the loop, outside each other. */
  lemma NoHoleLost(outer: Loop, holes: seq<Loop>)
    requires |outer| >= 3
    requires forall k: nat :: k < |holes| && |holes[k]| >= 3 ==> EnteredInside(outer, holes, k)
    ensures var spliced := SplicedHoles(outer, holes);
            && (forall k: nat :: k in spliced <==> k < |holes| && |holes[k]| >= 3)
            && forall i, j :: 0 <= i < j < |spliced| ==> spliced[i] != spliced[j]
  {
    hide Queue, BridgeAll, OuterChain, EnteredInside;
    var queue := Queue(outer, holes);
    QueueIsComplete(outer, holes);
    forall i | 0 <= i < |queue| ensures IsPendingOf(queue[i], outer, holes) {
      assert queue[i] in queue;
    }
    NoHoleLostInAnyOrder(outer, holes, queue);
    var spliced := SplicedHoles(outer, holes);
    assert spliced == NumbersOf(queue);
    forall k: nat | k in spliced ensures k < |holes| && |holes[k]| >= 3 {
      var i :| 0 <= i < |spliced| && spliced[i] == k;
    }
  }

  /** Two holes of the queue, the one ahead of the other. */
  ghost predicate Ahead(queue: seq<Pending>, a: nat, b: nat) {
    exists i, j :: 0 <= i < j < |queue| && queue[i].number == a && queue[j].number == b
  }

  ghost predicate Waits(queue: seq<Pending>, a: nat) {
    exists i :: 0 <= i < |queue| && queue[i].number == a
  }

  lemma AheadOfMore(front: seq<Pending>, next: Pending, a: nat, b: nat)
    ensures Ahead(front, a, b) ==> Ahead(front + [next], a, b)
    ensures Waits(front, a) ==> Waits(front + [next], a) && Ahead(front + [next], a, next.number)
    ensures Waits(front + [next], next.number)
  {
    var queue := front + [next];
    assert queue[|front|] == next;
    if Ahead(front, a, b) {
      var i, j :| 0 <= i < j < |front| && front[i].number == a && front[j].number == b;
      assert queue[i].number == a && queue[j].number == b;
    }
    if Waits(front, a) {
      var i :| 0 <= i < |front| && front[i].number == a;
      assert queue[i].number == a;
    }
  }

  /** Numbers of holes of the queue, in its order. */
  ghost predicate InTurn(queue: seq<Pending>, numbers: seq<nat>) {
    && (forall i, j :: 0 <= i < j < |numbers| ==> Ahead(queue, numbers[i], numbers[j]))
    && forall k :: 0 <= k < |numbers| ==> Waits(queue, numbers[k])
  }

  lemma InTurnGrows(front: seq<Pending>, next: Pending, numbers: seq<nat>)
    requires InTurn(front, numbers)
    ensures InTurn(front + [next], numbers) && InTurn(front + [next], numbers + [next.number])
  {
    hide Ahead, Waits;
    var (queue, more) := (front + [next], numbers + [next.number]);
    forall i, j | 0 <= i < j < |more| ensures Ahead(queue, more[i], more[j]) {
      AheadOfMore(front, next, numbers[i], more[j]);
    }
    forall k | 0 <= k < |more| ensures Waits(queue, more[k]) {
      AheadOfMore(front, next, more[k], next.number);
    }
    PartInTurn(queue, more, |numbers|);
    assert more[..|numbers|] == numbers;
  }

  lemma PartInTurn(queue: seq<Pending>, numbers: seq<nat>, n: nat)
    requires InTurn(queue, numbers) && n <= |numbers|
    ensures InTurn(queue, numbers[..n])
  {
  }

  lemma {:induction false} SplicedInTurn(chain: seq<Vertex>, queue: seq<Pending>)
    ensures InTurn(queue, BridgeAll(chain, queue).spliced)
  {
    hide Bridge, InTurn;
    if queue == [] {
      NothingInTurn();
    } else {
      var (front, next) := (queue[..|queue| - 1], queue[|queue| - 1]);
      assert queue == front + [next];
      SplicedInTurn(chain, front);
      InTurnGrows(front, next, BridgeAll(chain, front).spliced);
    }
  }

  lemma NothingInTurn()
    ensures InTurn([], [])
  {
  }

  /** The holes that are cut out are so in that order: from the rightmost inwards, and then in the caller's order. */
  lemma HolesAreCutGoingLeft(outer: Loop, holes: seq<Loop>)
    requires |outer| >= 3
    ensures var spliced := SplicedHoles(outer, holes);
            forall i, j :: 0 <= i < j < |spliced| ==> GoesBefore(holes, spliced[i], spliced[j])
  {
    hide Queue, BridgeAll, OuterChain, GoesBefore, Ahead;
    var (queue, spliced) := (Queue(outer, holes), SplicedHoles(outer, holes));
    SplicedInTurn(OuterChain(outer), queue);
    forall i, j | 0 <= i < j < |spliced| ensures GoesBefore(holes, spliced[i], spliced[j]) {
      AheadGoesBefore(outer, holes, spliced[i], spliced[j]);
    }
  }

  lemma AheadGoesBefore(outer: Loop, holes: seq<Loop>, a: nat, b: nat)
    requires Ahead(Queue(outer, holes), a, b)
    ensures GoesBefore(holes, a, b)
  {
    hide Queue, GoesBefore;
    QueueGoesLeft(outer, holes);
    var queue := Queue(outer, holes);
    var i, j :| 0 <= i < j < |queue| && queue[i].number == a && queue[j].number == b;
  }
}
