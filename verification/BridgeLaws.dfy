/** What the bridge test asks for, in terms of points, segments and winding numbers. */
module BridgeLaws {
  import opened Geometry
  import opened EdgeSums
  import opened RingMeasures
  import opened Clipping
  import opened Bridging
  import opened SegmentCrossing

  /** The bridge has no point in common with any edge but those at `skip`, unless the two share an end. */
  ghost predicate MeetsNothing(from: Point, to: Point, ring: seq<Vertex>, skip: nat) {
    forall i | 0 <= i < |ring| && i != skip && After(i, |ring|) != skip :: ApartAt(from, to, ring, i)
  }

  ghost predicate ApartAt(from: Point, to: Point, ring: seq<Vertex>, i: nat)
    requires i < |ring|
  {
    var (a, b) := (ring[i].at, ring[After(i, |ring|)].at);
    SegmentsMeet(from, to, a, b) ==> ShareAnEnd(from, to, a, b)
  }

  lemma CrossesNothingExactly(from: Point, to: Point, ring: seq<Vertex>, skip: nat)
    ensures CrossesNothing(from, to, ring, skip) <==> MeetsNothing(from, to, ring, skip)
  {
    hide Crosses, SegmentsMeet, ShareAnEnd;
    forall i | 0 <= i < |ring|
      ensures !Crosses(from, to, ring[i].at, ring[After(i, |ring|)].at) <==> ApartAt(from, to, ring, i)
    {
      CrossesExactlyWhenTheyMeet(from, to, ring[i].at, ring[After(i, |ring|)].at);
    }
  }

  ghost predicate IsClear(from: Point, to: Point, chain: seq<Vertex>, hole: seq<Vertex>, entry: nat, target: nat) {
    && from != to
    && MeetsNothing(from, to, chain, target) && MeetsNothing(from, to, hole, entry)
    && Winding(Places(chain), Along(from, to, 0.5)) % 2 == 1
    && Winding(Places(hole), Along(from, to, 0.5)) % 2 == 0
  }

  /**
   A bridge passes the test exactly when it has two different ends, meets neither ring except at ends,
   and its middle is wound around an odd number of times by the chain and an even number by the hole.
   */
  lemma ReachesExactlyWhenClear(chain: seq<Vertex>, hole: seq<Vertex>, entry: nat, target: nat)
    requires entry < |hole| && target < |chain|
    ensures Reaches(chain, hole, entry, target)
       <==> IsClear(hole[entry].at, chain[target].at, chain, hole, entry, target)
  {
    hide CrossesNothing, MeetsNothing, Encloses, Winding, Distance2, Midpoint, Along;
    var (from, to) := (hole[entry].at, chain[target].at);
    DistanceZero(from, to);
    MiddleIsHalfway(from, to);
    CrossesNothingExactly(from, to, chain, target);
    CrossesNothingExactly(from, to, hole, entry);
    WindingExact(Places(chain), Midpoint(from, to));
    WindingExact(Places(hole), Midpoint(from, to));
  }

  lemma MiddleIsHalfway(from: Point, to: Point)
    ensures Midpoint(from, to) == Along(from, to, 0.5)
  {
  }
}
