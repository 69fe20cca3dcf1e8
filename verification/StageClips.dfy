/** The clip of a chain that is a stage: it never stalls, and every triangle turns left. */
module StageClips {
  import opened Options
  import opened Geometry
  import opened EdgeSums
  import opened RingMeasures
  import opened Clipping
  import opened SegmentCrossing
  import opened SimpleLoops
  import opened Nearby
  import opened EarWinding
  import opened LowestVertex
  import opened TwoEars
  import opened HungLoops
  import opened ChainStages

  /** The search's test of a corner is the geometric one, coincident vertices included. */
  lemma EarOfPlaces(ring: seq<Vertex>, k: nat)
    requires |ring| >= 3 && k < |ring|
    ensures IsEar(ring, k) <==> IsEarOf(Places(ring), k)
  {
    hide Cross, InsideTriangle;
    var (places, t) := (Places(ring), CornerAt(ring, k));
    if IsEar(ring, k) {
      forall p | p in places ensures p == t.b.at || IsClearOf(t.a.at, t.b.at, t.c.at, p) {
        var j :| 0 <= j < |ring| && ring[j].at == p;
      }
    }
    if IsEarOf(places, k) {
      forall j | 0 <= j < |ring|
        ensures ring[j].at in {t.a.at, t.b.at, t.c.at} || !InsideTriangle(t.a.at, t.b.at, t.c.at, ring[j].at)
      {
        assert places[j] in places;
      }
    }
  }

  lemma PlacesWithout(ring: seq<Vertex>, k: nat)
    requires k < |ring|
    ensures Places(Without(ring, k)) == Without(Places(ring), k)
  {
  }

  lemma ClipKeepsPlaces(ring: seq<Vertex>, k: nat)
    requires |ring| > 3 && k < |ring| && IsStage(Places(ring)) && IsEar(ring, k)
    ensures IsStage(Places(Without(ring, k)))
  {
    hide IsStage, IsEar, IsEarOf;
    EarOfPlaces(ring, k);
    ClipKeepsStage(Places(ring), k);
    PlacesWithout(ring, k);
  }

  lemma {:induction false} StageDownTo(ring: seq<Vertex>, rest: seq<Vertex>)
    requires IsStage(Places(ring)) && ClipsDownTo(ring, rest) && |rest| > 3
    ensures IsStage(Places(rest)) && |rest| <= |ring|
    decreases |ring|
  {
    hide IsEar, IsStage;
    if ring != rest {
      var k :| 0 <= k < |ring| && IsEar(ring, k) && ClipsDownTo(Without(ring, k), rest);
      if |ring| <= 3 {
        ShrinksOnly(Without(ring, k), rest);
      } else {
        ClipKeepsPlaces(ring, k);
        StageDownTo(Without(ring, k), rest);
      }
    }
  }

  lemma {:induction false} ShrinksOnly(ring: seq<Vertex>, rest: seq<Vertex>)
    requires ClipsDownTo(ring, rest)
    ensures |rest| <= |ring|
    decreases |ring|
  {
    if ring != rest {
      var k :| 0 <= k < |ring| && IsEar(ring, k) && ClipsDownTo(Without(ring, k), rest);
      ShrinksOnly(Without(ring, k), rest);
    }
  }

  lemma StageIsNotStalled(ring: seq<Vertex>)
    requires |ring| > 3 && IsStage(Places(ring))
    ensures !HasNoEar(ring)
  {
    hide IsStage, IsEar, IsEarOf;
    StageHasEar(Places(ring));
    var k: nat :| k < |ring| && IsEarOf(Places(ring), k);
    EarOfPlaces(ring, k);
  }

  lemma {:induction false} StageTurnsLeft(ring: seq<Vertex>, ts: seq<Triangle>)
    requires IsStage(Places(ring)) && Clips(ring, ts)
    ensures |ring| >= 3 && |ts| == |ring| - 2 && AllCounterClockwise(ts)
    decreases |ring|
  {
    hide IsStage, IsEar, Cross;
    if |ring| <= 3 {
      SmallStage(Places(ring));
    } else {
      var k := FirstClip(ring, ts);
      ClipKeepsPlaces(ring, k);
      StageTurnsLeft(Without(ring, k), ts[1..]);
    }
  }

  /** Wherever it starts, the clip of a stage never stalls, and all n - 2 triangles turn left. */
  lemma StageClip(ring: seq<Vertex>, cursor: nat)
    requires IsStage(Places(ring)) && cursor < |ring|
    ensures Clip(ring, cursor, 0).Some?
    ensures |Clip(ring, cursor, 0).value| == |ring| - 2
    ensures AllCounterClockwise(Clip(ring, cursor, 0).value)
  {
    hide IsStage, Clips, Clip, AllCounterClockwise, HasNoEar;
    ClipOfThree(ring, cursor);
    if Clip(ring, cursor, 0).None? {
      var rest := StallSince(ring, cursor, 0);
      StageDownTo(ring, rest);
      StageIsNotStalled(rest);
    } else {
      ClipFollowsEars(ring, cursor, 0);
      StageTurnsLeft(ring, Clip(ring, cursor, 0).value);
    }
  }

  lemma ClipOfThree(ring: seq<Vertex>, cursor: nat)
    requires cursor < |ring|
    ensures |ring| <= 3 ==> Clip(ring, cursor, 0).Some?
  {
  }
}
