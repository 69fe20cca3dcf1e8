/** Ear clipping of one closed chain of vertices. */
module Clipping {
  import opened Options
  import opened Geometry
  import opened EdgeSums
  import opened RingMeasures
  import opened Sums

  /** One vertex of the working chain: its index in the caller's own list, and its place. */
  datatype Vertex = Vertex(origin: nat, at: Point)

  datatype Triangle = Triangle(a: Vertex, b: Vertex, c: Vertex)

  /** A returned triangle: three indices into the caller's list. */
  datatype Indices = Indices(a: nat, b: nat, c: nat)

  function Places(ring: seq<Vertex>): (places: seq<Point>)
    ensures |places| == |ring|
    ensures forall i :: 0 <= i < |ring| ==> places[i] == ring[i].at
  {
    seq(|ring|, i requires 0 <= i < |ring| => ring[i].at)
  }

  function TriangleIndices(t: Triangle): Indices {
    Indices(t.a.origin, t.b.origin, t.c.origin)
  }

  function AllIndices(ts: seq<Triangle>): (r: seq<Indices>)
    ensures |r| == |ts|
    ensures forall i :: 0 <= i < |ts| ==> r[i] == TriangleIndices(ts[i])
  {
    seq(|ts|, i requires 0 <= i < |ts| => TriangleIndices(ts[i]))
  }

  function TwiceArea(t: Triangle): real {
    Cross(t.a.at, t.b.at, t.c.at)
  }

  /** The corner at position k with its two neighbours. */
  function CornerAt(ring: seq<Vertex>, k: nat): Triangle
    requires k < |ring|
  {
    Triangle(ring[Before(k, |ring|)], ring[k], ring[After(k, |ring|)])
  }

  /** Some vertex other than the corners themselves lies in or on the triangle. */
  predicate Blocked(ring: seq<Vertex>, t: Triangle) {
    exists j :: 0 <= j < |ring|
                && ring[j].at != t.a.at && ring[j].at != t.b.at && ring[j].at != t.c.at
                && InsideTriangle(t.a.at, t.b.at, t.c.at, ring[j].at)
  }

  predicate IsEar(ring: seq<Vertex>, k: nat)
    requires k < |ring|
  {
    TwiceArea(CornerAt(ring, k)) > 0.0 && !Blocked(ring, CornerAt(ring, k))
  }

  ghost predicate HasNoEar(ring: seq<Vertex>) {
    forall k :: 0 <= k < |ring| ==> !IsEar(ring, k)
  }

  /** The triangle left at the end, unless it is flat. It may wind either way. */
  function LastTriangle(ring: seq<Vertex>): seq<Triangle> {
    if |ring| == 3 && TwiceArea(Triangle(ring[0], ring[1], ring[2])) != 0.0
    then [Triangle(ring[0], ring[1], ring[2])]
    else []
  }

  function Prepend(done: seq<Triangle>, rest: Option<seq<Triangle>>): Option<seq<Triangle>> {
    if rest.None? then None else Some(done + rest.value)
  }

  /** The clip from one state of the search; None is a search that went all the way round in vain. */
  function Clip(ring: seq<Vertex>, cursor: nat, failures: nat): Option<seq<Triangle>>
    requires |ring| > 3 ==> cursor < |ring| && failures <= |ring| + 1
    decreases |ring|, |ring| + 1 - failures
  {
    if |ring| <= 3 then Some(LastTriangle(ring))
    else if failures > |ring| then None
    else if IsEar(ring, cursor) then
      Prepend([CornerAt(ring, cursor)], Clip(Without(ring, cursor), cursor % (|ring| - 1), 0))
    else Clip(ring, After(cursor, |ring|), failures + 1)
  }

  function ClipChain(chain: seq<Vertex>): Option<seq<Triangle>> {
    Clip(chain, 0, 0)
  }

  // ----- the loop -----

  /** `ring` is the chain's vertices at the remaining positions. */
  ghost predicate Picks(chain: seq<Vertex>, remaining: seq<nat>, ring: seq<Vertex>) {
    && |ring| == |remaining|
    && forall i :: 0 <= i < |remaining| ==> remaining[i] < |chain| && ring[i] == chain[remaining[i]]
  }

  /** Is the corner unfit for an ear because of a vertex that is no corner of it? */
  predicate ContainsOther(chain: seq<Vertex>, remaining: seq<nat>, previous: nat, current: nat, next: nat)
    requires previous < |chain| && current < |chain| && next < |chain|
    requires forall i :: 0 <= i < |remaining| ==> remaining[i] < |chain|
  {
    var (a, b, c) := (chain[previous].at, chain[current].at, chain[next].at);
    exists j :: 0 <= j < |remaining|
                && remaining[j] != previous && remaining[j] != current && remaining[j] != next
                && chain[remaining[j]].at != a && chain[remaining[j]].at != b && chain[remaining[j]].at != c
                && InsideTriangle(a, b, c, chain[remaining[j]].at)
  }

  lemma ContainsOtherIsBlocked(chain: seq<Vertex>, remaining: seq<nat>, ring: seq<Vertex>, k: nat)
    requires Picks(chain, remaining, ring) && k < |ring|
    ensures var n := |remaining|;
            ContainsOther(chain, remaining, remaining[Before(k, n)], remaining[k], remaining[After(k, n)])
            <==> Blocked(ring, CornerAt(ring, k))
  {
    var n := |remaining|;
    var t := CornerAt(ring, k);
    if Blocked(ring, t) {
      var j :| 0 <= j < n && ring[j].at != t.a.at && ring[j].at != t.b.at && ring[j].at != t.c.at
               && InsideTriangle(t.a.at, t.b.at, t.c.at, ring[j].at);
      assert chain[remaining[j]].at == ring[j].at;
    }
    if ContainsOther(chain, remaining, remaining[Before(k, n)], remaining[k], remaining[After(k, n)]) {
      var j :| 0 <= j < n
               && chain[remaining[j]].at != t.a.at && chain[remaining[j]].at != t.b.at
               && chain[remaining[j]].at != t.c.at
               && InsideTriangle(t.a.at, t.b.at, t.c.at, chain[remaining[j]].at);
      assert ring[j].at == chain[remaining[j]].at;
    }
  }

  /** The loop's test of the vertex at `cursor`. */
  predicate CanClip(chain: seq<Vertex>, remaining: seq<nat>, cursor: nat)
    requires forall i :: 0 <= i < |remaining| ==> remaining[i] < |chain|
    requires cursor < |remaining|
  {
    var count := |remaining|;
    var (previous, current) := (remaining[Before(cursor, count)], remaining[cursor]);
    var next := remaining[After(cursor, count)];
    && Cross(chain[previous].at, chain[current].at, chain[next].at) > 0.0
    && !ContainsOther(chain, remaining, previous, current, next)
  }

  lemma CanClipIsEar(chain: seq<Vertex>, remaining: seq<nat>, ring: seq<Vertex>, cursor: nat)
    requires Picks(chain, remaining, ring) && cursor < |ring|
    ensures CanClip(chain, remaining, cursor) <==> IsEar(ring, cursor)
  {
    ContainsOtherIsBlocked(chain, remaining, ring, cursor);
  }

  lemma AllIndicesSnoc(done: seq<Triangle>, t: Triangle)
    ensures AllIndices(done + [t]) == AllIndices(done) + [TriangleIndices(t)]
  {
  }

  /** What one turn of the loop does to the answer still to come. */
  lemma ClipTurn(done: seq<Triangle>, ring: seq<Vertex>, cursor: nat, failures: nat)
    requires |ring| > 3 && cursor < |ring| && failures <= |ring|
    ensures Prepend(done, Clip(ring, cursor, failures))
         == if IsEar(ring, cursor)
            then Prepend(done + [CornerAt(ring, cursor)], Clip(Without(ring, cursor), cursor % (|ring| - 1), 0))
            else Prepend(done, Clip(ring, After(cursor, |ring|), failures + 1))
  {
    if IsEar(ring, cursor) {
      var t := CornerAt(ring, cursor);
      var rest := Clip(Without(ring, cursor), cursor % (|ring| - 1), 0);
      if rest.Some? {
        assert done + ([t] + rest.value) == done + [t] + rest.value;
      }
    }
  }

  lemma ClipEnd(done: seq<Triangle>, ring: seq<Vertex>, cursor: nat, failures: nat)
    requires |ring| <= 3
    ensures Prepend(done, Clip(ring, cursor, failures)) == Some(done + LastTriangle(ring))
  {
  }

  /** What the loop keeps: the answer is what was pushed, then whatever the clip of the rest will be. */
  ghost predicate Searching(chain: seq<Vertex>, remaining: seq<nat>, cursor: nat, failures: nat,
                            triangles: seq<Indices>, ring: seq<Vertex>, done: seq<Triangle>)
  {
    && Picks(chain, remaining, ring)
    && (|ring| > 3 ==> cursor < |ring| && failures <= |ring| + 1)
    && triangles == AllIndices(done)
    && ClipChain(chain) == Prepend(done, Clip(ring, cursor, failures))
  }

  function IndicesAt(chain: seq<Vertex>, remaining: seq<nat>, cursor: nat): Indices
    requires forall i :: 0 <= i < |remaining| ==> remaining[i] < |chain|
    requires cursor < |remaining|
  {
    var count := |remaining|;
    Indices(chain[remaining[Before(cursor, count)]].origin, chain[remaining[cursor]].origin,
            chain[remaining[After(cursor, count)]].origin)
  }

  lemma TakesTheEar(chain: seq<Vertex>, remaining: seq<nat>, cursor: nat, failures: nat,
                    triangles: seq<Indices>, ring: seq<Vertex>, done: seq<Triangle>)
    requires Searching(chain, remaining, cursor, failures, triangles, ring, done)
    requires |ring| > 3 && failures <= |ring| && CanClip(chain, remaining, cursor)
    ensures Searching(chain, Without(remaining, cursor), cursor % (|ring| - 1), 0,
                      triangles + [IndicesAt(chain, remaining, cursor)],
                      Without(ring, cursor), done + [CornerAt(ring, cursor)])
  {
    CanClipIsEar(chain, remaining, ring, cursor);
    ClipTurn(done, ring, cursor, failures);
    AllIndicesSnoc(done, CornerAt(ring, cursor));
  }

  lemma MovesOn(chain: seq<Vertex>, remaining: seq<nat>, cursor: nat, failures: nat,
                triangles: seq<Indices>, ring: seq<Vertex>, done: seq<Triangle>)
    requires Searching(chain, remaining, cursor, failures, triangles, ring, done)
    requires |ring| > 3 && failures <= |ring| && !CanClip(chain, remaining, cursor)
    ensures Searching(chain, remaining, After(cursor, |ring|), failures + 1, triangles, ring, done)
  {
    CanClipIsEar(chain, remaining, ring, cursor);
    ClipTurn(done, ring, cursor, failures);
  }

  lemma GivesUp(chain: seq<Vertex>, remaining: seq<nat>, cursor: nat, failures: nat,
                triangles: seq<Indices>, ring: seq<Vertex>, done: seq<Triangle>)
    requires Searching(chain, remaining, cursor, failures, triangles, ring, done)
    requires |ring| > 3 && failures > |ring|
    ensures ClipChain(chain).None?
  {
  }

  lemma StartsSearching(chain: seq<Vertex>, remaining: seq<nat>)
    requires |remaining| == |chain| && forall i :: 0 <= i < |chain| ==> remaining[i] == i
    ensures Searching(chain, remaining, 0, 0, [], chain, [])
  {
    assert forall rest: seq<Triangle> :: [] + rest == rest;
  }

  /** Ear-clip one chain: every triangle of a finished clip, or nothing at all. */
  method ClipEars(chain: seq<Vertex>) returns (triangles: seq<Indices>)
    ensures triangles == if ClipChain(chain).Some? then AllIndices(ClipChain(chain).value) else []
  {
    var remaining: seq<nat> := seq(|chain|, i => i);
    triangles := [];
    var withoutProgress: nat := 0;
    var cursor: nat := 0;
    ghost var (ring, done) := (chain, []);
    StartsSearching(chain, remaining);
    while |remaining| > 3
      invariant Searching(chain, remaining, cursor, withoutProgress, triangles, ring, done)
      decreases |remaining|, |remaining| + 1 - withoutProgress
    {
      if withoutProgress > |remaining| {
        GivesUp(chain, remaining, cursor, withoutProgress, triangles, ring, done);
        return [];
      }
      if CanClip(chain, remaining, cursor) {
        TakesTheEar(chain, remaining, cursor, withoutProgress, triangles, ring, done);
        ring, done := Without(ring, cursor), done + [CornerAt(ring, cursor)];
        triangles := triangles + [IndicesAt(chain, remaining, cursor)];
        remaining := Without(remaining, cursor);
        cursor := cursor % |remaining|;
        withoutProgress := 0;
      } else {
        MovesOn(chain, remaining, cursor, withoutProgress, triangles, ring, done);
        cursor := After(cursor, |remaining|);
        withoutProgress := withoutProgress + 1;
      }
    }
    ClipEnd(done, ring, cursor, withoutProgress);
    triangles := PushLast(chain, remaining, triangles, done, ring);
  }

  /** The last three vertices, pushed unless they are flat. */
  method PushLast(chain: seq<Vertex>, remaining: seq<nat>, pushed: seq<Indices>, ghost done: seq<Triangle>,
      ghost ring: seq<Vertex>)
    returns (triangles: seq<Indices>)
    requires Picks(chain, remaining, ring) && pushed == AllIndices(done)
    ensures triangles == AllIndices(done + LastTriangle(ring))
  {
    triangles := pushed;
    if |remaining| == 3 {
      if Abs(Cross(chain[remaining[0]].at, chain[remaining[1]].at, chain[remaining[2]].at)) > 0.0 {
        AllIndicesSnoc(done, Triangle(ring[0], ring[1], ring[2]));
        triangles := triangles
                   + [Indices(chain[remaining[0]].origin, chain[remaining[1]].origin, chain[remaining[2]].origin)];
      }
    }
    assert LastTriangle(ring) == [] ==> done + LastTriangle(ring) == done;
  }

  // ----- what a finished clip is -----

  /** Any finished clip: an ear at a time down to three vertices, then the last triangle. */
  ghost predicate Clips(ring: seq<Vertex>, ts: seq<Triangle>)
    decreases |ring|
  {
    if |ring| <= 3 then ts == LastTriangle(ring)
    else ts != [] && exists k :: 0 <= k < |ring| && IsEar(ring, k) && ts[0] == CornerAt(ring, k)
                                 && Clips(Without(ring, k), ts[1..])
  }

  /** `rest` is what some run of ear clips leaves of `ring`. */
  ghost predicate ClipsDownTo(ring: seq<Vertex>, rest: seq<Vertex>)
    decreases |ring|
  {
    ring == rest || exists k :: 0 <= k < |ring| && IsEar(ring, k) && ClipsDownTo(Without(ring, k), rest)
  }

  lemma {:induction false} ClipFollowsEars(ring: seq<Vertex>, cursor: nat, failures: nat)
    requires |ring| > 3 ==> cursor < |ring| && failures <= |ring| + 1
    requires Clip(ring, cursor, failures).Some?
    ensures Clips(ring, Clip(ring, cursor, failures).value)
    decreases |ring|, |ring| + 1 - failures
  {
    if |ring| > 3 {
      if IsEar(ring, cursor) {
        ClipFollowsEars(Without(ring, cursor), cursor % (|ring| - 1), 0);
        var ts := Clip(ring, cursor, failures).value;
        assert ts[1..] == Clip(Without(ring, cursor), cursor % (|ring| - 1), 0).value;
      } else {
        ClipFollowsEars(ring, After(cursor, |ring|), failures + 1);
      }
    }
  }

  /** The position `steps` after `start` around a ring of n. */
  function Around(start: nat, steps: nat, n: nat): (r: nat)
    requires start < n && steps <= n
    ensures r < n
  {
    if start + steps < n then start + steps else start + steps - n
  }

  /** A search that failed since `start` and gives up has looked at every vertex. */
  lemma {:induction false} StallSince(ring: seq<Vertex>, start: nat, failures: nat) returns (rest: seq<Vertex>)
    requires |ring| > 3 && start < |ring| && failures <= |ring|
    requires forall k :: 0 <= k < failures ==> !IsEar(ring, Around(start, k, |ring|))
    requires Clip(ring, Around(start, failures, |ring|), failures).None?
    ensures ClipsDownTo(ring, rest) && |rest| > 3 && HasNoEar(rest)
    decreases |ring|, |ring| + 1 - failures
  {
    var n := |ring|;
    var cursor := Around(start, failures, n);
    if IsEar(ring, cursor) {
      var next := cursor % (n - 1);
      assert Around(next, 0, n - 1) == next;
      rest := StallSince(Without(ring, cursor), next, 0);
    } else if failures < n {
      assert Around(start, failures + 1, n) == After(cursor, n);
      rest := StallSince(ring, start, failures + 1);
    } else {
      rest := ring;
      forall i | 0 <= i < n ensures !IsEar(ring, i) {
        var k := if i >= start then i - start else i - start + n;
        assert Around(start, k, n) == i;
      }
    }
  }

  /** The clip gives up only on a ring, reached by clipping ears, that has no ear left. */
  lemma StalledWithoutEars(chain: seq<Vertex>) returns (rest: seq<Vertex>)
    requires ClipChain(chain).None?
    ensures ClipsDownTo(chain, rest) && |rest| > 3 && HasNoEar(rest)
  {
    rest := StallSince(chain, 0, 0);
  }

  /** The first ear of the ring, in the order of the ring from `start` on. */
  ghost predicate IsFirstEar(ring: seq<Vertex>, start: nat, steps: nat)
    requires start < |ring|
  {
    && steps < |ring| && IsEar(ring, Around(start, steps, |ring|))
    && forall j: nat :: j < steps ==> !IsEar(ring, Around(start, j, |ring|))
  }

  /** The vertex at k taken out, and where the one after it stands then. */
  ghost predicate TakesOut(ring: seq<Vertex>, k: nat, ts: seq<Triangle>)
    requires k < |ring| && |ring| > 3
    decreases |ring|, 0
  {
    ts != [] && ts[0] == CornerAt(ring, k)
    && ClipsInTurn(Without(ring, k), if k == |ring| - 1 then 0 else k, ts[1..])
  }

  /** A clip that always takes the first ear it comes to, going on round from the last one it took. */
  ghost predicate ClipsInTurn(ring: seq<Vertex>, start: nat, ts: seq<Triangle>)
    requires |ring| > 3 ==> start < |ring|
    decreases |ring|, 1
  {
    if |ring| <= 3 then ts == LastTriangle(ring)
    else exists steps: nat :: IsFirstEar(ring, start, steps) && TakesOut(ring, Around(start, steps, |ring|), ts)
  }

  /** The clip from any start is that one: it answers with these triangles exactly when they are what it takes. */
  lemma {:induction false} ClipTakesEarsInTurn(ring: seq<Vertex>, start: nat, ts: seq<Triangle>)
    requires |ring| > 3 ==> start < |ring|
    ensures Clip(ring, start, 0) == Some(ts) <==> ClipsInTurn(ring, start, ts)
    decreases |ring|, |ring| + 2
  {
    if |ring| > 3 {
      assert Around(start, 0, |ring|) == start;
      InTurnSince(ring, start, 0, ts);
    }
  }

  /** No ear among the vertices from `start` on, so many of them. */
  ghost predicate NoEarSince(ring: seq<Vertex>, start: nat, failures: nat)
    requires start < |ring| && failures <= |ring|
  {
    forall j: nat :: j < failures ==> !IsEar(ring, Around(start, j, |ring|))
  }

  lemma FirstEarIsTaken(ring: seq<Vertex>, start: nat, failures: nat, ts: seq<Triangle>)
    requires |ring| > 3 && start < |ring| && failures < |ring| && NoEarSince(ring, start, failures)
    requires IsEar(ring, Around(start, failures, |ring|))
    ensures ClipsInTurn(ring, start, ts) <==> TakesOut(ring, Around(start, failures, |ring|), ts)
  {
    hide IsEar, TakesOut, Around;
    assert IsFirstEar(ring, start, failures);
    hide IsFirstEar, NoEarSince;
    forall steps: nat | IsFirstEar(ring, start, steps) ensures steps == failures {
      OneFirstEar(ring, start, steps, failures);
    }
  }

  lemma OneFirstEar(ring: seq<Vertex>, start: nat, a: nat, b: nat)
    requires start < |ring| && IsFirstEar(ring, start, a) && IsFirstEar(ring, start, b)
    ensures a == b
  {
  }

  lemma NoEarToTake(ring: seq<Vertex>, start: nat, ts: seq<Triangle>)
    requires |ring| > 3 && start < |ring| && NoEarSince(ring, start, |ring|)
    ensures !ClipsInTurn(ring, start, ts)
  {
    hide IsEar, TakesOut, Around;
    forall steps: nat ensures !IsFirstEar(ring, start, steps) {
      assert steps < |ring| ==> !IsEar(ring, Around(start, steps, |ring|));
    }
  }

  lemma AroundOnce(start: nat, n: nat)
    requires start < n
    ensures Around(start, n, n) == start == Around(start, 0, n)
  {
  }

  lemma SearchEnds(ring: seq<Vertex>, start: nat)
    requires |ring| > 3 && start < |ring| && !IsEar(ring, start)
    ensures Clip(ring, start, |ring|) == None
  {
    assert Clip(ring, After(start, |ring|), |ring| + 1) == None;
  }

  lemma {:induction false} InTurnSince(ring: seq<Vertex>, start: nat, failures: nat, ts: seq<Triangle>)
    requires |ring| > 3 && start < |ring| && failures <= |ring| && NoEarSince(ring, start, failures)
    ensures Clip(ring, Around(start, failures, |ring|), failures) == Some(ts) <==> ClipsInTurn(ring, start, ts)
    decreases |ring|, |ring| + 1 - failures
  {
    var n := |ring|;
    var k := Around(start, failures, n);
    if failures == n {
      AroundOnce(start, n);
      NoEarToTake(ring, start, ts);
      NotFirstEar(ring, start);
      SearchEnds(ring, start);
    } else if IsEar(ring, k) {
      hide IsEar, ClipsInTurn, Clip, Around, NoEarSince;
      FirstEarIsTaken(ring, start, failures, ts);
      EarTakenInTurn(ring, k, failures, ts);
    } else {
      NoEarYet(ring, start, failures);
      hide IsEar, ClipsInTurn, Clip, Around, NoEarSince;
      InTurnSince(ring, start, failures + 1, ts);
      GoesOn(ring, k, failures);
    }
  }

  lemma NotFirstEar(ring: seq<Vertex>, start: nat)
    requires |ring| > 0 && start < |ring| && NoEarSince(ring, start, |ring|)
    ensures !IsEar(ring, start)
  {
    hide IsEar;
    assert !IsEar(ring, Around(start, 0, |ring|));
  }

  lemma NoEarYet(ring: seq<Vertex>, start: nat, failures: nat)
    requires start < |ring| && failures < |ring| && NoEarSince(ring, start, failures)
    requires !IsEar(ring, Around(start, failures, |ring|))
    ensures NoEarSince(ring, start, failures + 1)
    ensures Around(start, failures + 1, |ring|) == After(Around(start, failures, |ring|), |ring|)
  {
    hide IsEar;
  }

  lemma {:induction false} EarTakenInTurn(ring: seq<Vertex>, k: nat, failures: nat, ts: seq<Triangle>)
    requires |ring| > 3 && k < |ring| && failures <= |ring| && IsEar(ring, k)
    ensures Clip(ring, k, failures) == Some(ts) <==> TakesOut(ring, k, ts)
    decreases |ring|, 0
  {
    hide IsEar, ClipsInTurn, Clip, CornerAt;
    TakenOut(ring, k, failures, ts);
    NextStart(k, |ring|);
    if ts != [] {
      ClipTakesEarsInTurn(Without(ring, k), k % (|ring| - 1), ts[1..]);
    }
  }

  lemma NextStart(k: nat, n: nat)
    requires k < n && n > 1
    ensures k % (n - 1) == if k == n - 1 then 0 else k
  {
  }

  lemma GoesOn(ring: seq<Vertex>, k: nat, failures: nat)
    requires |ring| > 3 && k < |ring| && failures <= |ring| && !IsEar(ring, k)
    ensures Clip(ring, k, failures) == Clip(ring, After(k, |ring|), failures + 1)
  {
  }

  lemma TakenOut(ring: seq<Vertex>, k: nat, failures: nat, ts: seq<Triangle>)
    requires |ring| > 3 && k < |ring| && failures <= |ring| && IsEar(ring, k)
    ensures Clip(ring, k, failures) == Some(ts)
       <==> ts != [] && ts[0] == CornerAt(ring, k) && Clip(Without(ring, k), k % (|ring| - 1), 0) == Some(ts[1..])
  {
    hide IsEar;
    var rest := Clip(Without(ring, k), k % (|ring| - 1), 0);
    if rest.Some? {
      var all := [CornerAt(ring, k)] + rest.value;
      assert all[0] == CornerAt(ring, k) && all[1..] == rest.value;
      assert ts != [] ==> ts == [ts[0]] + ts[1..];
    }
  }

  lemma FirstClip(ring: seq<Vertex>, ts: seq<Triangle>) returns (k: nat)
    requires |ring| > 3 && Clips(ring, ts)
    ensures k < |ring| && IsEar(ring, k) && TwiceArea(CornerAt(ring, k)) > 0.0
    ensures ts == [CornerAt(ring, k)] + ts[1..] && Clips(Without(ring, k), ts[1..])
  {
    k :| 0 <= k < |ring| && IsEar(ring, k) && ts[0] == CornerAt(ring, k) && Clips(Without(ring, k), ts[1..]);
  }

  /** All but the last triangle of a full clip, which may wind either way. */
  function EarsOf(ring: seq<Vertex>, ts: seq<Triangle>): seq<Triangle>
    requires 3 <= |ring| <= |ts| + 3
  {
    ts[..|ring| - 3]
  }

  ghost predicate AllCounterClockwise(ts: seq<Triangle>) {
    forall t :: t in ts ==> TwiceArea(t) > 0.0
  }

  /** n - 3 counter-clockwise ears, then at most one more triangle, which is not flat. */
  lemma {:induction false} ClipsShape(ring: seq<Vertex>, ts: seq<Triangle>)
    requires |ring| >= 3 && Clips(ring, ts)
    ensures |ring| - 3 <= |ts| <= |ring| - 2
    ensures AllCounterClockwise(EarsOf(ring, ts))
    ensures |ts| == |ring| - 2 ==> TwiceArea(ts[|ts| - 1]) != 0.0
    decreases |ring|
  {
    if |ring| > 3 {
      var k := FirstClip(ring, ts);
      var (t, rest) := (CornerAt(ring, k), Without(ring, k));
      ClipsShape(rest, ts[1..]);
      assert EarsOf(ring, ts) == [t] + EarsOf(rest, ts[1..]);
    }
  }

  ghost predicate CornersIn(ts: seq<Triangle>, ring: seq<Vertex>) {
    forall t :: t in ts ==> t.a in ring && t.b in ring && t.c in ring
  }

  /** Every corner of every triangle is a vertex of the ring. */
  lemma {:induction false} ClipsCorners(ring: seq<Vertex>, ts: seq<Triangle>)
    requires |ring| >= 3 && Clips(ring, ts)
    ensures CornersIn(ts, ring)
    decreases |ring|
  {
    if |ring| > 3 {
      var k := FirstClip(ring, ts);
      ClipsCorners(Without(ring, k), ts[1..]);
      assert forall v :: v in Without(ring, k) ==> v in ring;
    }
  }

  function TriangleWeight(w: Weight): Triangle -> real {
    (t: Triangle) => TriangleSum(w, t.a.at, t.b.at, t.c.at)
  }

  function SumOver(w: Weight, ts: seq<Triangle>): real {
    RealSum(TriangleWeight(w), ts)
  }

  /** The weight of a flat triangle is nothing. */
  ghost predicate FlatVanishes(w: Weight) {
    forall a: Point, b: Point, c: Point :: Cross(a, b, c) == 0.0 ==> TriangleSum(w, a, b, c) == 0.0
  }

  lemma LastTriangleConserves(w: Weight, ring: seq<Vertex>)
    requires FlatVanishes(w) && |ring| == 3
    ensures SumOver(w, LastTriangle(ring)) == CycleSum(w, Places(ring))
  {
    var (a, b, c) := (ring[0].at, ring[1].at, ring[2].at);
    assert Places(ring) == [a, b, c];
    CycleSumOfTriangle(w, a, b, c);
    if TwiceArea(Triangle(ring[0], ring[1], ring[2])) == 0.0 {
      assert Cross(a, b, c) == 0.0;
    } else {
      var t := Triangle(ring[0], ring[1], ring[2]);
      assert LastTriangle(ring) == [t] && [t][1..] == [];
      assert RealSum(TriangleWeight(w), [t]) == TriangleWeight(w)(t) + RealSum(TriangleWeight(w), [t][1..]);
    }
  }

  lemma CutConserves(w: Weight, ring: seq<Vertex>, k: nat)
    requires Antisymmetric(w) && |ring| > 3 && k < |ring|
    ensures var t := CornerAt(ring, k);
            CycleSum(w, Places(ring)) == TriangleSum(w, t.a.at, t.b.at, t.c.at) + CycleSum(w, Places(Without(ring, k)))
  {
    assert Places(Without(ring, k)) == Without(Places(ring), k);
    CycleSumWithout(w, Places(ring), k);
  }

  /** Whatever the chain, a finished clip conserves every antisymmetric edge sum that ignores flat triangles. */
  lemma {:induction false} ClipsConserve(w: Weight, ring: seq<Vertex>, ts: seq<Triangle>)
    requires Antisymmetric(w) && FlatVanishes(w)
    requires |ring| >= 3 && Clips(ring, ts)
    ensures SumOver(w, ts) == CycleSum(w, Places(ring))
    decreases |ring|
  {
    if |ring| == 3 {
      LastTriangleConserves(w, ring);
    } else {
      var k := FirstClip(ring, ts);
      ClipsConserve(w, Without(ring, k), ts[1..]);
      CutConserves(w, ring, k);
    }
  }

  lemma AreaFlatVanishes()
    ensures FlatVanishes(AreaTerm)
  {
    forall a: Point, b: Point, c: Point ensures TriangleSum(AreaTerm, a, b, c) == Cross(a, b, c) {
      AreaOfTriangle(a, b, c);
    }
  }

  lemma WindingFlatVanishes(p: Point)
    ensures FlatVanishes(WindingTerm(p))
  {
    forall a: Point, b: Point, c: Point | Cross(a, b, c) == 0.0
      ensures TriangleSum(WindingTerm(p), a, b, c) == 0.0
    {
      WindingOfTriangle(p, a, b, c);
    }
  }

  /** The two oracle loops of the source. */
  method ComputeSignedArea2(polygon: seq<Point>) returns (total: real)
    ensures total == SignedArea2(polygon)
  {
    total := 0.0;
    var index := 0;
    ghost var w := AreaTerm;
    while index < |polygon|
      invariant 0 <= index <= |polygon|
      invariant total == if index == |polygon| then CycleSum(w, polygon) else PathSum(w, polygon[..index + 1])
    {
      var (current, next) := (polygon[index], polygon[After(index, |polygon|)]);
      if index + 1 < |polygon| {
        assert polygon[..index + 2] == polygon[..index + 1] + [next];
        PathSumSnoc(w, polygon[..index + 1], next);
      } else {
        assert polygon[..index + 1] == polygon;
      }
      total := total + (current.x * next.y - next.x * current.y);
      index := index + 1;
    }
  }

  lemma {:induction false} HitParitySnoc(path: seq<Point>, q: Point, p: Point)
    requires path != []
    ensures HitParity(path + [q], p) <==> (HitParity(path, p) != Hit(p, path[|path| - 1], q))
  {
    if |path| == 1 {
      assert (path + [q])[1..] == [q];
    } else {
      assert (path + [q])[1..] == path[1..] + [q];
      HitParitySnoc(path[1..], q, p);
    }
  }

  /** The parity of the ring's first n edges. */
  predicate ParityOfFirst(path: seq<Point>, p: Point, n: nat)
    requires n <= |path|
  {
    if n == |path| then Encloses(path, p) else HitParity(path[..n + 1], p)
  }

  lemma NextEdgeFlips(path: seq<Point>, p: Point, n: nat)
    requires n < |path|
    ensures ParityOfFirst(path, p, n + 1) <==> (ParityOfFirst(path, p, n) != Hit(p, path[n], path[After(n, |path|)]))
  {
    if n + 1 < |path| {
      assert path[..n + 2] == path[..n + 1] + [path[n + 1]];
      HitParitySnoc(path[..n + 1], path[n + 1], p);
    } else {
      assert path[..n + 1] == path;
    }
  }

  method ComputeEncloses(ring: seq<Vertex>, point: Point) returns (inside: bool)
    ensures inside <==> Encloses(Places(ring), point)
  {
    inside := false;
    var index := 0;
    while index < |ring|
      invariant 0 <= index <= |ring|
      invariant inside <==> ParityOfFirst(Places(ring), point, index)
    {
      var (start, end) := (ring[index].at, ring[After(index, |ring|)].at);
      NextEdgeFlips(Places(ring), point, index);
      if (start.y > point.y) != (end.y > point.y) {
        if CrossingX(start, end, point.y) > point.x {
          inside := !inside;
        }
      }
      index := index + 1;
    }
  }
}
