/** Walking the edges that name one face into rings, and exactly when that succeeds. */
module EdgeRings {
  type Edge = nat

  /** One edge: the two faces it names, and where the ring around each continues. */
  datatype Links = Links(face0: nat, face1: nat, next0: nat, next1: nat)

  /** An edge with the side on which it names the face. */
  datatype Use = Use(edge: Edge, side: nat)

  datatype Ring = Ring(start: Edge, terminator: nat, length: nat)

  datatype Refusal = NoEdge | NoHead | CameBack | OtherFace | NotAllUsed

  datatype Verdict = Rings(rings: seq<Ring>) | Refused(why: Refusal)

  function FaceOn(l: Links, side: nat): nat {
    if side == 0 then l.face0 else l.face1
  }

  function NextOn(l: Links, side: nat): nat {
    if side == 0 then l.next0 else l.next1
  }

  predicate Names(l: Links, face: nat) {
    l.face0 == face || l.face1 == face
  }

  /** The side by which a step arrives: the first that names the face. */
  function SideOf(l: Links, face: nat): nat {
    if l.face0 == face then 0 else 1
  }

  // ----- the face as a graph -----

  function FaceEdges(face: nat, links: map<Edge, Links>): (r: set<Edge>)
    ensures forall e :: e in r ==> e in links
  {
    set e | e in links && Names(links[e], face)
  }

  function NextOf(face: nat, links: map<Edge, Links>, e: Edge): nat
    requires e in links
  {
    NextOn(links[e], SideOf(links[e], face))
  }

  /** What the caller hands over: every edge and side that names the face, each once. */
  ghost predicate AllUses(face: nat, edges: seq<Use>, links: map<Edge, Links>) {
    && (forall u :: u in edges <==> u.edge in links && u.side < 2 && FaceOn(links[u.edge], u.side) == face)
    && (forall i, j :: 0 <= i < j < |edges| ==> edges[i] != edges[j])
  }

  ghost predicate NamedOnce(face: nat, links: map<Edge, Links>) {
    forall e :: e in FaceEdges(face, links) ==> links[e].face0 != links[e].face1
  }

  ghost predicate StaysOnFace(face: nat, links: map<Edge, Links>) {
    forall e :: e in FaceEdges(face, links) && NextOf(face, links, e) in links ==>
      NextOf(face, links, e) in FaceEdges(face, links)
  }

  ghost predicate Injective(face: nat, links: map<Edge, Links>) {
    forall a, b | a in FaceEdges(face, links) && b in FaceEdges(face, links)
      :: NextOf(face, links, a) in FaceEdges(face, links) && NextOf(face, links, a) == NextOf(face, links, b) ==> a == b
  }

  /** Consecutive edges of the face, each stepping onto the one after it. */
  ghost predicate IsWalk(face: nat, links: map<Edge, Links>, walk: seq<Edge>) {
    && (forall i :: 0 <= i < |walk| ==> walk[i] in FaceEdges(face, links))
    && (forall i :: 0 <= i < |walk| - 1 ==> NextOf(face, links, walk[i]) == walk[i + 1])
  }

  ghost predicate IsCycle(face: nat, links: map<Edge, Links>, walk: seq<Edge>) {
    walk != [] && IsWalk(face, links, walk) && NextOf(face, links, walk[|walk| - 1]) == walk[0]
  }

  ghost predicate Acyclic(face: nat, links: map<Edge, Links>) {
    forall walk :: !IsCycle(face, links, walk)
  }

  /** What it takes for the face's edges to be rings. */
  ghost predicate FormsRings(face: nat, links: map<Edge, Links>) {
    && FaceEdges(face, links) != {}
    && NamedOnce(face, links)
    && StaysOnFace(face, links)
    && Injective(face, links)
    && Acyclic(face, links)
  }

  // ----- rings as paths -----

  /** A walk that ends by naming something that is no edge. */
  ghost predicate IsPath(face: nat, links: map<Edge, Links>, path: seq<Edge>) {
    path != [] && IsWalk(face, links, path) && NextOf(face, links, path[|path| - 1]) !in links
  }

  /** Each edge of the face is on one path, at one place. */
  ghost predicate Partition(face: nat, links: map<Edge, Links>, paths: seq<seq<Edge>>) {
    && (forall p :: 0 <= p < |paths| ==> IsPath(face, links, paths[p]))
    && Separate(paths)
    && (forall e :: e in FaceEdges(face, links) ==> OnSome(paths, e))
  }

  ghost predicate Separate(paths: seq<seq<Edge>>) {
    forall p, i, q, j | 0 <= p < |paths| && 0 <= i < |paths[p]| && 0 <= q < |paths| && 0 <= j < |paths[q]|
      :: paths[p][i] == paths[q][j] ==> p == q && i == j
  }

  ghost predicate OnSome(paths: seq<seq<Edge>>, e: Edge) {
    exists p :: 0 <= p < |paths| && e in paths[p]
  }

  /** A ring as the verdict reports it: where it starts, what it ends by naming, and how many edges it has. */
  ghost predicate Reports(face: nat, links: map<Edge, Links>, ring: Ring, path: seq<Edge>)
    requires IsPath(face, links, path)
  {
    ring == Ring(path[0], NextOf(face, links, path[|path| - 1]), |path|)
  }

  function TotalLength(rings: seq<Ring>): nat {
    if rings == [] then 0 else TotalLength(rings[..|rings| - 1]) + rings[|rings| - 1].length
  }

  lemma PartitionStays(face: nat, links: map<Edge, Links>, paths: seq<seq<Edge>>)
    requires Partition(face, links, paths)
    ensures StaysOnFace(face, links)
  {
    hide Partition, NextOf, FaceEdges;
    forall e | e in FaceEdges(face, links) && NextOf(face, links, e) in links
      ensures NextOf(face, links, e) in FaceEdges(face, links)
    {
      var p, i := PlaceOf(face, links, paths, e);
      StepsAlong(face, links, paths, p, i);
    }
  }

  lemma PartitionInjective(face: nat, links: map<Edge, Links>, paths: seq<seq<Edge>>)
    requires Partition(face, links, paths)
    ensures Injective(face, links)
  {
    hide NextOf, IsPath;
    forall a, b | a in FaceEdges(face, links) && b in FaceEdges(face, links)
                  && NextOf(face, links, a) in FaceEdges(face, links)
                  && NextOf(face, links, a) == NextOf(face, links, b)
      ensures a == b
    {
      var p, i := PlaceOf(face, links, paths, a);
      var q, j := PlaceOf(face, links, paths, b);
      StepsAlong(face, links, paths, p, i);
      StepsAlong(face, links, paths, q, j);
    }
  }

  lemma PartitionAcyclic(face: nat, links: map<Edge, Links>, paths: seq<seq<Edge>>)
    requires Partition(face, links, paths)
    ensures Acyclic(face, links)
  {
    hide NextOf, IsPath, FaceEdges;
    forall walk ensures !IsCycle(face, links, walk) {
      if IsCycle(face, links, walk) {
        var last := |walk| - 1;
        assert walk[0] in FaceEdges(face, links) && walk[last] in FaceEdges(face, links);
        var p, i := PlaceOf(face, links, paths, walk[0]);
        WalkGoesAlong(face, links, paths, walk, p, i, last);
        StepsAlong(face, links, paths, p, i + last);
      }
    }
  }

  /** Some edge continues, on a side on which it names the face, with an edge of another face. */
  ghost predicate StepsOff(face: nat, links: map<Edge, Links>) {
    exists u: Use :: u.edge in links && u.side < 2 && GoesOff(face, links, u)
  }

  ghost predicate GoesOff(face: nat, links: map<Edge, Links>, u: Use)
    requires u.edge in links
  {
    FaceOn(links[u.edge], u.side) == face && NextOn(links[u.edge], u.side) in links
    && !Names(links[NextOn(links[u.edge], u.side)], face)
  }

  lemma StayingIsNotGoingOff(face: nat, links: map<Edge, Links>)
    requires NamedOnce(face, links) && StaysOnFace(face, links)
    ensures !StepsOff(face, links)
  {
    forall u: Use | u.edge in links && u.side < 2 ensures !GoesOff(face, links, u) {
      assert FaceOn(links[u.edge], u.side) == face ==>
          u.edge in FaceEdges(face, links) && NextOf(face, links, u.edge) == NextOn(links[u.edge], u.side);
    }
  }

  /** From a partition into paths the graph conditions follow. */
  lemma PartitionFormsRings(face: nat, links: map<Edge, Links>, paths: seq<seq<Edge>>)
    requires Partition(face, links, paths)
    ensures StaysOnFace(face, links) && Injective(face, links) && Acyclic(face, links)
  {
    PartitionStays(face, links, paths);
    PartitionInjective(face, links, paths);
    PartitionAcyclic(face, links, paths);
  }

  /** Where the ring continues after an edge, by the side on which the edge names the face. */
  ghost predicate Continues(l: Links, face: nat, next: nat) {
    (l.face0 == face && l.next0 == next) || (l.face0 != face && l.face1 == face && l.next1 == next)
  }

  /** Each edge of a path is continued by the one behind it, and the last by something that is no edge. */
  lemma PathsFollowTheLinks(face: nat, links: map<Edge, Links>, paths: seq<seq<Edge>>, p: nat, i: nat)
    requires Partition(face, links, paths) && p < |paths| && i < |paths[p]|
    ensures paths[p][i] in links
    ensures i + 1 < |paths[p]| ==> Continues(links[paths[p][i]], face, paths[p][i + 1])
    ensures i + 1 == |paths[p]| ==>
              exists terminator :: terminator !in links && Continues(links[paths[p][i]], face, terminator)
  {
    hide Separate, OnSome;
    assert IsPath(face, links, paths[p]) && IsWalk(face, links, paths[p]);
    if i + 1 < |paths[p]| {
      assert NextOf(face, links, paths[p][i]) == paths[p][i + 1];
    } else {
      assert Continues(links[paths[p][i]], face, NextOf(face, links, paths[p][i]));
    }
  }

  /** The paths are maximal at their start too: nothing on the face steps onto one. */
  lemma PathsStartAtHeads(face: nat, links: map<Edge, Links>, paths: seq<seq<Edge>>, p: nat)
    requires Partition(face, links, paths) && p < |paths|
    ensures IsPath(face, links, paths[p]) && !HasPredecessor(face, links, FaceEdges(face, links), paths[p][0])
  {
    hide NextOf, FaceEdges, Separate, OnSome, IsPath, Partition;
    PathIsOnFace(face, links, paths, p);
    forall e | e in FaceEdges(face, links) ensures NextOf(face, links, e) != paths[p][0] {
      NoStepOntoAStart(face, links, paths, p, e);
    }
  }

  lemma PathIsOnFace(face: nat, links: map<Edge, Links>, paths: seq<seq<Edge>>, p: nat)
    requires Partition(face, links, paths) && p < |paths|
    ensures IsPath(face, links, paths[p]) && paths[p] != [] && paths[p][0] in FaceEdges(face, links)
  {
    hide Separate, OnSome, FaceEdges;
    assert IsPath(face, links, paths[p]);
  }

  lemma NoStepOntoAStart(face: nat, links: map<Edge, Links>, paths: seq<seq<Edge>>, p: nat, e: Edge)
    requires Partition(face, links, paths) && p < |paths| && paths[p] != [] && paths[p][0] in FaceEdges(face, links)
    requires e in FaceEdges(face, links)
    ensures NextOf(face, links, e) != paths[p][0]
  {
    hide NextOf, FaceEdges, OnSome, IsPath;
    var q, j := PlaceOf(face, links, paths, e);
    if NextOf(face, links, e) in links {
      StepsAlong(face, links, paths, q, j);
      assert q == p ==> j + 1 != 0;
    }
  }

  lemma PlaceOf(face: nat, links: map<Edge, Links>, paths: seq<seq<Edge>>, e: Edge) returns (p: nat, i: nat)
    requires Partition(face, links, paths) && e in FaceEdges(face, links)
    ensures p < |paths| && i < |paths[p]| && paths[p][i] == e
  {
    assert OnSome(paths, e);
    p :| 0 <= p < |paths| && e in paths[p];
    i :| 0 <= i < |paths[p]| && paths[p][i] == e;
  }

  /** A step onto an edge goes to the next place on the same path. */
  lemma StepsAlong(face: nat, links: map<Edge, Links>, paths: seq<seq<Edge>>, p: nat, i: nat)
    requires Partition(face, links, paths) && p < |paths| && i < |paths[p]|
    requires paths[p][i] in links && NextOf(face, links, paths[p][i]) in links
    ensures paths[p][i] in FaceEdges(face, links) && NextOf(face, links, paths[p][i]) in FaceEdges(face, links)
    ensures i + 1 < |paths[p]| && paths[p][i + 1] == NextOf(face, links, paths[p][i])
  {
    hide NextOf, Separate;
    var path := paths[p];
    assert IsPath(face, links, path) && IsWalk(face, links, path);
    assert i < |path| - 1;
    assert NextOf(face, links, path[i]) == path[i + 1] && path[i + 1] in FaceEdges(face, links);
  }

  lemma {:induction false} WalkGoesAlong(face: nat, links: map<Edge, Links>, paths: seq<seq<Edge>>, walk: seq<Edge>,
                                         p: nat, i: nat, k: nat)
    requires Partition(face, links, paths) && IsWalk(face, links, walk) && k < |walk|
    requires p < |paths| && i < |paths[p]| && paths[p][i] == walk[0]
    ensures i + k < |paths[p]| && paths[p][i + k] == walk[k]
  {
    hide Partition, NextOf;
    if k > 0 {
      WalkGoesAlong(face, links, paths, walk, p, i, k - 1);
      assert NextOf(face, links, walk[k - 1]) == walk[k] && walk[k] in FaceEdges(face, links);
      StepsAlong(face, links, paths, p, i + (k - 1));
    }
  }

  // ----- a set of edges that all have predecessors holds a cycle -----

  /** Read backwards: each edge stepped onto by the one after it. */
  ghost predicate IsRetreat(face: nat, links: map<Edge, Links>, u: set<Edge>, back: seq<Edge>) {
    && (forall i :: 0 <= i < |back| ==> back[i] in u && back[i] in links)
    && (forall i :: 0 <= i < |back| - 1 ==> NextOf(face, links, back[i + 1]) == back[i])
  }

  ghost predicate HasPredecessor(face: nat, links: map<Edge, Links>, u: set<Edge>, e: Edge) {
    exists p :: p in u && p in links && NextOf(face, links, p) == e
  }

  lemma {:induction false} Retreat(face: nat, links: map<Edge, Links>, u: set<Edge>, n: nat) returns (back: seq<Edge>)
    requires u != {} && u <= FaceEdges(face, links)
    requires forall e :: e in u ==> HasPredecessor(face, links, u, e)
    ensures |back| == n + 1 && IsRetreat(face, links, u, back)
  {
    hide FaceEdges, NextOf;
    if n == 0 {
      var e :| e in u;
      back := [e];
    } else {
      var shorter := Retreat(face, links, u, n - 1);
      assert HasPredecessor(face, links, u, shorter[n - 1]);
      var p :| p in u && p in links && NextOf(face, links, p) == shorter[n - 1];
      back := shorter + [p];
    }
  }

  /** More places than things: two places hold the same. */
  lemma {:induction false} Pigeonhole(s: seq<Edge>, u: set<Edge>) returns (first: nat, second: nat)
    requires |s| > |u| && forall i :: 0 <= i < |s| ==> s[i] in u
    ensures first < second < |s| && s[first] == s[second]
    decreases |s|
  {
    var last := |s| - 1;
    if i :| 0 <= i < last && s[i] == s[last] {
      first, second := i, last;
    } else {
      var (t, v) := (s[..last], u - {s[last]});
      assert |v| == |u| - 1;
      forall i | 0 <= i < |t| ensures t[i] in v {
        assert t[i] == s[i];
      }
      first, second := Pigeonhole(t, v);
    }
  }

  lemma PredecessorsEverywhereMeanCycle(face: nat, links: map<Edge, Links>, u: set<Edge>)
    requires u != {} && u <= FaceEdges(face, links)
    requires forall e :: e in u ==> HasPredecessor(face, links, u, e)
    ensures !Acyclic(face, links)
  {
    var back := Retreat(face, links, u, |u|);
    var i, j := Pigeonhole(back, u);
    var n := j - i;
    var walk := seq(n, k requires 0 <= k < n => back[j - k]);
    forall k | 0 <= k < n - 1 ensures NextOf(face, links, walk[k]) == walk[k + 1] {
      assert NextOf(face, links, back[(j - k - 1) + 1]) == back[j - k - 1];
    }
    assert walk[n - 1] == back[i + 1] && NextOf(face, links, back[i + 1]) == back[i];
    assert IsCycle(face, links, walk);
  }

  // ----- counting -----

  function EdgeSet(edges: seq<Use>): set<Edge> {
    set u | u in edges :: u.edge
  }

  ghost predicate DistinctEdges(edges: seq<Use>) {
    forall i, j :: 0 <= i < j < |edges| ==> edges[i].edge != edges[j].edge
  }

  lemma EdgeSetSnoc(front: seq<Use>, last: Use)
    ensures EdgeSet(front + [last]) == EdgeSet(front) + {last.edge}
    ensures DistinctEdges(front + [last]) <==> DistinctEdges(front) && last.edge !in EdgeSet(front)
  {
    var edges := front + [last];
    if DistinctEdges(front) && last.edge !in EdgeSet(front) {
      forall i, j | 0 <= i < j < |edges| ensures edges[i].edge != edges[j].edge {
        assert front[i] in front;
      }
    }
    if DistinctEdges(edges) {
      forall i, j | 0 <= i < j < |front| ensures front[i].edge != front[j].edge {
        assert edges[i] == front[i] && edges[j] == front[j];
      }
      forall u | u in front ensures u.edge != last.edge {
        var i :| 0 <= i < |front| && front[i] == u;
        assert edges[i].edge != edges[|front|].edge;
      }
    }
  }

  /** The edges of a list of uses are as many as the list exactly when no edge is listed twice. */
  lemma {:induction false} EdgesOfUses(edges: seq<Use>)
    ensures |EdgeSet(edges)| <= |edges|
    ensures |EdgeSet(edges)| == |edges| <==> DistinctEdges(edges)
  {
    if edges != [] {
      var (front, last) := (edges[..|edges| - 1], edges[|edges| - 1]);
      EdgesOfUses(front);
      EdgeSetSnoc(front, last);
      hide EdgeSet, DistinctEdges;
      assert edges == front + [last];
    }
  }

  lemma UsesCountEdges(face: nat, edges: seq<Use>, links: map<Edge, Links>)
    requires AllUses(face, edges, links)
    ensures |FaceEdges(face, links)| <= |edges|
    ensures |FaceEdges(face, links)| == |edges| <==> NamedOnce(face, links)
  {
    forall e ensures e in EdgeSet(edges) <==> e in FaceEdges(face, links) {
      if e in FaceEdges(face, links) {
        assert Use(e, SideOf(links[e], face)) in edges;
      }
    }
    assert EdgeSet(edges) == FaceEdges(face, links);
    EdgesOfUses(edges);
    if NamedOnce(face, links) {
      forall i, j | 0 <= i < j < |edges| ensures edges[i].edge != edges[j].edge {
        assert edges[i] in edges && edges[j] in edges;
      }
    } else {
      var e :| e in FaceEdges(face, links) && links[e].face0 == links[e].face1;
      assert Use(e, 0) in edges && Use(e, 1) in edges;
      var i :| 0 <= i < |edges| && edges[i] == Use(e, 0);
      var j :| 0 <= j < |edges| && edges[j] == Use(e, 1);
      assert edges[if i < j then i else j].edge == edges[if i < j then j else i].edge;
    }
  }

  // ----- the walk -----

  function Elements(path: seq<Edge>): set<Edge> {
    set e | e in path
  }

  /** No walk has come back: visited edges are heads, or stepped onto from a visited edge. */
  ghost predicate FromHeads(face: nat, links: map<Edge, Links>, visited: set<Edge>) {
    forall e :: e in visited && HasPredecessor(face, links, FaceEdges(face, links), e) ==>
      HasPredecessor(face, links, visited, e)
  }

  ghost predicate Distinct(path: seq<Edge>) {
    forall i, j :: 0 <= i < j < |path| ==> path[i] != path[j]
  }

  /** What one walk keeps: the edges walked, apart from those of earlier rings, and the edge it stands before. */
  ghost predicate Walking(face: nat, links: map<Edge, Links>, start: Use, before: set<Edge>,
                          visited: set<Edge>, path: seq<Edge>, edge: Edge, side: nat)
  {
    && edge in FaceEdges(face, links) && side < 2
    && visited <= FaceEdges(face, links)
    && before !! Elements(path) && visited == before + Elements(path) && |visited| == |before| + |path|
    && Distinct(path)
    && (path == [] ==> Use(edge, side) == start && edge !in before)
    && (path != [] ==> path[0] == start.edge && side == SideOf(links[edge], face))
    && (NamedOnce(face, links) ==>
          && side == SideOf(links[edge], face)
          && IsWalk(face, links, path)
          && (path != [] ==> NextOf(face, links, path[|path| - 1]) == edge))
  }

  lemma Snoc(path: seq<Edge>, edge: Edge, before: set<Edge>, visited: set<Edge>)
    requires before !! Elements(path) && visited == before + Elements(path) && |visited| == |before| + |path|
    requires Distinct(path) && edge !in visited
    ensures var (v, longer) := (visited + {edge}, path + [edge]);
            before !! Elements(longer) && v == before + Elements(longer) && |v| == |before| + |longer|
                && Distinct(longer)
  {
    assert Elements(path + [edge]) == Elements(path) + {edge};
    assert edge !in Elements(path);
  }

  lemma WalkSnoc(face: nat, links: map<Edge, Links>, path: seq<Edge>, edge: Edge)
    requires IsWalk(face, links, path) && edge in FaceEdges(face, links)
    requires path != [] ==> NextOf(face, links, path[|path| - 1]) == edge
    ensures IsWalk(face, links, path + [edge])
  {
    hide NextOf;
  }

  lemma WalkExtends(face: nat, links: map<Edge, Links>, start: Use, before: set<Edge>,
                    visited: set<Edge>, path: seq<Edge>, edge: Edge, side: nat, next: Edge)
    requires Walking(face, links, start, before, visited, path, edge, side)
    requires edge !in visited && next == NextOn(links[edge], side) && next in FaceEdges(face, links)
    ensures Walking(face, links, start, before, visited + {edge}, path + [edge], next, SideOf(links[next], face))
  {
    hide Elements, IsWalk, Distinct, NamedOnce;
    Snoc(path, edge, before, visited);
    if NamedOnce(face, links) {
      WalkSnoc(face, links, path, edge);
    }
  }

  /** What a finished ring is. */
  ghost predicate Walked(face: nat, links: map<Edge, Links>, start: Use, before: set<Edge>,
                         visited: set<Edge>, path: seq<Edge>, terminator: nat)
  {
    && visited <= FaceEdges(face, links) && start.edge in visited
    && before !! Elements(path) && visited == before + Elements(path) && |visited| == |before| + |path|
    && (NamedOnce(face, links) ==>
          && IsPath(face, links, path) && path[0] == start.edge && Distinct(path)
          && terminator == NextOf(face, links, path[|path| - 1]))
  }

  lemma StartIsVisited(path: seq<Edge>, edge: Edge, start: Use)
    requires (path + [edge])[0] == start.edge
    ensures start.edge in Elements(path + [edge])
  {
  }

  lemma PathEnds(face: nat, links: map<Edge, Links>, path: seq<Edge>, edge: Edge)
    requires IsWalk(face, links, path) && edge in FaceEdges(face, links) && NextOf(face, links, edge) !in links
    requires path != [] ==> NextOf(face, links, path[|path| - 1]) == edge
    ensures IsPath(face, links, path + [edge])
  {
    hide NextOf, IsWalk;
    WalkSnoc(face, links, path, edge);
  }

  lemma WalkEnds(face: nat, links: map<Edge, Links>, start: Use, before: set<Edge>,
                 visited: set<Edge>, path: seq<Edge>, edge: Edge, side: nat)
    requires Walking(face, links, start, before, visited, path, edge, side)
    requires edge !in visited && NextOn(links[edge], side) !in links
    ensures Walked(face, links, start, before, visited + {edge}, path + [edge], NextOn(links[edge], side))
  {
    StartIsVisited(path, edge, start);
    hide FaceEdges, SideOf, Elements, IsWalk, IsPath, Distinct, NamedOnce;
    Snoc(path, edge, before, visited);
    if NamedOnce(face, links) {
      assert NextOf(face, links, edge) == NextOn(links[edge], side);
      PathEnds(face, links, path, edge);
    }
  }

  /** The walk starts at a head, in a face whose edges are named and stepped onto once, with whole rings behind it. */
  ghost predicate GoodStart(face: nat, links: map<Edge, Links>, start: Use, before: set<Edge>) {
    && NamedOnce(face, links) && Injective(face, links) && FromHeads(face, links, before)
    && !HasPredecessor(face, links, FaceEdges(face, links), start.edge)
  }

  lemma WalkStarts(face: nat, links: map<Edge, Links>, start: Use, before: set<Edge>)
    requires before <= FaceEdges(face, links) && start.edge !in before
    requires start.edge in FaceEdges(face, links) && start.side < 2 && FaceOn(links[start.edge], start.side) == face
    ensures Walking(face, links, start, before, before, [], start.edge, start.side)
  {
  }

  /** One ring, from its head until it leaves the edges. */
  method WalkRing(face: nat, links: map<Edge, Links>, start: Use, before: set<Edge>)
    returns (refusal: seq<Refusal>, visited: set<Edge>, terminator: nat, ghost path: seq<Edge>)
    requires before <= FaceEdges(face, links) && start.edge !in before
    requires start.edge in FaceEdges(face, links) && start.side < 2 && FaceOn(links[start.edge], start.side) == face
    ensures refusal == [] || refusal == [CameBack] || refusal == [OtherFace]
    ensures refusal == [] ==> Walked(face, links, start, before, visited, path, terminator)
    ensures refusal == [OtherFace] ==> StepsOff(face, links)
    ensures GoodStart(face, links, start, before) ==>
              refusal != [CameBack] && (refusal == [] ==> FromHeads(face, links, visited))
  {
    hide GoodStart, Walked, StepsOff, FromHeads, NamedOnce, IsWalk, Distinct;
    visited := before;
    path := [];
    var (edge, side) := (start.edge, start.side);
    WalkStarts(face, links, start, before);
    while true
      invariant Walking(face, links, start, before, visited, path, edge, side)
      decreases FaceEdges(face, links) - visited
    {
      if GoodStart(face, links, start, before) {
        NeverComesBack(face, links, start, before, visited, path, edge, side);
      }
      if edge in visited {
        return [CameBack], visited, 0, path;
      }
      var next := NextOn(links[edge], side);
      if next !in links {
        WalkEnds(face, links, start, before, visited, path, edge, side);
        visited := visited + {edge};
        path := path + [edge];
        if GoodStart(face, links, start, before) {
          EndsFromHead(face, links, start, before, visited, path, next);
        }
        return [], visited, next, path;
      }
      if links[next].face0 == face {
        WalkExtends(face, links, start, before, visited, path, edge, side, next);
        side := 0;
      } else if links[next].face1 == face {
        WalkExtends(face, links, start, before, visited, path, edge, side, next);
        side := 1;
      } else {
        LeavesTheFace(face, links, start, before, visited, path, edge, side);
        return [OtherFace], visited, 0, path;
      }
      visited := visited + {edge};
      path := path + [edge];
      edge := next;
    }
  }

  lemma EndsFromHead(face: nat, links: map<Edge, Links>, start: Use, before: set<Edge>,
                     visited: set<Edge>, path: seq<Edge>, terminator: nat)
    requires GoodStart(face, links, start, before) && Walked(face, links, start, before, visited, path, terminator)
    ensures FromHeads(face, links, visited)
  {
    hide FromHeads, HasPredecessor;
    PathFromHead(face, links, before, path);
  }

  lemma LeavesTheFace(face: nat, links: map<Edge, Links>, start: Use, before: set<Edge>,
                      visited: set<Edge>, path: seq<Edge>, edge: Edge, side: nat)
    requires Walking(face, links, start, before, visited, path, edge, side)
    requires start.edge in links && FaceOn(links[start.edge], start.side) == face
    requires NextOn(links[edge], side) in links && !Names(links[NextOn(links[edge], side)], face)
    ensures StepsOff(face, links)
  {
    assert GoesOff(face, links, Use(edge, side));
  }

  lemma NeverComesBack(face: nat, links: map<Edge, Links>, start: Use, before: set<Edge>,
                       visited: set<Edge>, path: seq<Edge>, edge: Edge, side: nat)
    requires Walking(face, links, start, before, visited, path, edge, side)
    requires GoodStart(face, links, start, before)
    ensures edge !in visited
  {
    if path != [] {
      var last := path[|path| - 1];
      assert last in Elements(path) && last in FaceEdges(face, links) && NextOf(face, links, last) == edge;
      assert forall p :: p in FaceEdges(face, links) && NextOf(face, links, p) == edge ==> p == last;
      assert HasPredecessor(face, links, FaceEdges(face, links), edge);
      assert edge in before ==> HasPredecessor(face, links, before, edge);
      forall i | 0 <= i < |path| ensures path[i] != edge {
        if i > 0 {
          assert NextOf(face, links, path[i - 1]) == path[i];
        }
      }
    }
  }

  lemma PathFromHead(face: nat, links: map<Edge, Links>, before: set<Edge>, path: seq<Edge>)
    requires FromHeads(face, links, before) && IsWalk(face, links, path) && path != []
    requires !HasPredecessor(face, links, FaceEdges(face, links), path[0])
    ensures FromHeads(face, links, before + Elements(path))
  {
    var visited := before + Elements(path);
    forall e | e in visited && HasPredecessor(face, links, FaceEdges(face, links), e)
      ensures HasPredecessor(face, links, visited, e)
    {
      if e in before {
        var p :| p in before && p in links && NextOf(face, links, p) == e;
        assert p in visited;
      } else {
        var i :| 0 <= i < |path| && path[i] == e;
        assert i != 0 && NextOf(face, links, path[i - 1]) == e && path[i - 1] in visited;
      }
    }
  }

  // ----- all the rings -----

  /** The uses whose edge no edge of the face steps onto. */
  function Heads(edges: seq<Use>, successors: set<nat>): (r: seq<Use>)
    ensures forall u :: u in r <==> u in edges && u.edge !in successors
  {
    if edges == [] then []
    else
      var (front, last) := (edges[..|edges| - 1], edges[|edges| - 1]);
      assert edges == front + [last];
      Heads(front, successors) + if last.edge in successors then [] else [last]
  }

  function Successors(edges: seq<Use>, links: map<Edge, Links>): set<nat>
    requires forall u :: u in edges ==> u.edge in links
  {
    set u | u in edges && NextOn(links[u.edge], u.side) in links :: NextOn(links[u.edge], u.side)
  }

  /** The rings walked so far: separate paths over the visited edges, each reported as it is. */
  ghost predicate Laid(face: nat, links: map<Edge, Links>, visited: set<Edge>, rings: seq<Ring>,
      paths: seq<seq<Edge>>) {
    && |rings| == |paths|
    && (forall k :: 0 <= k < |paths| ==> IsPath(face, links, paths[k]) && Reports(face, links, rings[k], paths[k]))
    && Separate(paths)
    && (forall e :: e in visited <==> OnSome(paths, e))
  }

  lemma SeparateSnoc(paths: seq<seq<Edge>>, path: seq<Edge>)
    requires Separate(paths) && Distinct(path) && forall e :: e in path ==> !OnSome(paths, e)
    ensures Separate(paths + [path])
  {
    var more := paths + [path];
    forall p, i, q, j | 0 <= p < |more| && 0 <= i < |more[p]| && 0 <= q < |more| && 0 <= j < |more[q]|
                        && more[p][i] == more[q][j]
      ensures p == q && i == j
    {
      assert p < |paths| ==> more[p][i] in paths[p] && OnSome(paths, more[p][i]);
      assert q < |paths| ==> more[q][j] in paths[q] && OnSome(paths, more[q][j]);
      assert p == |paths| ==> more[p][i] in path;
      assert q == |paths| ==> more[q][j] in path;
    }
  }

  lemma OnSomeSnoc(paths: seq<seq<Edge>>, path: seq<Edge>, e: Edge)
    ensures OnSome(paths + [path], e) <==> OnSome(paths, e) || e in path
  {
    var more := paths + [path];
    if OnSome(paths, e) {
      var p :| 0 <= p < |paths| && e in paths[p];
      assert e in more[p];
    }
    if e in path {
      assert e in more[|paths|];
    }
  }

  lemma LayPath(face: nat, links: map<Edge, Links>, start: Use, before: set<Edge>, visited: set<Edge>,
                rings: seq<Ring>, paths: seq<seq<Edge>>, path: seq<Edge>, terminator: nat)
    requires NamedOnce(face, links) && Laid(face, links, before, rings, paths)
    requires Walked(face, links, start, before, visited, path, terminator)
    ensures Laid(face, links, visited, rings + [Ring(start.edge, terminator, |path|)], paths + [path])
  {
    hide IsPath, FaceEdges, NextOf, Separate, OnSome, Distinct, NamedOnce;
    assert forall e :: e in path ==> e in Elements(path);
    SeparateSnoc(paths, path);
    forall e ensures e in visited <==> OnSome(paths + [path], e) {
      OnSomeSnoc(paths, path, e);
      assert e in Elements(path) <==> e in path;
    }
  }

  /** In a face that forms rings, the heads are its edges without a predecessor. */
  lemma HeadsLackPredecessors(face: nat, edges: seq<Use>, links: map<Edge, Links>, e: Edge)
    requires AllUses(face, edges, links) && NamedOnce(face, links) && e in FaceEdges(face, links)
    ensures e in Successors(edges, links) <==> HasPredecessor(face, links, FaceEdges(face, links), e)
  {
    if e in Successors(edges, links) {
      var u :| u in edges && NextOn(links[u.edge], u.side) == e;
      assert u.edge in FaceEdges(face, links) && NextOf(face, links, u.edge) == e;
    }
    if HasPredecessor(face, links, FaceEdges(face, links), e) {
      var p :| p in FaceEdges(face, links) && p in links && NextOf(face, links, p) == e;
      assert Use(p, SideOf(links[p], face)) in edges;
    }
  }

  /** The edge is what some edge continues with, on a side on which that names the face. */
  ghost predicate IsSteppedOnto(face: nat, links: map<Edge, Links>, e: Edge) {
    exists u: Use :: u.edge in links && u.side < 2 && FaceOn(links[u.edge], u.side) == face
                     && NextOn(links[u.edge], u.side) == e
  }

  lemma SuccessorsAreSteppedOnto(face: nat, edges: seq<Use>, links: map<Edge, Links>, e: Edge)
    requires AllUses(face, edges, links) && e in links
    ensures e in Successors(edges, links) <==> IsSteppedOnto(face, links, e)
  {
    if e in Successors(edges, links) {
      var u :| u in edges && NextOn(links[u.edge], u.side) == e;
      assert FaceOn(links[u.edge], u.side) == face;
    }
    if IsSteppedOnto(face, links, e) {
      var u: Use :| u.edge in links && u.side < 2 && FaceOn(links[u.edge], u.side) == face
                    && NextOn(links[u.edge], u.side) == e;
      assert u in edges;
    }
  }

  /** No edge of the face begins a ring. */
  ghost predicate NoneBegins(face: nat, links: map<Edge, Links>) {
    forall e :: e in FaceEdges(face, links) ==> IsSteppedOnto(face, links, e)
  }

  lemma NoHeads(face: nat, edges: seq<Use>, links: map<Edge, Links>)
    requires AllUses(face, edges, links)
    ensures Heads(edges, Successors(edges, links)) == [] <==> NoneBegins(face, links)
  {
    hide IsSteppedOnto, Successors;
    var heads := Heads(edges, Successors(edges, links));
    if heads == [] {
      forall e | e in FaceEdges(face, links) ensures IsSteppedOnto(face, links, e) {
        assert Use(e, SideOf(links[e], face)) in edges && Use(e, SideOf(links[e], face)) !in heads;
        SuccessorsAreSteppedOnto(face, edges, links, e);
      }
    } else {
      var u := heads[0];
      assert u in heads;
      SuccessorsAreSteppedOnto(face, edges, links, u.edge);
    }
  }

  lemma SomeHead(face: nat, edges: seq<Use>, links: map<Edge, Links>)
    requires AllUses(face, edges, links) && FormsRings(face, links)
    ensures Heads(edges, Successors(edges, links)) != []
  {
    var s := FaceEdges(face, links);
    if forall e :: e in s ==> HasPredecessor(face, links, s, e) {
      PredecessorsEverywhereMeanCycle(face, links, s);
    } else {
      var e :| e in s && !HasPredecessor(face, links, s, e);
      HeadsLackPredecessors(face, edges, links, e);
      assert Use(e, SideOf(links[e], face)) in edges;
      assert Use(e, SideOf(links[e], face)) in Heads(edges, Successors(edges, links));
    }
  }

  /** Once every head's ring is walked nothing is left over, in a face named once by edges that form no cycle. */
  lemma NothingIsLeft(face: nat, edges: seq<Use>, links: map<Edge, Links>, visited: set<Edge>,
                      rings: seq<Ring>, paths: seq<seq<Edge>>)
    requires AllUses(face, edges, links) && NamedOnce(face, links) && Acyclic(face, links)
    requires visited <= FaceEdges(face, links) && Laid(face, links, visited, rings, paths)
    requires forall u :: u in Heads(edges, Successors(edges, links)) ==> u.edge in visited
    ensures visited == FaceEdges(face, links)
  {
    var (s, left) := (FaceEdges(face, links), FaceEdges(face, links) - visited);
    forall e | e in left ensures HasPredecessor(face, links, left, e) {
      HeadsLackPredecessors(face, edges, links, e);
      assert Use(e, SideOf(links[e], face)) in edges;
      assert HasPredecessor(face, links, s, e);
      var p :| p in s && p in links && NextOf(face, links, p) == e;
      if p in visited {
        VisitedToTheEnd(face, links, visited, rings, paths, p);
      }
      assert p in left;
    }
    if left != {} {
      PredecessorsEverywhereMeanCycle(face, links, left);
    }
    assert s == visited + left;
  }

  lemma VisitedToTheEnd(face: nat, links: map<Edge, Links>, visited: set<Edge>, rings: seq<Ring>, paths: seq<seq<Edge>>,
                        e: Edge)
    requires Laid(face, links, visited, rings, paths) && e in visited && e in links && NextOf(face, links, e) in links
    ensures NextOf(face, links, e) in visited
  {
    hide NextOf, Reports, FaceEdges;
    assert OnSome(paths, e);
    var p :| 0 <= p < |paths| && e in paths[p];
    var i :| 0 <= i < |paths[p]| && paths[p][i] == e;
    assert IsPath(face, links, paths[p]) && IsWalk(face, links, paths[p]);
    assert i < |paths[p]| - 1;
    assert NextOf(face, links, paths[p][i]) == paths[p][i + 1] && paths[p][i + 1] in paths[p];
    assert OnSome(paths, paths[p][i + 1]);
  }

  lemma SubsetOfSameSize<T>(a: set<T>, b: set<T>)
    requires a <= b && |a| >= |b|
    ensures a == b
  {
    assert b == a + (b - a);
  }

  lemma AllUsed(face: nat, edges: seq<Use>, links: map<Edge, Links>, visited: set<Edge>)
    requires AllUses(face, edges, links) && visited <= FaceEdges(face, links) && |visited| == |edges|
    ensures NamedOnce(face, links) && visited == FaceEdges(face, links)
  {
    UsesCountEdges(face, edges, links);
    SubsetOfSameSize(visited, FaceEdges(face, links));
  }

  /** One use of the face's edges that is listed before another. */
  ghost predicate ListedBefore(edges: seq<Use>, a: Edge, b: Edge) {
    exists i, j :: 0 <= i < j < |edges| && edges[i].edge == a && edges[j].edge == b
  }

  ghost predicate Listed(edges: seq<Use>, a: Edge) {
    exists i :: 0 <= i < |edges| && edges[i].edge == a
  }

  /** The rings start at listed edges, in the order of the list. */
  ghost predicate StartInOrder(edges: seq<Use>, rings: seq<Ring>) {
    && (forall k :: 0 <= k < |rings| ==> Listed(edges, rings[k].start))
    && forall k, l :: 0 <= k < l < |rings| ==> ListedBefore(edges, rings[k].start, rings[l].start)
  }

  lemma ListedInMore(front: seq<Use>, last: Use, a: Edge, b: Edge)
    ensures ListedBefore(front, a, b) ==> ListedBefore(front + [last], a, b)
    ensures Listed(front, a) ==> Listed(front + [last], a) && ListedBefore(front + [last], a, last.edge)
    ensures Listed(front + [last], last.edge)
  {
    var edges := front + [last];
    assert edges[|front|] == last;
    if i, j :| 0 <= i < j < |front| && front[i].edge == a && front[j].edge == b {
      assert edges[i].edge == a && edges[j].edge == b;
    }
    if i :| 0 <= i < |front| && front[i].edge == a {
      assert edges[i].edge == a;
    }
  }

  lemma OrderInMore(front: seq<Use>, last: Use, rings: seq<Ring>, ring: Ring)
    requires StartInOrder(front, rings)
    ensures StartInOrder(front + [last], rings)
    ensures ring.start == last.edge ==> StartInOrder(front + [last], rings + [ring])
  {
    hide Listed, ListedBefore;
    var (edges, more) := (front + [last], rings + [ring]);
    forall k | 0 <= k < |rings| ensures Listed(edges, rings[k].start)
                                        && ListedBefore(edges, rings[k].start, last.edge) {
      ListedInMore(front, last, rings[k].start, last.edge);
    }
    forall k, l | 0 <= k < l < |rings| ensures ListedBefore(edges, rings[k].start, rings[l].start) {
      ListedInMore(front, last, rings[k].start, rings[l].start);
    }
    ListedInMore(front, last, last.edge, last.edge);
    forall k, l | ring.start == last.edge && 0 <= k < l < |more|
      ensures ListedBefore(edges, more[k].start, more[l].start)
    {
      assert more[k] == rings[k] && (l < |rings| ==> more[l] == rings[l]);
    }
  }

  /** What is in order in the heads is in order in the list they are picked from. */
  lemma {:induction false} HeadsKeepOrder(edges: seq<Use>, successors: set<nat>, a: Edge, b: Edge)
    ensures Listed(Heads(edges, successors), a) ==> Listed(edges, a)
    ensures ListedBefore(Heads(edges, successors), a, b) ==> ListedBefore(edges, a, b)
  {
    if edges != [] {
      var (front, last) := (edges[..|edges| - 1], edges[|edges| - 1]);
      assert edges == front + [last];
      HeadsKeepOrder(front, successors, a, b);
      ListedInMore(front, last, a, b);
      if last.edge !in successors {
        LastListed(Heads(front, successors), last, a, b);
      }
    }
  }

  lemma LastListed(front: seq<Use>, last: Use, a: Edge, b: Edge)
    ensures Listed(front + [last], a) ==> Listed(front, a) || a == last.edge
    ensures ListedBefore(front + [last], a, b) ==> ListedBefore(front, a, b) || (Listed(front, a) && b == last.edge)
  {
    var edges := front + [last];
    if i, j :| 0 <= i < j < |edges| && edges[i].edge == a && edges[j].edge == b {
      assert front[i].edge == a;
    }
    if i :| 0 <= i < |edges| && edges[i].edge == a {
      assert i < |front| ==> front[i].edge == a;
    }
  }

  lemma OrderOfHeads(edges: seq<Use>, successors: set<nat>, rings: seq<Ring>)
    requires StartInOrder(Heads(edges, successors), rings)
    ensures StartInOrder(edges, rings)
  {
    hide Listed, ListedBefore, Heads;
    forall k | 0 <= k < |rings| ensures Listed(edges, rings[k].start) {
      HeadsKeepOrder(edges, successors, rings[k].start, 0);
    }
    forall k, l | 0 <= k < l < |rings| ensures ListedBefore(edges, rings[k].start, rings[l].start) {
      HeadsKeepOrder(edges, successors, rings[k].start, rings[l].start);
    }
  }

  /** What is wrong with a face refused for this reason. */
  ghost predicate IsAtFault(face: nat, links: map<Edge, Links>, why: Refusal) {
    match why
    case NoEdge => FaceEdges(face, links) == {}
    case NoHead => FaceEdges(face, links) != {} && NoneBegins(face, links)
    case CameBack => !NoneBegins(face, links) && !(NamedOnce(face, links) && Injective(face, links))
    case OtherFace => !NoneBegins(face, links) && StepsOff(face, links)
    case NotAllUsed => !NoneBegins(face, links) && !(NamedOnce(face, links) && Acyclic(face, links))
  }

  /**
   Rebuild the rings of one face. It succeeds exactly when the face's edges form rings, and the rings are then
   separate maximal paths over all of them. A refusal tells what is wrong with the face.
   */
  method RebuildRings(face: nat, edges: seq<Use>, links: map<Edge, Links>)
    returns (verdict: Verdict, ghost paths: seq<seq<Edge>>)
    requires AllUses(face, edges, links)
    ensures verdict.Rings? <==> FormsRings(face, links)
    ensures verdict.Rings? ==>
              && |paths| == |verdict.rings| && Partition(face, links, paths)
              && (forall k :: 0 <= k < |paths| ==> Reports(face, links, verdict.rings[k], paths[k]))
              && TotalLength(verdict.rings) == |edges| && StartInOrder(edges, verdict.rings)
    ensures verdict.Refused? ==> IsAtFault(face, links, verdict.why)
  {
    hide IsSteppedOnto, StepsOff, NoneBegins, StartInOrder, NamedOnce, Laid, FromHeads, FaceEdges, Heads, Successors,
         Partition, Reports, HasPredecessor, StaysOnFace, Injective, Acyclic;
    paths := [];
    if edges == [] {
      NoUseNoEdge(face, edges, links);
      return Refused(NoEdge), paths;
    }
    var successors := Successors(edges, links);
    var heads := Heads(edges, successors);
    if heads == [] {
      NoHeads(face, edges, links);
      UseIsOfFace(face, edges, links, edges[0]);
      if FormsRings(face, links) { SomeHead(face, edges, links); }
      return Refused(NoHead), paths;
    }
    NoHeads(face, edges, links);
    var visited: set<Edge> := {};
    var rings: seq<Ring> := [];
    NothingLaid(face, links);
    NothingStarted();
    var k := 0;
    while k < |heads|
      invariant 0 <= k <= |heads|
      invariant forall i :: 0 <= i < k ==> heads[i].edge in visited
      invariant visited <= FaceEdges(face, links) && TotalLength(rings) == |visited|
      invariant NamedOnce(face, links) ==> Laid(face, links, visited, rings, paths)
      invariant StartInOrder(heads[..k], rings)
      invariant NamedOnce(face, links) && Injective(face, links) ==> FromHeads(face, links, visited)
    {
      var start := heads[k];
      assert start in heads && start in edges;
      assert heads[..k + 1] == heads[..k] + [start];
      ghost var older := rings;
      UseIsOfFace(face, edges, links, start);
      if start.edge !in visited {
        var before := visited;
        if NamedOnce(face, links) { HeadsLackPredecessors(face, edges, links, start.edge); }
        var refusal, terminator;
        ghost var path;
        refusal, visited, terminator, path := WalkRing(face, links, start, before);
        if refusal != [] {
          if FormsRings(face, links) { StayingIsNotGoingOff(face, links); }
          return Refused(refusal[0]), paths;
        }
        if NamedOnce(face, links) {
          LayPath(face, links, start, before, visited, rings, paths, path, terminator);
        }
        rings := rings + [Ring(start.edge, terminator, |visited| - |before|)];
        paths := paths + [path];
      }
      OrderInMore(heads[..k], start, older, if rings == older then Ring(start.edge, 0, 0) else rings[|older|]);
      k := k + 1;
    }
    if |visited| != |edges| {
      if NamedOnce(face, links) && Acyclic(face, links) {
        NothingIsLeft(face, edges, links, visited, rings, paths);
        UsesCountEdges(face, edges, links);
      }
      return Refused(NotAllUsed), paths;
    }
    assert heads[..k] == heads;
    OrderOfHeads(edges, successors, rings);
    AllUsed(face, edges, links, visited);
    assert heads[0].edge in visited;
    LaidIsPartition(face, links, rings, paths);
    PartitionFormsRings(face, links, paths);
    return Rings(rings), paths;
  }

  lemma UseIsOfFace(face: nat, edges: seq<Use>, links: map<Edge, Links>, u: Use)
    requires AllUses(face, edges, links) && u in edges
    ensures u.edge in FaceEdges(face, links)
  {
  }

  lemma NothingStarted()
    ensures StartInOrder([], [])
  {
  }

  lemma NothingLaid(face: nat, links: map<Edge, Links>)
    ensures Laid(face, links, {}, [], []) && FromHeads(face, links, {})
  {
  }

  lemma LaidIsPartition(face: nat, links: map<Edge, Links>, rings: seq<Ring>, paths: seq<seq<Edge>>)
    requires Laid(face, links, FaceEdges(face, links), rings, paths)
    ensures Partition(face, links, paths) && |paths| == |rings|
    ensures forall k :: 0 <= k < |paths| ==> Reports(face, links, rings[k], paths[k])
  {
  }

  lemma NoUseNoEdge(face: nat, edges: seq<Use>, links: map<Edge, Links>)
    requires AllUses(face, edges, links) && edges == []
    ensures FaceEdges(face, links) == {}
  {
    forall e | e in FaceEdges(face, links) ensures Use(e, SideOf(links[e], face)) in edges {
    }
  }
}
