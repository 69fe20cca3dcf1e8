/** Every ring with something hung into it has an ear. */
module HookEars {
  import opened Geometry
  import opened EdgeSums
  import opened RingMeasures
  import opened SegmentCrossing
  import opened SimpleLoops
  import opened SegmentWinding
  import opened Nearby
  import opened EarWinding
  import opened LowestVertex
  import opened CornerCuts
  import opened EdgeJumps
  import opened Diagonals
  import opened TwoEars
  import opened HungLoops
  import opened HungEars

  // ----- a cut from the vertex it hangs at -----

  lemma HookEdges(v: Point, g: seq<Point>, y: seq<Point>, p: Point, q: Point)
    requires g != [] && IsEdge([v] + g, p, q)
    ensures IsEdge([v] + g + [v] + y, p, q)
  {
    var (ring, n) := ([v] + g + [v] + y, [v] + g);
    var i: nat :| EdgeAt(n, i, p, q);
    assert EdgeAt(ring, i, p, q);
  }

  /** The part of the hung walk behind the cut, turned round, is a loop that winds left. */
  lemma BehindTheCut(v: Point, g: seq<Point>, y: seq<Point>, i: nat)
    requires var ring := [v] + g + [v] + y; 0 < i < |g| - 1 && Tame(ring) && IsCut(ring, v, g[i])
    requires Distinct([v] + g[i..]) && (forall z :: z in g ==> Below(v, z))
    requires Cross(v, g[|g| - 1], g[i]) > 0.0
    ensures var m := [v] + g[i..];
      IsCutOff([v] + g + [v] + y, m, v, g[i]) && Simple(Reversed(m)) && WindsLeft(Reversed(m))
          && m == Homeward([v] + g, i + 1)
  {
    hide IsEdge, EdgesApart, Cross, Tame, IsCut;
    var (ring, n, m) := ([v] + g + [v] + y, [v] + g, [v] + g[i..]);
    assert m == Homeward(n, i + 1) && m[0] == v && m[1] == g[i];
    forall p, q | IsEdge(m, p, q) ensures (p == v && q == g[i]) || IsEdge(ring, p, q) {
      HomewardEdges(n, i + 1, p, q);
      if IsEdge(n, p, q) {
        HookEdges(v, g, y, p, q);
      }
    }
    CutOffIsSimple(ring, m, v, g[i]);
    SimpleReversed(m);
    assert LowestAt(m, 0);
    LowestTurned(m);
    CornerSides(g[i], v, g[|g| - 1]);
    assert StartsLeft(Rotated(Reversed(m), |m| - 1));
  }

  lemma NearTheHook(v: Point, g: seq<Point>, y: seq<Point>, i: nat)
    requires var ring := [v] + g + [v] + y;
      0 < i < |g| - 1 && Tame(ring) && y != [] && IsCutOff(ring, Outward(ring, i + 1), g[i], v)
    requires AllOff(y, [v] + g) && (forall z :: z in g ==> Below(v, z)) && Below(v, y[0])
    requires Cross(v, y[0], g[0]) > 0.0 && Cross(v, y[0], g[i]) > 0.0
    ensures Winding(Outward([v] + g + [v] + y, i + 1), y[0]) == 0
  {
    hide IsEdge, EdgesApart, Cross, Tame, Winding, ApartFrom, Along;
    var ring := [v] + g + [v] + y;
    var part := Outward(ring, i + 1);
    assert part == [v] + g[..i + 1] && part[1] == g[0] && part[i + 1] == g[i];
    EdgesOfCorner(ring, |g| + 1);
    assert y[0] in y;
    OthersAreApart(ring, part, g[i], v, v, y[0]);
    assert g[0] in g && g[i] in g;
    forall k | 0 < k < |part| ensures Below(v, part[k]) {
      assert part[k] == g[k - 1] && g[k - 1] in g;
    }
    var t := NearLowest(part, y[0]);
    StepUpTo(part, v, y[0], t);
    LeftIsHigherHere(v, y[0], g[0]);
    LeftIsHigherHere(v, y[0], g[i]);
  }

  lemma LeftIsHigherHere(b: Point, p: Point, q: Point)
    requires Below(b, p) && Below(b, q) && Cross(b, p, q) > 0.0
    ensures q.y > b.y && Cross(b, q, p) < 0.0
  {
    LeftIsHigher(q, b, p);
    Opposite(b, q, p);
  }

  lemma EarAtTheHook(v: Point, g: seq<Point>, y: seq<Point>, i: nat)
    requires var ring := [v] + g + [v] + y;
      0 < i < |g| - 1 && y != [] && Tame(ring) && IsCut(ring, v, g[i])
    requires Distinct([v] + g[..i + 1]) && Distinct([v] + g[i..]) && AllOff(y, [v] + g)
    requires (forall z :: z in g ==> Below(v, z)) && Below(v, y[0])
    requires Cross(v, g[0], g[i]) > 0.0 && Cross(v, g[|g| - 1], g[i]) > 0.0
    requires Cross(v, y[0], g[0]) > 0.0 && Cross(v, y[0], g[i]) > 0.0
    requires forall p: Point :: Winding([v] + g, p) <= 0
    ensures HasSomeEar([v] + g + [v] + y)
  {
    hide IsEdge, EdgesApart, Cross, Tame, Winding, ApartFrom, IsCut, IsCutOff, OffRing, Simple, WindsLeft, IsRun;
    var (ring, n, m) := ([v] + g + [v] + y, [v] + g, [v] + g[i..]);
    var part := Outward(ring, i + 1);
    assert part == [v] + g[..i + 1] == Outward(n, i + 1);
    OutwardIsCutOff(ring, i + 1);
    CutOffIsSimple(ring, part, g[i], v);
    HookStartsLeft(v, g, i);
    FromItsStart(part);
    BehindTheCut(v, g, y, i);
    var d := Reversed(m);
    SimpleHasTwoEars(d);
    forall p: Point ensures Winding(part, p) <= Winding(d, p) {
      WindingOfParts(n, i + 1, p);
      WindingReversed(m, p);
    }
    forall z | z in ring && z !in part ensures Winding(part, z) <= 0 && OffRing(part, z) {
      OthersAreOff(ring, part, g[i], v, z);
      if z in y {
        NearTheHook(v, g, y, i);
        OuterPath(v, g, y);
        var k: nat :| k < |y| && y[k] == z;
        WindingAlongPath(ring, part, g[i], v, y, k);
      } else {
        var k := InTurnedRest(v, g, y, i, z);
        OthersAreApart(ring, part, g[i], v, d[k], d[After(k, |d|)]);
        OutsideByBound(part, d, k);
      }
    }
    PrefixIsRun(ring, i + 2);
    RunHasEar(ring, part);
  }

  lemma HookStartsLeft(v: Point, g: seq<Point>, i: nat)
    requires 0 < i < |g| && (forall z :: z in g ==> Below(v, z)) && Cross(v, g[0], g[i]) > 0.0
    ensures StartsLeft([v] + g[..i + 1])
  {
    var part := [v] + g[..i + 1];
    hide Cross;
    CornerSides(v, g[0], g[i]);
    CornerSides(g[i], v, g[0]);
    forall k | 0 < k < |part| ensures Below(v, part[k]) {
      assert part[k] == g[k - 1] && g[k - 1] in g;
    }
  }

  lemma OuterPath(v: Point, g: seq<Point>, y: seq<Point>)
    ensures IsPathOf([v] + g + [v] + y, y)
  {
    var ring := [v] + g + [v] + y;
    forall i | 0 <= i < |y| - 1 ensures IsEdge(ring, y[i], y[i + 1]) {
      assert EdgeAt(ring, |g| + 2 + i, y[i], y[i + 1]);
    }
  }

  lemma InTurnedRest(v: Point, g: seq<Point>, y: seq<Point>, i: nat, z: Point) returns (k: nat)
    requires 0 < i < |g| - 1
    requires var ring := [v] + g + [v] + y; z in ring && z !in Outward(ring, i + 1) && z !in y
    ensures var d := Reversed([v] + g[i..]);
      k < |d| && d[k] == z && IsEdge([v] + g + [v] + y, d[After(k, |d|)], z)
  {
    var (ring, m) := ([v] + g + [v] + y, [v] + g[i..]);
    var h := PastTheCut(ring, i + 1, z);
    assert ring[|g| + 1] in Outward(ring, i + 1) by { assert ring[|g| + 1] == Outward(ring, i + 1)[0]; }
    assert h < |g| + 1;
    var at := h - 1 - i + 1;
    assert m[at] == z && m[at - 1] == ring[h - 1];
    k := |m| - 1 - at;
    assert EdgeAt(ring, h - 1, ring[h - 1], z);
  }

  // ----- turning above a vertex -----

  lemma Turns(b: Point, p: Point, q: Point, r: Point)
    ensures Cross(b, p, r) * (q.y - b.y) == Cross(b, p, q) * (r.y - b.y) + Cross(b, q, r) * (p.y - b.y)
  {
    var (px, py, qx, qy, rx, ry) := (p.x - b.x, p.y - b.y, q.x - b.x, q.y - b.y, r.x - b.x, r.y - b.y);
    TurnsByOffset(px, py, qx, qy, rx, ry);
  }

  lemma TurnsByOffset(px: real, py: real, qx: real, qy: real, rx: real, ry: real)
    ensures (px * ry - py * rx) * qy == (px * qy - py * qx) * ry + (qx * ry - qy * rx) * py
  {
  }

  /** Above a vertex, left of left is left. */
  lemma LeftOfLeft(b: Point, p: Point, q: Point, r: Point)
    requires Below(b, p) && Below(b, q) && Below(b, r) && Cross(b, p, q) > 0.0 && Cross(b, q, r) > 0.0
    ensures Cross(b, p, r) > 0.0
  {
    LeftIsHigherHere(b, p, q);
    LeftIsHigherHere(b, q, r);
    Turns(b, p, q, r);
    hide Cross;
    LeftByWeights(Cross(b, p, r), q.y - b.y, Cross(b, p, q), r.y - b.y, Cross(b, q, r), p.y - b.y);
  }

  lemma LeftByWeights(side: real, w: real, first: real, u: real, second: real, v: real)
    requires side * w == first * u + second * v && w > 0.0 && first > 0.0 && u > 0.0 && second > 0.0 && v >= 0.0
    ensures side > 0.0
  {
    SignOfProduct(first, u);
    SignOfTerm(second, v);
    SignOfProduct(side, w);
  }

  // ----- any ring with something hung in -----

  /** What hangs in is a path met once, or a loop at the far end of a bridge. */
  ghost predicate IsPliable(g: seq<Point>) {
    || (|g| >= 2 && Distinct(g))
    || (|g| >= 3 && Distinct(g[..|g| - 1]) && g[|g| - 1] == g[0])
  }

  /** A simple loop that winds left, with a walk hung in at v that keeps inside it and is not wound left. */
  ghost predicate Hung(v: Point, g: seq<Point>, y: seq<Point>) {
    var (ring, outer) := ([v] + g + [v] + y, [v] + y);
    && Tame(ring) && Simple(outer) && WindsLeft(outer) && IsPliable(g)
    && AllOff(g, outer) && (forall z :: z in g ==> Winding(outer, z) == 1)
    && (forall p: Point :: Winding([v] + g, p) <= 0)
    && (LowestAt(outer, 0) ==> g[0] == g[|g| - 1] || Cross(v, g[|g| - 1], g[0]) > 0.0)
  }

  lemma LowestUnrotated(ring: seq<Point>, i: nat)
    requires i < |ring| && LowestAt(Rotated(ring, i), 0)
    ensures LowestAt(ring, i)
  {
    var turned := Rotated(ring, i);
    forall k | 0 <= k < |ring| && k != i ensures Below(ring[i], ring[k]) {
      assert ring[k] == turned[if k >= i then k - i else k + |ring| - i];
    }
  }

  lemma LowestIsUnique(ring: seq<Point>, k: nat)
    requires WindsLeft(ring) && LowestAt(ring, k)
    ensures StartsLeft(Rotated(ring, k))
  {
    hide Cross;
    var i :| 0 <= i < |ring| && StartsLeft(Rotated(ring, i));
    LowestUnrotated(ring, i);
  }

  lemma InnerIsAbove(ring: seq<Point>, k: nat, z: Point)
    requires LowestAt(ring, k) && Winding(ring, z) == 1 && z !in ring
    ensures Below(ring[k], z)
  {
    hide Winding;
    if !Below(ring[k], z) {
      forall q | q in ring ensures Below(z, q) {
        var i :| 0 <= i < |ring| && ring[i] == q;
      }
      BelowIsOutside(ring, z);
    }
  }

  // ----- hung in elsewhere than at the lowest vertex -----

  /** The ring from its lowest vertex, f[0], with g hung in at v and then the rest. */
  ghost predicate HungBehind(f: seq<Point>, v: Point, g: seq<Point>, back: seq<Point>) {
    var (ring, r) := (f + [v] + g + [v] + back, f + [v] + back);
    && f != [] && Tame(ring) && Simple(r) && StartsLeft(r) && IsPliable(g)
    && AllOff(g, r) && (forall z :: z in g ==> Winding(r, z) == 1)
    && (forall p: Point :: Winding([v] + g, p) <= 0)
  }

  lemma EdgesBehind(f: seq<Point>, v: Point, g: seq<Point>, back: seq<Point>, p: Point, q: Point)
    requires f != [] && g != [] && IsEdge(f + [v] + back, p, q)
    ensures IsEdge(f + [v] + g + [v] + back, p, q)
  {
    var (ring, r) := (f + [v] + g + [v] + back, f + [v] + back);
    var i: nat :| EdgeAt(r, i, p, q);
    var j := if i < |f| then i else i + |g| + 1;
    assert EdgeAt(ring, j, p, q);
  }

  lemma HangsBehind(f: seq<Point>, v: Point, g: seq<Point>, back: seq<Point>)
    requires HungBehind(f, v, g, back)
    ensures HangsIn(f + [v] + g + [v] + back, f + [v] + back, g, |f|)
  {
    hide IsEdge, EdgesApart, Cross, Winding, Tame, StartsLeft, Simple;
    var (ring, r) := (f + [v] + g + [v] + back, f + [v] + back);
    forall p, q | IsEdge(r, p, q) ensures IsEdge(ring, p, q) {
      EdgesBehind(f, v, g, back, p, q);
    }
    forall i | 0 <= i < |g| - 1 ensures IsEdge(ring, g[i], g[i + 1]) {
      EdgesOfCorner(ring, |f| + 1 + i);
    }
    EdgesOfCorner(ring, |f|);
    assert r[|f|] == v && ring[|f| + 1] == g[0];
    assert forall z :: z in ring <==> z in f || z == v || z in g || z in back;
    assert forall z :: z in r <==> z in f || z == v || z in back;
  }

  lemma BehindIsClean(f: seq<Point>, v: Point, g: seq<Point>, back: seq<Point>)
    requires HungBehind(f, v, g, back)
    ensures CleanCorner(f + [v] + g + [v] + back)
  {
    hide IsEdge, EdgesApart, Cross, Winding, Tame;
    var (ring, r) := (f + [v] + g + [v] + back, f + [v] + back);
    assert ring[0] == r[0] && ring[1] == r[1] && ring[|ring| - 1] == r[|r| - 1];
    forall i | 0 < i < |ring| ensures ring[i] != ring[0] {
      if |f| < i <= |f| + |g| {
        assert ring[i] == g[i - |f| - 1] && r[0] in r;
      } else {
        assert ring[i] == r[if i <= |f| then i else i - |g| - 1];
      }
    }
    CornersAreClean(ring);
  }

  lemma EarBehindByOuterCut(f: seq<Point>, v: Point, g: seq<Point>, back: seq<Point>, w: Point)
    requires HungBehind(f, v, g, back)
    requires var ring := f + [v] + g + [v] + back;
      IsCut(ring, ring[0], w) && InWedge(ring[|ring| - 1], ring[0], ring[1], w)
    requires var r := f + [v] + back; w in r && w != r[0] && w != r[1] && w != r[|r| - 1]
    ensures HasSomeEar(f + [v] + g + [v] + back)
  {
    hide IsEdge, EdgesApart, Cross, Winding, Tame, IsRun;
    var (ring, r) := (f + [v] + g + [v] + back, f + [v] + back);
    assert ring[0] == r[0] && ring[1] == r[1] && ring[|ring| - 1] == r[|r| - 1];
    HangsBehind(f, v, g, back);
    var j: nat :| j < |r| && r[j] == w;
    assert Cuts(r, j);
    if j <= |f| {
      assert Outward(r, j) == ring[..j + 1];
      PrefixIsRun(ring, j + 1);
    }
    if |f| <= j {
      assert Homeward(r, j) == Homeward(ring, j + |g| + 1);
      SuffixIsRun(ring, j + |g| + 1);
    }
    EarByOuterCut(ring, r, g, |f|, j);
  }

  lemma EarBehindByInnerCut(f: seq<Point>, v: Point, g: seq<Point>, back: seq<Point>, i: nat)
    requires HungBehind(f, v, g, back) && i < |g| && Distinct(g[..i + 1]) && Distinct(g[i..])
    requires var ring := f + [v] + g + [v] + back;
      IsCut(ring, ring[0], g[i]) && InWedge(ring[|ring| - 1], ring[0], ring[1], g[i])
    ensures HasSomeEar(f + [v] + g + [v] + back)
  {
    hide IsEdge, EdgesApart, Cross, Winding, Tame, IsCut;
    var (ring, r) := (f + [v] + g + [v] + back, f + [v] + back);
    var j := |f| + 1 + i;
    var (first, second) := (Outward(ring, j), Homeward(ring, j));
    assert first == r[..|f| + 1] + g[..i + 1] && second == [r[0]] + g[i..] + r[|f|..];
    forall z | z in g ensures Below(r[0], z) {
      InnerIsAbove(r, 0, z);
    }
    PartsOfHungAreDistinct(r, g, |f|, i);
    SimpleHasTwoEarsHere(r);
    forall p: Point ensures Winding(ring, p) <= 1 {
      WindingOfHung(f, v, g, back, p);
    }
    EarByInnerCut(ring, j);
  }

  lemma SimpleHasTwoEarsHere(r: seq<Point>)
    requires Simple(r) && StartsLeft(r)
    ensures OnceAtMost(r)
  {
    FromItsStart(r);
    SimpleHasTwoEars(r);
  }

  lemma PartsOfHungAreDistinct(r: seq<Point>, g: seq<Point>, m: nat, i: nat)
    requires Distinct(r) && AllOff(g, r) && 0 < m < |r| && i < |g| && Distinct(g[..i + 1]) && Distinct(g[i..])
    requires LowestAt(r, 0) && forall z :: z in g ==> Below(r[0], z)
    ensures var (first, second) := (r[..m + 1] + g[..i + 1], [r[0]] + g[i..] + r[m..]);
      Distinct(first) && Distinct(second) && LowestAt(first, 0) && LowestAt(second, 0)
  {
    forall k | 0 <= k < |g| ensures g[k] in g && g[k] !in r {
    }
    forall k | 0 <= k < |r| ensures r[k] in r {
    }
  }

  /** The lowest vertex is another one. */
  lemma EarBehind(f: seq<Point>, v: Point, g: seq<Point>, back: seq<Point>)
    requires HungBehind(f, v, g, back)
    ensures HasSomeEar(f + [v] + g + [v] + back)
  {
    hide IsEdge, EdgesApart, Cross, Winding, Tame, IsCut, InsideTriangle, IsEarOf, Simple;
    var (ring, r) := (f + [v] + g + [v] + back, f + [v] + back);
    BehindIsClean(f, v, g, back);
    if IsEarOf(ring, 0) {
      EarAtStart(ring);
    } else {
      var j := CutFromCorner(ring);
      var w := ring[j];
      assert ring[0] == r[0] && ring[1] == r[1] && ring[|ring| - 1] == r[|r| - 1];
      if w in r {
        EarBehindByOuterCut(f, v, g, back, w);
      } else {
        assert w in g;
        if Distinct(g) {
          var i: nat :| i < |g| && g[i] == w;
          EarBehindByInnerCut(f, v, g, back, i);
        } else {
          EarBehindLoop(f, v, g, back, w);
        }
      }
    }
  }

  lemma EarAtStart(ring: seq<Point>)
    requires |ring| > 0 && IsEarOf(ring, 0)
    ensures HasSomeEar(ring)
  {
  }

  lemma EarBehindLoop(f: seq<Point>, v: Point, g: seq<Point>, back: seq<Point>, w: Point)
    requires HungBehind(f, v, g, back) && w in g
    requires |g| >= 3 && Distinct(g[..|g| - 1]) && g[|g| - 1] == g[0]
    requires var ring := f + [v] + g + [v] + back;
      IsCut(ring, ring[0], w) && InWedge(ring[|ring| - 1], ring[0], ring[1], w)
    ensures HasSomeEar(f + [v] + g + [v] + back)
  {
    hide IsEdge, EdgesApart, Cross, Winding, Tame, IsCut;
    var (ring, r) := (f + [v] + g + [v] + back, f + [v] + back);
    if w == g[0] {
      var (h, x) := (g[0], g[1..|g| - 1]);
      assert g == [h] + x + [h];
      assert h in g && forall z :: z in x ==> z in g;
      InnerIsAbove(r, 0, h);
      LoopIsOnce(g);
      EarByBridgeCut(f, v, h, x, back);
    } else {
      var i: nat :| i < |g| && g[i] == w;
      LoopHalves(g, i);
      EarBehindByInnerCut(f, v, g, back, i);
    }
  }

  lemma LoopIsOnce(g: seq<Point>)
    requires |g| >= 3 && Distinct(g[..|g| - 1])
    ensures g[0] !in g[1..|g| - 1]
  {
    assert forall k :: 0 <= k < |g| - 1 ==> g[..|g| - 1][k] == g[k];
  }

  lemma LoopHalves(g: seq<Point>, i: nat)
    requires |g| >= 3 && Distinct(g[..|g| - 1]) && g[|g| - 1] == g[0] && i < |g| && g[i] != g[0]
    ensures 0 < i < |g| - 1 && Distinct(g[..i + 1]) && Distinct(g[i..])
  {
    assert forall k :: 0 <= k < |g| - 1 ==> g[..|g| - 1][k] == g[k];
  }

  // ----- hung in at the lowest vertex -----

  /** What is wound around keeps between the two edges at the lowest vertex. */
  lemma HookSides(v: Point, g: seq<Point>, y: seq<Point>)
    requires Hung(v, g, y) && StartsLeft([v] + y)
    ensures Below(v, g[0]) && Cross(y[|y| - 1], v, g[0]) > 0.0 && Cross(v, y[0], g[0]) > 0.0
  {
    hide IsEdge, EdgesApart, Cross, Winding, Tame, Along;
    var (ring, outer) := ([v] + g + [v] + y, [v] + y);
    assert g[0] in g && outer[1] == y[0] && outer[|outer| - 1] == y[|y| - 1] && outer[0] == v;
    InnerIsAbove(outer, 0, g[0]);
    OuterKeepsApart(v, g, y);
    var t := NearLowest(outer, g[0]);
    StepUpTo(outer, v, g[0], t);
    var (a, c) := (y[|y| - 1], y[0]);
    EdgesOfCorner(outer, 0);
    assert a in outer && c in outer;
    ApartTurned(v, g[0], v, c);
    LowestIsProper(g[0], v, c);
    ApartTurned(v, g[0], a, v);
    LowestIsProper(a, v, g[0]);
    CornerSides(g[0], v, c);
    CornerSides(v, a, g[0]);
    CornerSides(a, v, g[0]);
    Opposite(v, a, g[0]);
    if c.y == v.y {
      LevelIsRight(v, c, g[0]);
    }
  }

  lemma LevelIsRight(v: Point, c: Point, p: Point)
    requires Below(v, c) && Below(v, p) && c.y == v.y
    ensures Cross(v, c, p) >= 0.0
  {
    SignOfTerm(c.x - v.x, p.y - v.y);
  }

  lemma OuterKeepsApart(v: Point, g: seq<Point>, y: seq<Point>)
    requires Hung(v, g, y)
    ensures ApartFrom([v] + y, v, g[0])
  {
    hide EdgesApart, Winding, Simple;
    var (ring, outer) := ([v] + g + [v] + y, [v] + y);
    EdgesOfCorner(ring, 0);
    assert g[0] in g && ring[0] == v && ring[1] == g[0];
    forall p, q | IsEdge(outer, p, q) ensures p != q && EdgesApart(v, g[0], p, q) {
      EndsAreVertices(outer, p, q);
      OuterEdges(v, g, y, p, q);
    }
  }

  lemma OuterEdges(v: Point, g: seq<Point>, y: seq<Point>, p: Point, q: Point)
    requires IsEdge([v] + y, p, q) && y != []
    ensures IsEdge([v] + g + [v] + y, p, q)
  {
    var (ring, outer) := ([v] + g + [v] + y, [v] + y);
    var i: nat :| EdgeAt(outer, i, p, q);
    assert EdgeAt(ring, i + |g| + 1, p, q);
  }

  lemma HookIsClean(v: Point, g: seq<Point>, y: seq<Point>)
    requires Hung(v, g, y) && StartsLeft([v] + y)
    ensures CleanCorner([v] + g + [v] + y)
    ensures var (a, c) := (y[|y| - 1], g[0]);
      !InWedge(a, v, c, y[0]) && !InWedge(a, v, c, g[|g| - 1])
  {
    hide EdgesApart, Cross, Winding, Simple, Tame;
    var (ring, a, c) := ([v] + g + [v] + y, y[|y| - 1], g[0]);
    SimpleIsDistinct([v] + y);
    HookSides(v, g, y);
    CornerSides(a, v, c);
    CornerSides(v, c, c);
    CornerSides(v, y[0], c);
    Opposite(v, c, y[0]);
    CornerSides(v, g[|g| - 1], c);
    Opposite(v, c, g[|g| - 1]);
    assert ring[0] == v && ring[1] == c && ring[|ring| - 1] == a;
    forall p, q | IsEdge(ring, p, q)
      ensures (p == v ==> !InWedge(a, v, c, q)) && (q == v ==> !InWedge(a, v, c, p))
    {
      if p == v || q == v {
        EdgesAtHook(v, g, y, p, q);
      }
    }
  }

  lemma EdgesAtHook(v: Point, g: seq<Point>, y: seq<Point>, p: Point, q: Point)
    requires Distinct([v] + y) && AllOff(g, [v] + y) && g != [] && y != [] && IsEdge([v] + g + [v] + y, p, q)
    ensures p == v ==> q == g[0] || q == y[0]
    ensures q == v ==> p == g[|g| - 1] || p == y[|y| - 1]
  {
    var (ring, outer) := ([v] + g + [v] + y, [v] + y);
    var i: nat :| EdgeAt(ring, i, p, q);
    assert outer[0] == v && outer[0] in outer;
    forall k | 0 < k < |ring| && k != |g| + 1 ensures ring[k] != v {
      if k < |g| + 1 {
        assert ring[k] == g[k - 1] && g[k - 1] in g;
      } else {
        assert ring[k] == outer[k - |g| - 1];
      }
    }
  }

  lemma HangsAtHook(v: Point, g: seq<Point>, y: seq<Point>)
    requires Hung(v, g, y)
    ensures HangsIn([v] + g + [v] + y, [v] + y, g, 0)
  {
    hide IsEdge, EdgesApart, Cross, Winding, Tame, Simple, WindsLeft;
    var (ring, outer) := ([v] + g + [v] + y, [v] + y);
    SimpleIsDistinct(outer);
    forall p, q | IsEdge(outer, p, q) ensures IsEdge(ring, p, q) {
      OuterEdges(v, g, y, p, q);
    }
    forall i | 0 <= i < |g| - 1 ensures IsEdge(ring, g[i], g[i + 1]) {
      EdgesOfCorner(ring, 1 + i);
    }
    EdgesOfCorner(ring, 0);
  }

  lemma EarAtHookByOuterCut(v: Point, g: seq<Point>, y: seq<Point>, w: Point)
    requires Hung(v, g, y) && StartsLeft([v] + y) && w in y && w != y[|y| - 1] && w != y[0]
    requires IsCut([v] + g + [v] + y, v, w) && InWedge(y[|y| - 1], v, g[0], w)
    ensures HasSomeEar([v] + g + [v] + y)
  {
    hide IsEdge, EdgesApart, Cross, Winding, Tame, IsRun, IsCut;
    var (ring, outer) := ([v] + g + [v] + y, [v] + y);
    HookSides(v, g, y);
    HangsAtHook(v, g, y);
    var k: nat :| k < |y| && y[k] == w;
    var j := k + 1;
    assert outer[j] == w && outer[1] == y[0] && outer[|outer| - 1] == y[|y| - 1] && outer[0] == v;
    LeftOfLeft(v, y[0], g[0], w);
    CutOfOuter(v, g, y, w);
    OutwardIsRun(v, g, y, j);
    assert Homeward(outer, j) == Homeward(ring, j + |g| + 1);
    SuffixIsRun(ring, j + |g| + 1);
    EarByOuterCut(ring, outer, g, 0, j);
  }

  lemma OutwardIsRun(v: Point, g: seq<Point>, y: seq<Point>, j: nat)
    requires j < |y|
    ensures IsRun([v] + g + [v] + y, Outward([v] + y, j))
  {
    var (ring, part) := ([v] + g + [v] + y, Outward([v] + y, j));
    assert Rotated(ring, |g| + 1) == [v] + y + [v] + g;
    assert part == Rotated(ring, |g| + 1)[..|part|];
    assert IsRunAt(ring, part, |g| + 1);
  }

  lemma CutOfOuter(v: Point, g: seq<Point>, y: seq<Point>, w: Point)
    requires y != [] && IsCut([v] + g + [v] + y, v, w)
    ensures IsCut([v] + y, v, w)
  {
    hide IsEdge, EdgesApart;
    forall p, q | IsEdge([v] + y, p, q) ensures EdgesApart(v, w, p, q) {
      OuterEdges(v, g, y, p, q);
    }
  }

  lemma EarAtHookByInnerCut(v: Point, g: seq<Point>, y: seq<Point>, i: nat)
    requires Hung(v, g, y) && StartsLeft([v] + y)
    requires i < |g| && g[i] != g[0] && g[i] != g[|g| - 1] && Distinct(g[..i + 1]) && Distinct(g[i..])
    requires IsCut([v] + g + [v] + y, v, g[i]) && InWedge(y[|y| - 1], v, g[0], g[i])
    ensures HasSomeEar([v] + g + [v] + y)
  {
    hide IsEdge, EdgesApart, Cross, Winding, Tame, IsRun, IsCut, Simple;
    var outer := [v] + y;
    HookSides(v, g, y);
    forall z | z in g ensures Below(v, z) {
      InnerIsAbove(outer, 0, z);
    }
    assert g[i] in g && g[|g| - 1] in g && outer[1] == y[0];
    LeftOfLeft(v, y[0], g[0], g[i]);
    if g[0] != g[|g| - 1] {
      LeftOfLeft(v, g[|g| - 1], g[0], g[i]);
    }
    HookPartsAreDistinct(v, g, y, i);
    EarAtTheHook(v, g, y, i);
  }

  lemma HookPartsAreDistinct(v: Point, g: seq<Point>, y: seq<Point>, i: nat)
    requires Simple([v] + y) && AllOff(g, [v] + y) && i < |g| && Distinct(g[..i + 1]) && Distinct(g[i..])
    ensures Distinct([v] + g[..i + 1]) && Distinct([v] + g[i..]) && AllOff(y, [v] + g)
  {
    hide IsEdge, EdgesApart;
    var outer := [v] + y;
    assert v in outer;
    forall k | 0 <= k < |g| ensures g[k] in g && g[k] != v {
    }
    forall z | z in y ensures z !in [v] + g {
      assert z in outer;
      var k: nat :| k < |y| && y[k] == z;
      assert outer[k + 1] == z && outer[0] == v;
    }
  }

  lemma EarAtLowest(v: Point, g: seq<Point>, y: seq<Point>)
    requires Hung(v, g, y) && StartsLeft([v] + y)
    ensures HasSomeEar([v] + g + [v] + y)
  {
    hide IsEdge, EdgesApart, Cross, Winding, Tame, IsCut, InsideTriangle, IsEarOf, Simple, StartsLeft, InWedge;
    var ring := [v] + g + [v] + y;
    SimpleIsDistinct([v] + y);
    HookIsClean(v, g, y);
    if IsEarOf(ring, 0) {
      EarAtStart(ring);
    } else {
      var j := CutFromCorner(ring);
      var w := ring[j];
      assert ring[0] == v && ring[1] == g[0] && ring[|ring| - 1] == y[|y| - 1];
      if w in y {
        EarAtHookByOuterCut(v, g, y, w);
      } else {
        assert w in g;
        var i: nat :| i < |g| && g[i] == w;
        if Distinct(g) {
          assert Distinct(g[..i + 1]) && Distinct(g[i..]);
        } else {
          LoopHalves(g, i);
        }
        EarAtHookByInnerCut(v, g, y, i);
      }
    }
  }

  /** A ring with something hung in has an ear. */
  lemma HungHasEar(v: Point, g: seq<Point>, y: seq<Point>)
    requires Hung(v, g, y)
    ensures HasSomeEar([v] + g + [v] + y)
  {
    hide IsEdge, EdgesApart, Cross, Winding, Tame, Simple, WindsLeft, StartsLeft;
    var (ring, outer) := ([v] + g + [v] + y, [v] + y);
    SimpleIsDistinct(outer);
    var k := HasLowest(outer);
    LowestIsUnique(outer, k);
    if k == 0 {
      assert Rotated(outer, 0) == outer;
      EarAtLowest(v, g, y);
    } else {
      var (f, back) := (y[k - 1..], y[..k - 1]);
      TurnedIsBehind(v, g, y, k);
      EarBehind(f, v, g, back);
      assert f + [v] + g + [v] + back == Rotated(ring, |g| + 1 + k);
      EarUnrotated(ring, |g| + 1 + k);
    }
  }

  lemma TurnedIsBehind(v: Point, g: seq<Point>, y: seq<Point>, k: nat)
    requires Hung(v, g, y) && 0 < k <= |y| && StartsLeft(Rotated([v] + y, k))
    ensures HungBehind(y[k - 1..], v, g, y[..k - 1])
  {
    hide EdgesApart, IsEdge, Cross, Winding, Simple, StartsLeft;
    var (ring, outer, f, back) := ([v] + g + [v] + y, [v] + y, y[k - 1..], y[..k - 1]);
    var r := f + [v] + back;
    assert r == Rotated(outer, k);
    SimpleRotated(outer, k);
    forall z | z in g ensures z !in r && Winding(r, z) == 1 {
      SameVertices(outer, k, z);
      WindingRotated(outer, k, z);
    }
    assert f + [v] + g + [v] + back == Rotated(ring, |g| + 1 + k);
    TameRotated(ring, |g| + 1 + k);
  }

  lemma TameRotated(ring: seq<Point>, k: nat)
    requires Tame(ring) && k <= |ring|
    ensures Tame(Rotated(ring, k))
  {
    hide EdgesApart, IsEdge;
    forall p, q ensures IsEdge(Rotated(ring, k), p, q) <==> IsEdge(ring, p, q) {
      EdgesRotated(ring, k, p, q);
    }
  }
}
