/**
 Finding an ear of a ring with something hung into it: a cut from its lowest vertex leaves a simple part that has one.
 */
module HungEars {
  import opened Geometry
  import opened EdgeSums
  import opened RingMeasures
  import opened SegmentCrossing
  import opened SimpleLoops
  import opened SegmentWinding
  import opened Nearby
  import opened EarWinding
  import opened LowestVertex
  import opened CornerCuts
  import opened EdgeJumps
  import opened Diagonals
  import opened TwoEars
  import opened HungLoops

  /** Consecutive vertices of g are joined by edges of the ring. */
  ghost predicate IsPathOf(ring: seq<Point>, g: seq<Point>) {
    forall i :: 0 <= i < |g| - 1 ==> IsEdge(ring, g[i], g[i + 1])
  }

  ghost predicate AllOff(g: seq<Point>, part: seq<Point>) {
    forall z :: z in g ==> z !in part
  }

  /** Along a path that keeps off the part, the part winds alike. */
  lemma {:induction false} WindingAlongPath(ring: seq<Point>, part: seq<Point>, p: Point, q: Point, g: seq<Point>,
      i: nat)
    requires Tame(ring) && IsCutOff(ring, part, p, q) && IsPathOf(ring, g) && AllOff(g, part) && i < |g|
    ensures Winding(part, g[i]) == Winding(part, g[0])
  {
    hide Tame, IsCutOff, Winding, IsEdge, ApartFrom;
    if i > 0 {
      WindingAlongPath(ring, part, p, q, g, i - 1);
      OthersAreApart(ring, part, p, q, g[i - 1], g[i]);
      StepOutside(part, g[i - 1], g[i]);
    }
  }

  lemma OutwardIsCutOff(ring: seq<Point>, j: nat)
    requires 1 < j < |ring| - 1 && Distinct(Outward(ring, j)) && IsCut(ring, ring[0], ring[j])
    ensures IsCutOff(ring, Outward(ring, j), ring[j], ring[0])
  {
    hide IsEdge, EdgesApart;
    CutBack(ring, ring[0], ring[j]);
    var part := Outward(ring, j);
    assert part[0] == ring[0] && part[j] == ring[j];
    forall u, v | IsEdge(part, u, v) ensures (u == ring[j] && v == ring[0]) || IsEdge(ring, u, v) {
      OutwardEdges(ring, j, u, v);
    }
  }

  lemma HomewardIsCutOff(ring: seq<Point>, j: nat)
    requires 1 < j < |ring| - 1 && Distinct(Homeward(ring, j)) && IsCut(ring, ring[0], ring[j])
    ensures IsCutOff(ring, Homeward(ring, j), ring[0], ring[j])
  {
    hide IsEdge, EdgesApart;
    var part := Homeward(ring, j);
    assert part[0] == ring[0] && part[1] == ring[j];
    forall u, v | IsEdge(part, u, v) ensures (u == ring[0] && v == ring[j]) || IsEdge(ring, u, v) {
      HomewardEdges(ring, j, u, v);
    }
  }

  /** What is cut off a ring is cut off any ring that has its edges. */
  lemma CutOffWider(ring: seq<Point>, inner: seq<Point>, part: seq<Point>, p: Point, q: Point)
    requires IsCutOff(inner, part, p, q) && IsCut(ring, p, q)
    requires forall u, v :: IsEdge(inner, u, v) ==> IsEdge(ring, u, v)
    ensures IsCutOff(ring, part, p, q)
  {
    hide IsEdge, EdgesApart;
  }

  lemma PrefixIsRun(ring: seq<Point>, m: nat)
    requires 0 < m <= |ring|
    ensures IsRun(ring, ring[..m])
  {
    assert Rotated(ring, 0) == ring;
    assert IsRunAt(ring, ring[..m], 0);
  }

  /** The part from j on, and the start put behind it. */
  lemma SuffixIsRun(ring: seq<Point>, j: nat)
    requires 0 < j < |ring|
    ensures IsRun(ring, Rotated(Homeward(ring, j), 1))
  {
    var (turned, part) := (Rotated(ring, j), Rotated(Homeward(ring, j), 1));
    assert part == ring[j..] + [ring[0]];
    assert turned[..|part|] == part;
    assert IsRunAt(ring, part, j);
  }

  /** An ear of the part that comes home, which the ring meets in one go from another start. */
  lemma TurnedRunHasEar(ring: seq<Point>, part: seq<Point>)
    requires |part| > 0 && IsRun(ring, Rotated(part, 1)) && Simple(part) && StartsLeft(part)
    requires forall z :: z in ring && z !in part ==> Winding(part, z) <= 0 && OffRing(part, z)
    ensures HasSomeEar(ring)
  {
    hide IsEdge, EdgesApart, Winding, StartsLeft, OnEdge;
    var turned := Rotated(part, 1);
    SimpleRotated(part, 1);
    assert Rotated(turned, |part| - 1) == part;
    assert WindsLeft(turned);
    forall z | z in ring && z !in turned ensures Winding(turned, z) <= 0 && OffRing(turned, z) {
      SameVertices(part, 1, z);
      WindingRotated(part, 1, z);
      forall u, v | IsEdge(turned, u, v) ensures !OnEdge(u, v, z) {
        EdgesRotated(part, 1, u, v);
      }
    }
    RunHasEar(ring, turned);
  }

  // ----- a cut to the outer loop -----

  /** The ring is the loop r with the path g hung in at r[m]; r winds around all of g. */
  ghost predicate HangsIn(ring: seq<Point>, r: seq<Point>, g: seq<Point>, m: nat) {
    && Tame(ring) && m < |r| && g != []
    && (forall u, v :: IsEdge(r, u, v) ==> IsEdge(ring, u, v))
    && (forall z :: z in ring <==> z in r || z in g)
    && IsPathOf(ring, g) && IsEdge(ring, r[m], g[0])
    && AllOff(g, r) && forall z :: z in g ==> Winding(r, z) == 1
  }

  lemma PartsOfOuter(ring: seq<Point>, r: seq<Point>, j: nat)
    requires Cuts(r, j) && IsCut(ring, r[0], r[j]) && forall u, v :: IsEdge(r, u, v) ==> IsEdge(ring, u, v)
    ensures IsCutOff(ring, Outward(r, j), r[j], r[0]) && IsCutOff(ring, Homeward(r, j), r[0], r[j])
  {
    hide IsEdge, EdgesApart, Cross;
    PartsAreSimple(r, j);
    OutwardIsCutOff(r, j);
    HomewardIsCutOff(r, j);
    CutBack(ring, r[0], r[j]);
    CutOffWider(ring, r, Outward(r, j), r[j], r[0]);
    CutOffWider(ring, r, Homeward(r, j), r[0], r[j]);
  }

  /** If the outward part winds around nothing of g, it does not pass the place where g is hung in. */
  lemma HookIsPast(ring: seq<Point>, r: seq<Point>, g: seq<Point>, m: nat, j: nat)
    requires HangsIn(ring, r, g, m) && Cuts(r, j) && IsCut(ring, r[0], r[j])
    requires Winding(Homeward(r, j), g[0]) == 1
    ensures m == 0 || j <= m
  {
    hide Tame, IsEdge, EdgesApart, Winding, Simple, IsCutOff, ApartFrom, IsPathOf, Cross;
    var home := Homeward(r, j);
    PartsOfOuter(ring, r, j);
    if 0 < m < j {
      NotBeyond(r, j, m);
      BeforeIsOutside(r, j, m);
      OthersAreApart(ring, home, r[0], r[j], r[m], g[0]);
      OffBoth(r, g[0], j);
      StepOutside(home, r[m], g[0]);
    }
  }

  lemma HookIsBefore(ring: seq<Point>, r: seq<Point>, g: seq<Point>, m: nat, j: nat)
    requires HangsIn(ring, r, g, m) && Cuts(r, j) && IsCut(ring, r[0], r[j])
    requires Winding(Outward(r, j), g[0]) == 1
    ensures m <= j
  {
    hide Tame, IsEdge, EdgesApart, Winding, Simple, IsCutOff, ApartFrom, IsPathOf, Cross;
    var out := Outward(r, j);
    PartsOfOuter(ring, r, j);
    if m > j {
      NotBefore(r, j, m);
      BeyondIsOutside(r, j, m);
      OthersAreApart(ring, out, r[j], r[0], r[m], g[0]);
      OffBoth(r, g[0], j);
      StepOutside(out, r[m], g[0]);
    }
  }

  lemma NotBeyond(r: seq<Point>, j: nat, m: nat)
    requires Simple(r) && 0 < m < j < |r|
    ensures r[m] !in Homeward(r, j)
  {
  }

  lemma NotBefore(r: seq<Point>, j: nat, m: nat)
    requires Simple(r) && j < m < |r|
    ensures r[m] !in Outward(r, j)
  {
  }

  lemma OffBoth(r: seq<Point>, z: Point, j: nat)
    requires z !in r && 0 < j < |r|
    ensures z !in Outward(r, j) && z !in Homeward(r, j)
  {
  }

  lemma EarOfOutward(ring: seq<Point>, r: seq<Point>, g: seq<Point>, m: nat, j: nat)
    requires HangsIn(ring, r, g, m) && Cuts(r, j) && IsCut(ring, r[0], r[j])
    requires IsRun(ring, Outward(r, j)) && Winding(Outward(r, j), g[0]) == 0
    ensures HasSomeEar(ring)
  {
    hide Tame, IsEdge, EdgesApart, Winding, Simple, IsCutOff, OffRing, StartsLeft, Cross, IsRun, IsPathOf;
    var part := Outward(r, j);
    PartsOfOuter(ring, r, j);
    PartsAreSimple(r, j);
    PartsStartLeft(r, j);
    FromItsStart(part);
    forall z | z in ring && z !in part ensures Winding(part, z) <= 0 && OffRing(part, z) {
      OthersAreOff(ring, part, r[j], r[0], z);
      if z in g {
        forall y | y in g ensures y !in part {
          OffBoth(r, y, j);
        }
        var i: nat :| i < |g| && g[i] == z;
        WindingAlongPath(ring, part, r[j], r[0], g, i);
      } else {
        var i := PastTheCut(r, j, z);
        BeyondIsOutside(r, j, i);
      }
    }
    RunHasEar(ring, part);
  }

  lemma EarOfHomeward(ring: seq<Point>, r: seq<Point>, g: seq<Point>, m: nat, j: nat)
    requires HangsIn(ring, r, g, m) && Cuts(r, j) && IsCut(ring, r[0], r[j])
    requires IsRun(ring, Rotated(Homeward(r, j), 1)) && Winding(Homeward(r, j), g[0]) == 0
    ensures HasSomeEar(ring)
  {
    hide Tame, IsEdge, EdgesApart, Winding, Simple, IsCutOff, OffRing, StartsLeft, Cross, IsRun, IsPathOf;
    var part := Homeward(r, j);
    PartsOfOuter(ring, r, j);
    PartsAreSimple(r, j);
    PartsStartLeft(r, j);
    forall z | z in ring && z !in part ensures Winding(part, z) <= 0 && OffRing(part, z) {
      OthersAreOff(ring, part, r[0], r[j], z);
      if z in g {
        forall y | y in g ensures y !in part {
          OffBoth(r, y, j);
        }
        var i: nat :| i < |g| && g[i] == z;
        WindingAlongPath(ring, part, r[0], r[j], g, i);
      } else {
        var i := BeforeTheCut(r, j, z);
        BeforeIsOutside(r, j, i);
      }
    }
    TurnedRunHasEar(ring, part);
  }

  /** The cut divides the loop in two; what hangs in is in one of them, and the other has an ear. */
  lemma EarByOuterCut(ring: seq<Point>, r: seq<Point>, g: seq<Point>, m: nat, j: nat)
    requires HangsIn(ring, r, g, m) && Cuts(r, j) && IsCut(ring, r[0], r[j])
    requires m == 0 || j <= m ==> IsRun(ring, Outward(r, j))
    requires m <= j ==> IsRun(ring, Rotated(Homeward(r, j), 1))
    ensures HasSomeEar(ring)
  {
    hide IsEdge, EdgesApart, Winding, Simple, StartsLeft, IsRun, Cross, Tame;
    PartsAreSimple(r, j);
    PartsStartLeft(r, j);
    FromItsStart(Outward(r, j));
    FromItsStart(Homeward(r, j));
    SimpleHasTwoEars(Outward(r, j));
    SimpleHasTwoEars(Homeward(r, j));
    WindingOfParts(r, j, g[0]);
    if Winding(Outward(r, j), g[0]) == 0 {
      HookIsPast(ring, r, g, m, j);
      EarOfOutward(ring, r, g, m, j);
    } else {
      HookIsBefore(ring, r, g, m, j);
      EarOfHomeward(ring, r, g, m, j);
    }
  }

  // ----- a cut to what hangs in -----

  /** The cut divides the ring in two simple parts. */
  lemma EarByInnerCut(ring: seq<Point>, j: nat)
    requires Tame(ring) && 1 < j < |ring| - 1 && IsCut(ring, ring[0], ring[j])
    requires Distinct(Outward(ring, j)) && Distinct(Homeward(ring, j))
    requires LowestAt(Outward(ring, j), 0) && LowestAt(Homeward(ring, j), 0)
    requires InWedge(ring[|ring| - 1], ring[0], ring[1], ring[j])
    requires forall p: Point :: Winding(ring, p) <= 1
    ensures HasSomeEar(ring)
  {
    hide IsEdge, EdgesApart, Winding, Simple, IsCutOff, OffRing, Cross, IsRun, Tame, OnceAtMost;
    var (part, rest) := (Outward(ring, j), Homeward(ring, j));
    var (b, w) := (ring[0], ring[j]);
    OutwardIsCutOff(ring, j);
    HomewardIsCutOff(ring, j);
    CutOffIsSimple(ring, part, w, b);
    CutOffIsSimple(ring, rest, b, w);
    BothStartLeft(ring, j);
    FromItsStart(part);
    FromItsStart(rest);
    SimpleHasTwoEars(rest);
    forall p: Point ensures Winding(part, p) + Winding(rest, p) <= 1 {
      WindingOfParts(ring, j, p);
    }
    forall z | z in ring && z !in part ensures Winding(part, z) <= 0 && OffRing(part, z) {
      OthersAreOff(ring, part, w, b, z);
      var k := InHomeward(ring, j, z);
      OthersAreApart(ring, part, w, b, rest[k], rest[After(k, |rest|)]);
      OutsideByCount(part, rest, k);
    }
    PrefixIsRun(ring, j + 1);
    RunHasEar(ring, part);
  }

  lemma BothStartLeft(ring: seq<Point>, j: nat)
    requires 1 < j < |ring| - 1 && LowestAt(Outward(ring, j), 0) && LowestAt(Homeward(ring, j), 0)
    requires InWedge(ring[|ring| - 1], ring[0], ring[1], ring[j])
    ensures StartsLeft(Outward(ring, j)) && StartsLeft(Homeward(ring, j))
  {
    hide Cross;
    CornerSides(ring[0], ring[1], ring[j]);
    CornerSides(ring[j], ring[0], ring[1]);
  }

  lemma InHomeward(ring: seq<Point>, j: nat, z: Point) returns (k: nat)
    requires 1 < j < |ring| - 1 && z in ring && z !in Outward(ring, j)
    ensures 1 < k < |Homeward(ring, j)| && Homeward(ring, j)[k] == z
    ensures IsEdge(ring, z, Homeward(ring, j)[After(k, |Homeward(ring, j)|)])
  {
    var i := PastTheCut(ring, j, z);
    k := i - j + 1;
    EdgesOfCorner(ring, i);
  }

  /** A cut from the lowest vertex to the near end of the bridge, where what hangs in hangs at the far end of one. */
  lemma EarByBridgeCut(y: seq<Point>, v: Point, h: Point, x: seq<Point>, back: seq<Point>)
    requires y != [] && x != []
    requires var (ring, r) := (y + [v] + ([h] + x + [h]) + [v] + back, y + [v] + back);
      && Tame(ring) && Simple(r) && StartsLeft(r) && h !in r && AllOff(x, r) && h !in x
      && InWedge(ring[|ring| - 1], ring[0], ring[1], h) && IsCut(ring, ring[0], h) && Below(ring[0], h)
      && forall z :: z in x ==> Winding(r, z) == 1
    ensures HasSomeEar(y + [v] + ([h] + x + [h]) + [v] + back)
  {
    hide IsEdge, EdgesApart, Winding, Simple, IsCutOff, Cross, Tame, IsCut;
    var (ring, r, b) := (y + [v] + ([h] + x + [h]) + [v] + back, y + [v] + back, y[0]);
    var (i, j) := (|y| + 1, |y| + |x| + 2);
    var (first, second) := (Outward(ring, i), Homeward(ring, j));
    assert first == y + [v, h] && second == [b] + [h, v] + back;
    BridgePartsAreFine(y, v, h, x, back);
    forall p: Point ensures Winding(first, p) + Winding(second, p) == Winding(r, p) {
      BridgePartsAddUp(y, v, h, back, p);
    }
    FromItsStart(r);
    FromItsStart(first);
    FromItsStart(second);
    SimpleHasTwoEars(r);
    SimpleHasTwoEars(first);
    SimpleHasTwoEars(second);
    assert x[0] in x;
    if Winding(first, x[0]) == 0 {
      EarOfFirst(y, v, h, x, back);
    } else {
      EarOfSecond(y, v, h, x, back);
    }
  }

  lemma BridgePartsAddUp(y: seq<Point>, v: Point, h: Point, back: seq<Point>, p: Point)
    requires y != []
    ensures Winding(y + [v, h], p) + Winding([y[0]] + [h, v] + back, p) == Winding(y + [v] + back, p)
  {
    hide Winding;
    var (wide, i) := (y + [v] + [h] + [v] + back, |y| + 1);
    WindingOfSpike(y, v, h, back, p);
    WindingOfParts(wide, i, p);
    assert Outward(wide, i) == y + [v, h] && Homeward(wide, i) == [y[0]] + [h, v] + back;
  }

  lemma BridgePartsAreFine(y: seq<Point>, v: Point, h: Point, x: seq<Point>, back: seq<Point>)
    requires y != [] && x != []
    requires var (ring, r) := (y + [v] + ([h] + x + [h]) + [v] + back, y + [v] + back);
      && Tame(ring) && Simple(r) && StartsLeft(r) && h !in r
      && InWedge(ring[|ring| - 1], ring[0], ring[1], h) && IsCut(ring, ring[0], h) && Below(ring[0], h)
    ensures var ring := y + [v] + ([h] + x + [h]) + [v] + back;
      var (first, second) := (Outward(ring, |y| + 1), Homeward(ring, |y| + |x| + 2));
      && IsCutOff(ring, first, h, y[0]) && IsCutOff(ring, second, y[0], h)
      && Simple(first) && Simple(second) && StartsLeft(first) && StartsLeft(second)
  {
    hide IsEdge, EdgesApart, Cross, Tame, IsCut, OnSegment;
    var (ring, r, b) := (y + [v] + ([h] + x + [h]) + [v] + back, y + [v] + back, y[0]);
    var (i, j) := (|y| + 1, |y| + |x| + 2);
    var (first, second) := (Outward(ring, i), Homeward(ring, j));
    SimpleIsDistinct(r);
    BridgePartsAreDistinct(y, v, h, x, back);
    assert ring[0] == b && ring[i] == h && ring[j] == h;
    OutwardIsCutOff(ring, i);
    HomewardIsCutOff(ring, j);
    CutOffIsSimple(ring, first, h, b);
    CutOffIsSimple(ring, second, b, h);
    assert first[0] == b && first[1] == ring[1] && first[|first| - 1] == h;
    assert second[0] == b && second[1] == h && second[|second| - 1] == ring[|ring| - 1];
    CornerSides(b, ring[1], h);
    CornerSides(h, b, ring[1]);
  }

  lemma BridgePartsAreDistinct(y: seq<Point>, v: Point, h: Point, x: seq<Point>, back: seq<Point>)
    requires y != [] && x != []
    requires var r := y + [v] + back; Distinct(r) && LowestAt(r, 0) && h !in r && Below(y[0], h)
    ensures var ring := y + [v] + ([h] + x + [h]) + [v] + back;
      var (first, second) := (Outward(ring, |y| + 1), Homeward(ring, |y| + |x| + 2));
      && Distinct(first) && Distinct(second) && LowestAt(first, 0) && LowestAt(second, 0)
  {
    var (ring, r) := (y + [v] + ([h] + x + [h]) + [v] + back, y + [v] + back);
    var (first, second) := (Outward(ring, |y| + 1), Homeward(ring, |y| + |x| + 2));
    assert first == r[..|y| + 1] + [h];
    assert second == [r[0]] + [h] + r[|y|..];
    assert forall k :: 0 <= k < |r| ==> r[k] in r;
  }

  lemma EarOfFirst(y: seq<Point>, v: Point, h: Point, x: seq<Point>, back: seq<Point>)
    requires y != [] && x != []
    requires var (ring, r) := (y + [v] + ([h] + x + [h]) + [v] + back, y + [v] + back);
      var (first, second) := (Outward(ring, |y| + 1), Homeward(ring, |y| + |x| + 2));
      && Tame(ring) && IsCutOff(ring, first, h, y[0]) && h !in x && AllOff(x, r)
      && Simple(first) && Simple(second) && WindsLeft(first) && OnceAtMost(second)
      && (forall p: Point :: Winding(first, p) + Winding(second, p) <= 1)
      && Winding(first, x[0]) == 0
    ensures HasSomeEar(y + [v] + ([h] + x + [h]) + [v] + back)
  {
    hide IsEdge, EdgesApart, Winding, Simple, IsCutOff, OffRing, IsRun, Tame, OnceAtMost, WindsLeft;
    var (ring, b) := (y + [v] + ([h] + x + [h]) + [v] + back, y[0]);
    var (i, j) := (|y| + 1, |y| + |x| + 2);
    var (first, second) := (Outward(ring, i), Homeward(ring, j));
    assert first == y + [v, h] && second == [b] + [h, v] + back;
    InnerPath(y, v, h, x, back);
    forall z | z in ring && z !in first ensures Winding(first, z) <= 0 && OffRing(first, z) {
      OthersAreOff(ring, first, h, b, z);
      if z in x {
        var k: nat :| k < |x| && x[k] == z;
        WindingAlongPath(ring, first, h, b, x, k);
      } else {
        var k := PastTheCut(ring, i, z);
        EdgesOfCorner(ring, k);
        assert second[k - j + 1] == z && second[After(k - j + 1, |second|)] == ring[After(k, |ring|)];
        OthersAreApart(ring, first, h, b, z, ring[After(k, |ring|)]);
        OutsideByCount(first, second, k - j + 1);
      }
    }
    PrefixIsRun(ring, i + 1);
    RunHasEar(ring, first);
  }

  lemma EarOfSecond(y: seq<Point>, v: Point, h: Point, x: seq<Point>, back: seq<Point>)
    requires y != [] && x != []
    requires var (ring, r) := (y + [v] + ([h] + x + [h]) + [v] + back, y + [v] + back);
      var (first, second) := (Outward(ring, |y| + 1), Homeward(ring, |y| + |x| + 2));
      && Tame(ring) && IsCutOff(ring, second, y[0], h) && h !in x && AllOff(x, r)
      && Simple(first) && Simple(second) && StartsLeft(second) && OnceAtMost(first)
      && (forall p: Point :: Winding(first, p) + Winding(second, p) <= 1)
      && Winding(second, x[0]) <= 0
    ensures HasSomeEar(y + [v] + ([h] + x + [h]) + [v] + back)
  {
    hide IsEdge, EdgesApart, Winding, Simple, IsCutOff, OffRing, IsRun, Tame, OnceAtMost, StartsLeft;
    var (ring, b) := (y + [v] + ([h] + x + [h]) + [v] + back, y[0]);
    var (i, j) := (|y| + 1, |y| + |x| + 2);
    var (first, second) := (Outward(ring, i), Homeward(ring, j));
    assert first == y + [v, h] && second == [b] + [h, v] + back;
    InnerPath(y, v, h, x, back);
    forall z | z in ring && z !in second ensures Winding(second, z) <= 0 && OffRing(second, z) {
      OthersAreOff(ring, second, b, h, z);
      if z in x {
        var k: nat :| k < |x| && x[k] == z;
        WindingAlongPath(ring, second, b, h, x, k);
      } else {
        var k := BeforeTheCut(ring, j, z);
        assert k < |y|;
        EdgesOfCorner(ring, k);
        assert first[k] == z && first[After(k, |first|)] == ring[After(k, |ring|)];
        OthersAreApart(ring, second, b, h, z, ring[After(k, |ring|)]);
        OutsideByCount(second, first, k);
      }
    }
    SuffixIsRun(ring, j);
    TurnedRunHasEar(ring, second);
  }

  lemma InnerPath(y: seq<Point>, v: Point, h: Point, x: seq<Point>, back: seq<Point>)
    ensures IsPathOf(y + [v] + ([h] + x + [h]) + [v] + back, x)
  {
    var ring := y + [v] + ([h] + x + [h]) + [v] + back;
    forall i | 0 <= i < |x| - 1 ensures IsEdge(ring, x[i], x[i + 1]) {
      assert EdgeAt(ring, |y| + 2 + i, x[i], x[i + 1]);
    }
  }
}
