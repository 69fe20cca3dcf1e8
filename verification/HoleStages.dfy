/**
 The stages a chain with one hole goes through as ears are clipped: the hole hangs in the outer loop by a bridge,
 then the two touch at one vertex, and then there is one simple loop.
 */
module HoleStages {
  import opened Geometry
  import opened EdgeSums
  import opened RingMeasures
  import opened SegmentCrossing
  import opened SimpleLoops
  import opened SegmentWinding
  import opened Nearby
  import opened EarWinding
  import opened LowestVertex
  import opened CornerCuts
  import opened EdgeJumps
  import opened CornerSectors
  import opened Diagonals
  import opened TwoEars
  import opened HungLoops
  import opened HungEars
  import opened HookEars

  ghost predicate RingsApart(r: seq<Point>, s: seq<Point>) {
    forall a, b, c, d :: IsEdge(r, a, b) && IsEdge(s, c, d) ==> EdgesApart(a, b, c, d)
  }

  /** Together the two rings wind at most once around anything. */
  ghost predicate OnceTogether(r: seq<Point>, s: seq<Point>) {
    forall p: Point :: Winding(r, p) + Winding(s, p) <= 1
  }

  /** Two simple loops from p that have nothing else in common, one of them wound the other way inside the other. */
  ghost predicate Pinched(p: Point, x: seq<Point>, y: seq<Point>) {
    && Simple([p] + x) && Simple([p] + y) && AllOff(x, [p] + y) && RingsApart([p] + x, [p] + y)
    && OnceTogether([p] + x, [p] + y) && Winding([p] + x, y[0]) + Winding([p] + y, x[0]) == 1
  }

  function PinchRing(p: Point, x: seq<Point>, y: seq<Point>): seq<Point> {
    [p] + x + [p] + y
  }

  /** Two simple loops that have nothing in common, one wound the other way inside the other, and a bridge. */
  ghost predicate Linked(v: Point, h: Point, x: seq<Point>, y: seq<Point>) {
    && Simple([h] + x) && Simple([v] + y) && AllOff([h] + x, [v] + y) && RingsApart([h] + x, [v] + y)
    && IsCut([h] + x, v, h) && IsCut([v] + y, v, h)
    && OnceTogether([h] + x, [v] + y) && Winding([h] + x, v) + Winding([v] + y, h) == 1
  }

  function BridgeRing(v: Point, h: Point, x: seq<Point>, y: seq<Point>): seq<Point> {
    [v] + ([h] + x + [h]) + [v] + y
  }

  // ----- either loop may be the outer one -----

  lemma ApartBothWays(r: seq<Point>, s: seq<Point>)
    requires RingsApart(r, s)
    ensures RingsApart(s, r)
  {
    hide IsEdge, EdgesApart;
    forall a, b, c, d | IsEdge(s, a, b) && IsEdge(r, c, d) ensures EdgesApart(a, b, c, d) {
      ApartTurned(c, d, a, b);
    }
  }

  lemma PinchedSwaps(p: Point, x: seq<Point>, y: seq<Point>)
    requires Pinched(p, x, y)
    ensures Pinched(p, y, x) && PinchRing(p, y, x) == Rotated(PinchRing(p, x, y), |x| + 1)
  {
    hide IsEdge, EdgesApart, Winding;
    ApartBothWays([p] + x, [p] + y);
    OffBothWays(p, p, x, y);
  }

  lemma OffBothWays(p: Point, q: Point, x: seq<Point>, y: seq<Point>)
    requires Distinct([p] + x) && Distinct([q] + y) && AllOff(x, [q] + y) && (p == q || p !in [q] + y)
    ensures AllOff(y, [p] + x) && (p == q || q !in [p] + x)
  {
    var r := [q] + y;
    forall z | z in y ensures z !in [p] + x {
      var i: nat :| i < |y| && y[i] == z;
      assert r[i + 1] == z && r[0] == q && z in r;
    }
    assert q in r;
  }

  lemma LinkedSwaps(v: Point, h: Point, x: seq<Point>, y: seq<Point>)
    requires Linked(v, h, x, y)
    ensures Linked(h, v, y, x) && BridgeRing(h, v, y, x) == Rotated(BridgeRing(v, h, x, y), |x| + 2)
  {
    hide IsEdge, EdgesApart, Winding;
    ApartBothWays([h] + x, [v] + y);
    CutBack([h] + x, v, h);
    CutBack([v] + y, v, h);
    assert h in [h] + x;
    OffBothWays(h, v, x, y);
    assert AllOff([v] + y, [h] + x);
  }

  // ----- their edges -----

  lemma PinchEdges(p: Point, x: seq<Point>, y: seq<Point>, a: Point, b: Point)
    requires x != [] && y != [] && IsEdge(PinchRing(p, x, y), a, b)
    ensures IsEdge([p] + x, a, b) || IsEdge([p] + y, a, b)
  {
    var (ring, m) := (PinchRing(p, x, y), |x| + 1);
    var i: nat :| EdgeAt(ring, i, a, b);
    if i < m {
      assert EdgeAt([p] + x, i, a, b);
    } else {
      assert EdgeAt([p] + y, i - m, a, b);
    }
  }

  lemma BridgeEdges(v: Point, h: Point, x: seq<Point>, y: seq<Point>, a: Point, b: Point)
    requires x != [] && y != [] && IsEdge(BridgeRing(v, h, x, y), a, b)
    ensures IsEdge([h] + x, a, b) || IsEdge([v] + y, a, b) || (a == v && b == h) || (a == h && b == v)
  {
    var (ring, m) := (BridgeRing(v, h, x, y), |x| + 2);
    var i: nat :| EdgeAt(ring, i, a, b);
    if 0 < i < m {
      assert EdgeAt([h] + x, i - 1, a, b);
    } else if i > m {
      assert EdgeAt([v] + y, i - m - 1, a, b);
    }
  }

  lemma PinchIsTame(p: Point, x: seq<Point>, y: seq<Point>)
    requires Pinched(p, x, y)
    ensures Tame(PinchRing(p, x, y))
  {
    hide IsEdge, EdgesApart, Winding;
    var ring := PinchRing(p, x, y);
    forall a, b | IsEdge(ring, a, b) ensures a != b {
      PinchEdges(p, x, y, a, b);
      ProperInEither([p] + x, [p] + y, a, b);
    }
    forall a, b, c, d | IsEdge(ring, a, b) && IsEdge(ring, c, d)
      ensures (a, b) == (c, d) || (a, b) == (d, c) || EdgesApart(a, b, c, d)
    {
      PinchEdges(p, x, y, a, b);
      PinchEdges(p, x, y, c, d);
      if (a, b) != (c, d) {
        ApartInEither([p] + x, [p] + y, a, b, c, d);
      }
    }
  }

  lemma ProperInEither(r: seq<Point>, s: seq<Point>, a: Point, b: Point)
    requires Simple(r) && Simple(s) && (IsEdge(r, a, b) || IsEdge(s, a, b))
    ensures a != b
  {
    hide IsEdge, EdgesApart;
    if IsEdge(r, a, b) {
      EdgesAreProper(r, a, b);
    } else {
      EdgesAreProper(s, a, b);
    }
  }

  lemma ApartInEither(r: seq<Point>, s: seq<Point>, a: Point, b: Point, c: Point, d: Point)
    requires Simple(r) && Simple(s) && RingsApart(r, s)
    requires (IsEdge(r, a, b) || IsEdge(s, a, b)) && (IsEdge(r, c, d) || IsEdge(s, c, d)) && (a, b) != (c, d)
    ensures EdgesApart(a, b, c, d)
  {
    hide IsEdge, EdgesApart;
    if IsEdge(s, a, b) && IsEdge(r, c, d) {
      ApartTurned(c, d, a, b);
    }
  }

  lemma BridgeIsTame(v: Point, h: Point, x: seq<Point>, y: seq<Point>)
    requires Linked(v, h, x, y)
    ensures Tame(BridgeRing(v, h, x, y))
  {
    hide IsEdge, EdgesApart, Winding;
    var (ring, r, s) := (BridgeRing(v, h, x, y), [h] + x, [v] + y);
    assert h in r && v in s;
    CutBack(r, v, h);
    CutBack(s, v, h);
    forall a, b | IsEdge(ring, a, b) ensures a != b {
      BridgeEdges(v, h, x, y, a, b);
      if IsEdge(r, a, b) || IsEdge(s, a, b) {
        ProperInEither(r, s, a, b);
      }
    }
    forall a, b, c, d | IsEdge(ring, a, b) && IsEdge(ring, c, d)
      ensures (a, b) == (c, d) || (a, b) == (d, c) || EdgesApart(a, b, c, d)
    {
      BridgeEdges(v, h, x, y, a, b);
      BridgeEdges(v, h, x, y, c, d);
      if (IsEdge(r, a, b) || IsEdge(s, a, b)) && (IsEdge(r, c, d) || IsEdge(s, c, d)) {
        if (a, b) != (c, d) {
          ApartInEither(r, s, a, b, c, d);
        }
      } else if IsEdge(r, a, b) || IsEdge(s, a, b) {
        ApartTurned(c, d, a, b);
      }
    }
  }

  // ----- one is outer -----

  lemma NotBothLeft(r: seq<Point>, s: seq<Point>, k: nat)
    requires Simple(r) && Simple(s) && RingsApart(r, s) && OnceTogether(r, s) && WindsLeft(s) && k < |s| && s[k] !in r
    ensures Winding(r, s[k]) <= 0
  {
    hide IsEdge, EdgesApart, Winding, Simple;
    SimpleHasTwoEars(s);
    EdgesOfCorner(s, k);
    KeepsApart(r, s, s[k], s[After(k, |s|)]);
    OutsideByCount(r, s, k);
  }

  lemma KeepsApart(r: seq<Point>, s: seq<Point>, a: Point, b: Point)
    requires Simple(r) && RingsApart(r, s) && IsEdge(s, a, b)
    ensures ApartFrom(r, a, b)
  {
    hide IsEdge, EdgesApart;
    forall u, v | IsEdge(r, u, v) ensures u != v && EdgesApart(a, b, u, v) {
      EdgesAreProper(r, u, v);
      ApartTurned(u, v, a, b);
    }
  }

  /** Of two loops that wind once together and somewhere do, one goes left and one goes right. */
  lemma OneOfEach(r: seq<Point>, s: seq<Point>, i: nat, j: nat)
    requires Simple(r) && Simple(s) && RingsApart(r, s) && OnceTogether(r, s)
    requires i < |r| && j < |s| && r[i] !in s && s[j] !in r && Winding(r, s[j]) + Winding(s, r[i]) == 1
    ensures (WindsLeft(s) && WindsLeft(Reversed(r)) && Winding(s, r[i]) == 1 && Winding(r, s[j]) == 0)
         || (WindsLeft(r) && WindsLeft(Reversed(s)) && Winding(r, s[j]) == 1 && Winding(s, r[i]) == 0)
  {
    hide IsEdge, EdgesApart, Winding, Simple, WindsLeft;
    LeftOrRight(r);
    LeftOrRight(s);
    ApartBothWays(r, s);
    SimpleReversed(r);
    SimpleReversed(s);
    WindsWithin(r, s[j]);
    WindsWithin(s, r[i]);
    if WindsLeft(r) && WindsLeft(s) {
      NotBothLeft(r, s, j);
      NotBothLeft(s, r, i);
    }
  }

  /** Round a point a simple loop winds at most once, and only the way it goes. */
  lemma WindsWithin(r: seq<Point>, p: Point)
    requires Simple(r)
    ensures WindsLeft(r) ==> 0 <= Winding(r, p) <= 1
    ensures WindsLeft(Reversed(r)) ==> -1 <= Winding(r, p) <= 0
  {
    hide IsEdge, EdgesApart, Winding, Simple, WindsLeft;
    SimpleReversed(r);
    WindingReversed(r, p);
    if WindsLeft(r) {
      SimpleHasTwoEars(r);
    }
    if WindsLeft(Reversed(r)) {
      SimpleHasTwoEars(Reversed(r));
    }
  }

  // ----- they have ears -----

  /** Along the inner loop the outer one winds alike. */
  lemma {:induction false} WindingAlongOther(r: seq<Point>, s: seq<Point>, i: nat, j: nat)
    requires Simple(r) && RingsApart(r, s) && Simple(s) && i <= j < |s|
    requires forall k :: i <= k <= j ==> s[k] !in r
    ensures Winding(r, s[j]) == Winding(r, s[i])
  {
    hide IsEdge, EdgesApart, Winding, ApartFrom;
    if i < j {
      WindingAlongOther(r, s, i, j - 1);
      EdgesOfCorner(s, j - 1);
      EdgesAreProper(s, s[j - 1], s[j]);
      KeepsApart(r, s, s[j - 1], s[j]);
      StepOutside(r, s[j - 1], s[j]);
    }
  }

  lemma WoundAlike(r: seq<Point>, p: Point, x: seq<Point>, first: nat)
    requires Simple(r) && Simple([p] + x) && RingsApart(r, [p] + x) && AllOff(x, r) && first <= 1
    requires first == 1 || p !in r
    ensures forall z :: z in ([p] + x)[first..] ==> Winding(r, z) == Winding(r, ([p] + x)[first])
  {
    hide IsEdge, EdgesApart, Winding, Simple;
    var s := [p] + x;
    SimpleIsDistinct(s);
    forall k | first <= k < |s| ensures s[k] !in r {
      assert k > 0 ==> s[k] == x[k - 1] && x[k - 1] in x;
    }
    forall z | z in s[first..] ensures Winding(r, z) == Winding(r, s[first]) {
      var k: nat :| k < |s| - first && s[first..][k] == z;
      WindingAlongOther(r, s, first, first + k);
    }
  }

  /** At their common lowest vertex the inner loop turns right. */
  lemma InnerTurnsRight(p: Point, x: seq<Point>, y: seq<Point>)
    requires Simple([p] + x) && WindsLeft(Reversed([p] + x)) && AllOff(x, [p] + y) && LowestAt([p] + y, 0)
    requires forall z :: z in x ==> Winding([p] + y, z) == 1
    ensures x != [] && Cross(p, x[|x| - 1], x[0]) > 0.0
  {
    hide IsEdge, EdgesApart, Winding, Cross, WindsLeft;
    var inner := [p] + x;
    var (n, turned) := (|inner|, Reversed(inner));
    forall z | z in x ensures Below(p, z) {
      InnerIsAbove([p] + y, 0, z);
    }
    forall i | 0 <= i < n && i != n - 1 ensures Below(turned[n - 1], turned[i]) {
      assert turned[i] == x[n - 2 - i] && x[n - 2 - i] in x;
    }
    LowestIsUnique(turned, n - 1);
    var back := Rotated(turned, n - 1);
    assert back[0] == p && back[1] == x[|x| - 1] && back[n - 1] == x[0];
    CornerSides(x[0], p, x[|x| - 1]);
  }

  lemma PinchedHangs(p: Point, x: seq<Point>, y: seq<Point>)
    requires Pinched(p, x, y) && WindsLeft([p] + y) && WindsLeft(Reversed([p] + x)) && Winding([p] + y, x[0]) == 1
    ensures Hung(p, x, y)
  {
    hide IsEdge, EdgesApart, Winding, Cross, WindsLeft, RingsApart, Tame, Simple;
    var (inner, outer) := ([p] + x, [p] + y);
    PinchIsTame(p, x, y);
    SimpleIsDistinct(inner);
    PathIsDistinct(p, x);
    ApartBothWays(inner, outer);
    WoundAlike(outer, p, x, 1);
    assert inner[1..] == x;
    forall q: Point ensures Winding(inner, q) <= 0 {
      WindsWithin(inner, q);
    }
    if LowestAt(outer, 0) {
      InnerTurnsRight(p, x, y);
    }
  }

  lemma PathIsDistinct(p: Point, x: seq<Point>)
    requires Distinct([p] + x)
    ensures Distinct(x) && p !in x
  {
    assert forall k :: 0 <= k < |x| ==> ([p] + x)[k + 1] == x[k];
    assert ([p] + x)[0] == p;
  }

  lemma PinchedHasEar(p: Point, x: seq<Point>, y: seq<Point>)
    requires Pinched(p, x, y)
    ensures HasSomeEar(PinchRing(p, x, y))
  {
    hide IsEdge, EdgesApart, Winding, Cross, WindsLeft, RingsApart, Simple, HasSomeEar;
    var (inner, outer) := ([p] + x, [p] + y);
    SimpleIsDistinct(inner);
    SimpleIsDistinct(outer);
    OffBothWays(p, p, x, y);
    assert inner[1] == x[0] && outer[1] == y[0] && x[0] in x && y[0] in y;
    OneOfEach(inner, outer, 1, 1);
    if WindsLeft(outer) && WindsLeft(Reversed(inner)) && Winding(outer, x[0]) == 1 {
      PinchedHangs(p, x, y);
      HungHasEar(p, x, y);
    } else {
      PinchedSwaps(p, x, y);
      PinchedHangs(p, y, x);
      HungHasEar(p, y, x);
      EarUnrotated(PinchRing(p, x, y), |x| + 1);
    }
  }

  lemma LinkedHangs(v: Point, h: Point, x: seq<Point>, y: seq<Point>)
    requires Linked(v, h, x, y)
    requires WindsLeft([v] + y) && WindsLeft(Reversed([h] + x)) && Winding([v] + y, h) == 1
    ensures Hung(v, [h] + x + [h], y)
  {
    hide IsEdge, EdgesApart, Winding, Cross, WindsLeft, RingsApart, Tame, Simple;
    var (inner, outer, g) := ([h] + x, [v] + y, [h] + x + [h]);
    BridgeIsTame(v, h, x, y);
    SimpleIsDistinct(inner);
    assert h in inner;
    ApartBothWays(inner, outer);
    WoundAlike(outer, h, x, 0);
    assert inner[0..] == inner;
    assert forall z :: z in g ==> z in inner;
    assert g[..|g| - 1] == inner;
    forall q: Point ensures Winding([v] + g, q) <= 0 {
      WindsWithin(inner, q);
      WindingOfLasso(v, h, x, q);
    }
  }

  /** The loop x from h, gone to from v and back, winds as the loop does. */
  lemma WindingOfLasso(v: Point, h: Point, x: seq<Point>, q: Point)
    ensures Winding([v] + ([h] + x + [h]), q) == Winding([h] + x, q)
  {
    hide Winding;
    var walk := [v] + ([h] + x + [h]);
    WindingOfSpike(x, h, v, [], q);
    assert x + [h] + [v] + [h] + [] == Rotated(walk, 2);
    WindingRotated(walk, 2, q);
    assert x + [h] + [] == Rotated([h] + x, 1);
    WindingRotated([h] + x, 1, q);
  }

  lemma LinkedHasEar(v: Point, h: Point, x: seq<Point>, y: seq<Point>)
    requires Linked(v, h, x, y)
    ensures HasSomeEar(BridgeRing(v, h, x, y))
  {
    hide IsEdge, EdgesApart, Winding, Cross, WindsLeft, RingsApart, Simple, HasSomeEar, IsCut;
    var (inner, outer) := ([h] + x, [v] + y);
    SimpleIsDistinct(inner);
    SimpleIsDistinct(outer);
    assert inner[0] == h && outer[0] == v && h in inner;
    OffBothWays(h, v, x, y);
    OneOfEach(inner, outer, 0, 0);
    if WindsLeft(outer) && WindsLeft(Reversed(inner)) && Winding(outer, h) == 1 {
      LinkedHangs(v, h, x, y);
      HungHasEar(v, [h] + x + [h], y);
    } else {
      LinkedSwaps(v, h, x, y);
      LinkedHangs(h, v, y, x);
      HungHasEar(h, [v] + y + [v], x);
      EarUnrotated(BridgeRing(v, h, x, y), |x| + 2);
    }
  }
}
