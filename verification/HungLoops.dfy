/**
 A loop with something hung into it: at one vertex v it is left along G and come back to, v + G + v + Y.
 Such a ring meets v twice, and still has an ear.
 */
module HungLoops {
  import opened Geometry
  import opened EdgeSums
  import opened RingMeasures
  import opened SegmentCrossing
  import opened SimpleLoops
  import opened SegmentWinding
  import opened Nearby
  import opened EarWinding
  import opened LowestVertex
  import opened CornerCuts
  import opened EdgeJumps
  import opened Diagonals
  import opened TwoEars

  ghost predicate HasSomeEar(ring: seq<Point>) {
    exists k: nat :: k < |ring| && IsEarOf(ring, k)
  }

  lemma EarUnrotated(ring: seq<Point>, i: nat)
    requires i < |ring| && HasSomeEar(Rotated(ring, i))
    ensures HasSomeEar(ring)
  {
    hide IsClearOf, Cross;
    var (n, turned) := (|ring|, Rotated(ring, i));
    var k: nat :| k < n && IsEarOf(turned, k);
    var j := if k + i < n then k + i else k + i - n;
    assert ring[j] == turned[k];
    assert ring[Before(j, n)] == turned[Before(k, n)];
    assert ring[After(j, n)] == turned[After(k, n)];
    forall p | p in ring ensures p in turned {
      SameVertices(ring, i, p);
    }
    assert IsEarOf(ring, j);
  }

  // ----- parts of a ring that may touch itself -----

  /** The part's edges are the ring's, but for the cut that closes it. */
  ghost predicate IsCutOff(ring: seq<Point>, part: seq<Point>, p: Point, q: Point) {
    && |part| >= 3 && Distinct(part) && p in part && q in part && p != q && IsCut(ring, p, q)
    && forall u, v :: IsEdge(part, u, v) ==> (u == p && v == q) || IsEdge(ring, u, v)
  }

  lemma NotBothWays(ring: seq<Point>, u: Point, v: Point)
    requires |ring| >= 3 && Distinct(ring)
    ensures !(IsEdge(ring, u, v) && IsEdge(ring, v, u))
  {
    if IsEdge(ring, u, v) {
      var i: nat :| EdgeAt(ring, i, u, v);
      var j := After(i, |ring|);
      assert ring[After(j, |ring|)] != u;
      if IsEdge(ring, v, u) {
        EdgesAtCorner(ring, j, v, u);
      }
    }
  }

  lemma CutOffIsSimple(ring: seq<Point>, part: seq<Point>, p: Point, q: Point)
    requires Tame(ring) && IsCutOff(ring, part, p, q)
    ensures Simple(part)
  {
    hide EdgesApart, IsEdge;
    forall a, b, c, d | IsEdge(part, a, b) && IsEdge(part, c, d) && (a, b) != (c, d) ensures EdgesApart(a, b, c, d) {
      NotBothWays(part, a, b);
      if a == p && b == q {
      } else if c == p && d == q {
        ApartTurned(p, q, a, b);
      }
    }
  }

  /** The ring's other vertices are off the part. */
  lemma OthersAreOff(ring: seq<Point>, part: seq<Point>, p: Point, q: Point, z: Point)
    requires Tame(ring) && IsCutOff(ring, part, p, q) && z in ring && z !in part
    ensures OffRing(part, z)
  {
    hide EdgesApart, IsEdge, OnEdge;
    var i: nat :| i < |ring| && ring[i] == z;
    var next := ring[After(i, |ring|)];
    EdgesOfCorner(ring, i);
    EndIsOn(next, z);
    OnEdgeBack(next, z, z);
    forall u, v | IsEdge(part, u, v) ensures !OnEdge(u, v, z) {
      EndsAreVertices(part, u, v);
      if OnEdge(u, v, z) {
        if u == p && v == q {
          ApartShare(p, q, z, next, z);
        } else {
          VertexOnEdge(ring, i, u, v);
        }
      }
    }
  }

  /** An edge of the ring that starts outside the part keeps apart from it. */
  lemma OthersAreApart(ring: seq<Point>, part: seq<Point>, p: Point, q: Point, x: Point, y: Point)
    requires Tame(ring) && IsCutOff(ring, part, p, q) && (IsEdge(ring, x, y) || IsEdge(ring, y, x))
    requires x !in part || y !in part
    ensures x != y && ApartFrom(part, x, y)
  {
    hide EdgesApart, IsEdge;
    forall u, v | IsEdge(part, u, v) ensures u != v && EdgesApart(x, y, u, v) {
      EndsAreVertices(part, u, v);
      if IsEdge(ring, x, y) {
        OneIsApart(ring, p, q, x, y, u, v);
      } else {
        OneIsApart(ring, p, q, y, x, u, v);
        ApartTurned(y, x, u, v);
      }
    }
  }

  lemma OneIsApart(ring: seq<Point>, p: Point, q: Point, x: Point, y: Point, u: Point, v: Point)
    requires Tame(ring) && IsCut(ring, p, q) && p != q && IsEdge(ring, x, y)
    requires ((u == p && v == q) || IsEdge(ring, u, v)) && (x, y) != (u, v) && (x, y) != (v, u)
    ensures u != v && EdgesApart(x, y, u, v)
  {
    hide EdgesApart, IsEdge;
    if u == p && v == q {
      ApartTurned(p, q, x, y);
    }
  }

  /** The part is met in one go on the way round the ring. */
  ghost predicate IsRun(ring: seq<Point>, part: seq<Point>) {
    exists i :: IsRunAt(ring, part, i)
  }

  predicate IsRunAt(ring: seq<Point>, part: seq<Point>, i: nat) {
    i < |ring| && |part| <= |ring| && Rotated(ring, i)[..|part|] == part
  }

  /** An ear of a part met in one go, away from the cut, is an ear of the ring if the others are outside the part. */
  lemma RunHasEar(ring: seq<Point>, part: seq<Point>)
    requires IsRun(ring, part) && Simple(part) && WindsLeft(part)
    requires forall z :: z in ring && z !in part ==> Winding(part, z) <= 0 && OffRing(part, z)
    ensures HasSomeEar(ring)
  {
    hide IsEdge, Cross, Simple, Winding, InsideTriangle, WindsLeft, OffRing, HasTwoEars, IsEarOf;
    var i :| IsRunAt(ring, part, i);
    var (turned, m) := (Rotated(ring, i), |part|);
    SimpleIsDistinct(part);
    SimpleHasTwoEars(part);
    EdgesOfCorner(part, m - 1);
    var a, b, c := PartHasEar(part, part[m - 1], part[0]);
    var k := IndexOfEar(part, a, b, c);
    assert turned[k] == b && turned[k - 1] == a && turned[k + 1] == c;
    forall p | p in turned ensures p == b || IsClearOf(a, b, c, p) {
      SameVertices(ring, i, p);
      if p !in part && InsideTriangle(a, b, c, p) {
        EarIsEnclosed(part, a, b, c, p);
      }
    }
    EarHere(turned, k);
    EarUnrotated(ring, i);
  }

  lemma EarHere(ring: seq<Point>, k: nat)
    requires 0 < k < |ring| - 1 && Cross(ring[k - 1], ring[k], ring[k + 1]) > 0.0
    requires forall p :: p in ring ==> p == ring[k] || IsClearOf(ring[k - 1], ring[k], ring[k + 1], p)
    ensures HasSomeEar(ring)
  {
    hide IsClearOf, Cross;
    assert IsEarOf(ring, k);
  }

  // ----- sums -----

  lemma PathSumSplit(w: Weight, path: seq<Point>, j: nat)
    requires 0 < j < |path|
    ensures PathSum(w, path) == PathSum(w, path[..j + 1]) + PathSum(w, path[j..])
  {
    assert path == path[..j] + path[j..];
    PathSumConcat(w, path[..j], path[j..]);
    assert path[..j + 1] == path[..j] + [path[j]];
    PathSumSnoc(w, path[..j], path[j]);
  }

  /** The two parts of a ring that is cut add up to it. */
  lemma SumOfParts(w: Weight, ring: seq<Point>, j: nat)
    requires Antisymmetric(w) && 0 < j < |ring|
    ensures CycleSum(w, ring) == CycleSum(w, Outward(ring, j)) + CycleSum(w, Homeward(ring, j))
  {
    PathSumSplit(w, ring, j);
    PathSumConcat(w, [ring[0]], ring[j..]);
  }

  lemma WindingOfParts(ring: seq<Point>, j: nat, p: Point)
    requires 0 < j < |ring|
    ensures Winding(ring, p) == Winding(Outward(ring, j), p) + Winding(Homeward(ring, j), p)
  {
    WindingTermAntisymmetric(p);
    SumOfParts(WindingTerm(p), ring, j);
    WindingExact(ring, p);
    WindingExact(Outward(ring, j), p);
    WindingExact(Homeward(ring, j), p);
  }

  /** What is hung in at v adds its own sum. */
  lemma SumOfHung(w: Weight, front: seq<Point>, v: Point, g: seq<Point>, back: seq<Point>)
    requires Antisymmetric(w)
    ensures CycleSum(w, front + [v] + g + [v] + back) == CycleSum(w, front + [v] + back) + CycleSum(w, [v] + g)
  {
    assert front + [v] + g + [v] + back == front + ([v] + g) + ([v] + back);
    assert front + [v] + back == front + ([v] + back);
    PathSumConcat(w, [v] + g, [v] + back);
    assert w(v, v) == 0.0;
    if front != [] {
      PathSumConcat(w, front + ([v] + g), [v] + back);
      PathSumConcat(w, front, [v] + g);
      PathSumConcat(w, front, [v] + back);
    } else {
      assert front + ([v] + g) + ([v] + back) == ([v] + g) + ([v] + back);
    }
  }

  lemma WindingOfHung(front: seq<Point>, v: Point, g: seq<Point>, back: seq<Point>, p: Point)
    ensures Winding(front + [v] + g + [v] + back, p) == Winding(front + [v] + back, p) + Winding([v] + g, p)
  {
    WindingTermAntisymmetric(p);
    SumOfHung(WindingTerm(p), front, v, g, back);
    WindingExact(front + [v] + g + [v] + back, p);
    WindingExact(front + [v] + back, p);
    WindingExact([v] + g, p);
  }

  /** Going out to h and straight back adds nothing. */
  lemma WindingOfSpike(front: seq<Point>, v: Point, h: Point, back: seq<Point>, p: Point)
    ensures Winding(front + [v] + [h] + [v] + back, p) == Winding(front + [v] + back, p)
  {
    WindingOfHung(front, v, [h], back, p);
    WindingExact([v] + [h], p);
    WindingTermAntisymmetric(p);
    var w := WindingTerm(p);
    assert w(v, h) == -w(h, v);
    assert PathSum(w, [v] + [h]) == w(v, h) + PathSum(w, ([v] + [h])[1..]);
  }

  // ----- outside another part -----

  /** A vertex of d that is not on a, where the two together wind at most once. */
  lemma OutsideByCount(a: seq<Point>, d: seq<Point>, k: nat)
    requires k < |d| && Simple(d) && OnceAtMost(d) && d[k] !in a && ApartFrom(a, d[k], d[After(k, |d|)])
    requires forall p: Point :: Winding(a, p) + Winding(d, p) <= 1
    ensures Winding(a, d[k]) <= 0
  {
    hide Winding, IsEdge, EdgesApart, Simple;
    var right, left := BothSides(a, d, k);
  }

  /** A vertex of d that is not on a, where a winds no more than d. */
  lemma OutsideByBound(a: seq<Point>, d: seq<Point>, k: nat)
    requires k < |d| && Simple(d) && OnceAtMost(d) && d[k] !in a && ApartFrom(a, d[k], d[After(k, |d|)])
    requires forall p: Point :: Winding(a, p) <= Winding(d, p)
    ensures Winding(a, d[k]) <= 0
  {
    hide Winding, IsEdge, EdgesApart, Simple;
    var right, left := BothSides(a, d, k);
  }
}
