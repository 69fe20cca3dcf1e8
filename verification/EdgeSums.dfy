/**
 Sums over the directed edges of a closed ring.

 The signed area and the winding number are both sums of a weight over directed edges,
 and both weights change sign with the direction. That alone makes a doubled bridge edge and a
 clipped diagonal cancel, so the laws below hold for every ring, simple or not.
 */
module EdgeSums {
  import opened Geometry

  type Weight = (Point, Point) -> real

  ghost predicate Antisymmetric(w: Weight) {
    forall p: Point, q: Point :: w(p, q) == -w(q, p)
  }

  /** The sum along an open path. */
  function PathSum(w: Weight, path: seq<Point>): real {
    if |path| < 2 then 0.0 else w(path[0], path[1]) + PathSum(w, path[1..])
  }

  /** The sum around a closed ring. */
  function CycleSum(w: Weight, ring: seq<Point>): real {
    if |ring| == 0 then 0.0 else PathSum(w, ring) + w(ring[|ring| - 1], ring[0])
  }

  /** The sum around a triangle. */
  function TriangleSum(w: Weight, a: Point, b: Point, c: Point): real {
    w(a, b) + w(b, c) + w(c, a)
  }

  /** The position after k around a ring of n. */
  function After(k: nat, n: nat): (r: nat)
    requires k < n
    ensures r == if k + 1 == n then 0 else k + 1
  {
    (k + 1) % n
  }

  /** The position before k around a ring of n. */
  function Before(k: nat, n: nat): (r: nat)
    requires k < n
    ensures r == if k == 0 then n - 1 else k - 1
  {
    if k == 0 then assert (n - 1) % n == n - 1; (k + n - 1) % n
    else assert (k + n - 1) % n == k - 1 by { assert k + n - 1 == n + (k - 1); } (k + n - 1) % n
  }

  function Reversed<T>(s: seq<T>): (r: seq<T>)
    ensures |r| == |s|
    ensures forall i :: 0 <= i < |s| ==> r[i] == s[|s| - 1 - i]
  {
    seq(|s|, i requires 0 <= i < |s| => s[|s| - 1 - i])
  }

  function Without<T>(s: seq<T>, k: nat): (r: seq<T>)
    requires k < |s|
    ensures |r| == |s| - 1
  {
    s[..k] + s[k + 1..]
  }

  /** `ring` started at position k. */
  function Rotated<T>(ring: seq<T>, k: nat): (r: seq<T>)
    requires k <= |ring|
    ensures |r| == |ring|
  {
    ring[k..] + ring[..k]
  }

  /** The chain with a hole spliced in at `at` along a doubled edge: out to the hole, once around it, and back. */
  function Spliced<T>(chain: seq<T>, at: nat, hole: seq<T>, entry: nat): seq<T>
    requires at < |chain| && entry < |hole|
  {
    chain[..at + 1] + Rotated(hole, entry) + [hole[entry], chain[at]] + chain[at + 1..]
  }

  lemma {:induction false} PathSumConcat(w: Weight, a: seq<Point>, b: seq<Point>)
    requires a != [] && b != []
    ensures PathSum(w, a + b) == PathSum(w, a) + w(a[|a| - 1], b[0]) + PathSum(w, b)
  {
    if |a| == 1 {
      assert (a + b)[1..] == b;
    } else {
      assert (a + b)[1..] == a[1..] + b;
      PathSumConcat(w, a[1..], b);
    }
  }

  lemma {:induction false} PathSumSnoc(w: Weight, a: seq<Point>, q: Point)
    requires a != []
    ensures PathSum(w, a + [q]) == PathSum(w, a) + w(a[|a| - 1], q)
  {
    PathSumConcat(w, a, [q]);
  }

  /** Where a ring starts does not matter. */
  lemma CycleSumRotate(w: Weight, a: seq<Point>, b: seq<Point>)
    ensures CycleSum(w, a + b) == CycleSum(w, b + a)
  {
    if a == [] || b == [] {
      assert a + b == b + a;
    } else {
      PathSumConcat(w, a, b);
      PathSumConcat(w, b, a);
    }
  }

  lemma {:induction false} PathSumReversed(w: Weight, path: seq<Point>)
    requires Antisymmetric(w)
    ensures PathSum(w, Reversed(path)) == -PathSum(w, path)
  {
    if |path| >= 2 {
      assert Reversed(path) == Reversed(path[1..]) + [path[0]];
      PathSumSnoc(w, Reversed(path[1..]), path[0]);
      PathSumReversed(w, path[1..]);
    }
  }

  /** Turning a ring around negates its sum. */
  lemma CycleSumReversed(w: Weight, ring: seq<Point>)
    requires Antisymmetric(w)
    ensures CycleSum(w, Reversed(ring)) == -CycleSum(w, ring)
  {
    PathSumReversed(w, ring);
  }

  /** The two directions of the bridge cancel, so a splice adds exactly the hole's own sum. */
  lemma CycleSumSpliced(w: Weight, chain: seq<Point>, at: nat, hole: seq<Point>, entry: nat)
    requires Antisymmetric(w) && at < |chain| && entry < |hole|
    ensures CycleSum(w, Spliced(chain, at, hole, entry)) == CycleSum(w, chain) + CycleSum(w, hole)
  {
    var (v, h) := (chain[at], hole[entry]);
    var (front, back) := (chain[..at + 1], chain[at + 1..]);
    var around := Rotated(hole, entry) + [h];
    assert around[0] == h && around[|around| - 1] == h;
    PathSumSnoc(w, Rotated(hole, entry), h);
    CycleSumRotate(w, hole[entry..], hole[..entry]);
    assert hole[..entry] + hole[entry..] == hole;
    assert CycleSum(w, hole) == PathSum(w, around);
    assert Spliced(chain, at, hole, entry) == (front + around) + ([v] + back);
    PathSumConcat(w, front + around, [v] + back);
    PathSumConcat(w, front, around);
    if back == [] {
      assert chain == front;
    } else {
      assert chain == front + back;
      PathSumConcat(w, front, back);
      PathSumConcat(w, [v], back);
    }
  }

  /** The cut-off diagonal cancels, so a clip takes exactly the ear's own sum away. */
  lemma CycleSumWithout(w: Weight, ring: seq<Point>, k: nat)
    requires Antisymmetric(w) && k < |ring| && |ring| >= 3
    ensures CycleSum(w, ring)
         == CycleSum(w, Without(ring, k)) + TriangleSum(w, ring[Before(k, |ring|)], ring[k], ring[After(k, |ring|)])
  {
    var (n, b) := (|ring|, ring[k]);
    var rest := ring[k + 1..] + ring[..k];
    assert ring == ring[..k] + ([b] + ring[k + 1..]);
    CycleSumRotate(w, ring[..k], [b] + ring[k + 1..]);
    assert ([b] + ring[k + 1..]) + ring[..k] == [b] + rest;
    PathSumConcat(w, [b], rest);
    CycleSumRotate(w, ring[..k], ring[k + 1..]);
    assert rest[0] == ring[After(k, n)];
    assert rest[|rest| - 1] == ring[Before(k, n)];
  }
}
