/**
 The two oracles of the triangulator - the signed area and the even-odd test - as edge sums,
 with the signed half-open winding number that ties them together.
 */
module RingMeasures {
  import opened Geometry
  import opened EdgeSums

  function AreaTerm(a: Point, b: Point): real {
    a.x * b.y - b.x * a.y
  }

  /** The shoelace sum of a ring. */
  function SignedArea2(ring: seq<Point>): real {
    CycleSum(AreaTerm, ring)
  }

  predicate IsCounterClockwise(ring: seq<Point>) {
    SignedArea2(ring) > 0.0
  }

  /** An edge is crossed by the line at height y when exactly one of its ends is above it. */
  predicate Straddles(a: Point, b: Point, y: real) {
    (a.y > y) != (b.y > y)
  }

  function CrossingX(a: Point, b: Point, y: real): real
    requires Straddles(a, b, y)
  {
    (b.x - a.x) * ((y - a.y) / (b.y - a.y)) + a.x
  }

  /** The ray from p in +x meets the edge. */
  predicate Hit(p: Point, a: Point, b: Point) {
    Straddles(a, b, p.y) && CrossingX(a, b, p.y) > p.x
  }

  predicate HitParity(path: seq<Point>, p: Point) {
    |path| >= 2 && (Hit(p, path[0], path[1]) != HitParity(path[1..], p))
  }

  /** Even-odd containment: the ray from p meets an odd number of the ring's edges. */
  predicate Encloses(ring: seq<Point>, p: Point) {
    ring != [] && (HitParity(ring, p) != Hit(p, ring[|ring| - 1], ring[0]))
  }

  /** A hit counts +1 on an edge going up and -1 on an edge going down. */
  function Turn(p: Point, a: Point, b: Point): int {
    if !Hit(p, a, b) then 0 else if b.y > a.y then 1 else -1
  }

  function PathTurns(path: seq<Point>, p: Point): int {
    if |path| < 2 then 0 else Turn(p, path[0], path[1]) + PathTurns(path[1..], p)
  }

  /** How often the ring turns counter-clockwise around p, the edges taken half-open. */
  function Winding(ring: seq<Point>, p: Point): int {
    if ring == [] then 0 else PathTurns(ring, p) + Turn(p, ring[|ring| - 1], ring[0])
  }

  /** The same count as an edge weight. */
  function WindingTerm(p: Point): Weight {
    (a: Point, b: Point) => Turn(p, a, b) as real
  }

  lemma AreaTermAntisymmetric()
    ensures Antisymmetric(AreaTerm)
  {
  }

  lemma AreaOfTriangle(a: Point, b: Point, c: Point)
    ensures TriangleSum(AreaTerm, a, b, c) == Cross(a, b, c) == SignedArea2([a, b, c])
  {
    CycleSumOfTriangle(AreaTerm, a, b, c);
  }

  lemma CycleSumOfTriangle(w: Weight, a: Point, b: Point, c: Point)
    ensures CycleSum(w, [a, b, c]) == TriangleSum(w, a, b, c)
  {
    var ring := [a, b, c];
    assert ring[1..] == [b, c] && ring[1..][1..] == [c];
    assert PathSum(w, ring[1..]) == w(b, c) + PathSum(w, ring[1..][1..]);
  }

  /** The crossing lies to the right of p exactly when p is on the matching side of the edge. */
  lemma HitBySide(p: Point, a: Point, b: Point)
    requires Straddles(a, b, p.y)
    ensures Hit(p, a, b) <==> if b.y > p.y then Cross(a, b, p) > 0.0 else Cross(a, b, p) < 0.0
  {
    var (h, t) := (b.y - a.y, (p.y - a.y) / (b.y - a.y));
    assert t * h == p.y - a.y;
    var right := CrossingX(a, b, p.y) - p.x;
    calc {
      Cross(a, b, p);
      (b.x - a.x) * (t * h) - h * (p.x - a.x);
      h * ((b.x - a.x) * t) - h * (p.x - a.x);
      h * ((b.x - a.x) * t - (p.x - a.x));
      h * right;
    }
    if b.y > p.y { ProductSign(h, right); } else { ProductSign(-h, right); }
  }

  lemma ProductSign(h: real, r: real)
    requires h > 0.0
    ensures (h * r > 0.0 <==> r > 0.0) && (h * r < 0.0 <==> r < 0.0)
  {
  }

  lemma WindingTermBySide(p: Point, a: Point, b: Point)
    ensures WindingTerm(p)(a, b)
         == if !Straddles(a, b, p.y) then 0.0
            else if b.y > p.y then (if Cross(a, b, p) > 0.0 then 1.0 else 0.0)
            else (if Cross(a, b, p) < 0.0 then -1.0 else 0.0)
  {
    if Straddles(a, b, p.y) {
      HitBySide(p, a, b);
    }
  }

  lemma CrossSwaps(a: Point, b: Point, c: Point)
    ensures Cross(a, b, c) == -Cross(b, a, c) == Cross(b, c, a)
  {
  }

  lemma WindingTermAntisymmetric(p: Point)
    ensures Antisymmetric(WindingTerm(p))
  {
    forall a: Point, b: Point ensures WindingTerm(p)(a, b) == -WindingTerm(p)(b, a) {
      WindingTermBySide(p, a, b);
      WindingTermBySide(p, b, a);
      CrossSwaps(a, b, p);
    }
  }

  lemma {:induction false} PathTurnsSum(path: seq<Point>, p: Point)
    ensures PathSum(WindingTerm(p), path) == PathTurns(path, p) as real
  {
    if |path| >= 2 {
      PathTurnsSum(path[1..], p);
    }
  }

  lemma {:induction false} PathTurnsParity(path: seq<Point>, p: Point)
    ensures PathTurns(path, p) % 2 == 1 <==> HitParity(path, p)
  {
    if |path| >= 2 {
      PathTurnsParity(path[1..], p);
    }
  }

  /** The winding number is an edge sum, and even-odd containment is its parity. */
  lemma WindingExact(ring: seq<Point>, p: Point)
    ensures Winding(ring, p) as real == CycleSum(WindingTerm(p), ring)
    ensures Encloses(ring, p) <==> Winding(ring, p) % 2 == 1
  {
    if ring != [] {
      PathTurnsSum(ring, p);
      PathTurnsParity(ring, p);
    }
  }

  /** Seen from p, each corner's height balances the side values of the edges opposite. */
  lemma HeightsBalance(p: Point, a: Point, b: Point, c: Point)
    ensures (a.y - p.y) * Cross(b, c, p) + (b.y - p.y) * Cross(c, a, p) + (c.y - p.y) * Cross(a, b, p) == 0.0
    ensures Cross(a, b, p) + Cross(b, c, p) + Cross(c, a, p) == Cross(a, b, c)
  {
  }

  lemma SignOfTerm(height: real, side: real)
    ensures height >= 0.0 && side >= 0.0 ==> height * side >= 0.0
    ensures height >= 0.0 && side <= 0.0 ==> height * side <= 0.0
    ensures height <= 0.0 && side >= 0.0 ==> height * side <= 0.0
    ensures height <= 0.0 && side <= 0.0 ==> height * side >= 0.0
    ensures height > 0.0 && side > 0.0 ==> height * side > 0.0
    ensures height > 0.0 && side < 0.0 ==> height * side < 0.0
    ensures height < 0.0 && side > 0.0 ==> height * side < 0.0
    ensures height < 0.0 && side < 0.0 ==> height * side > 0.0
  {
  }

  /** What the heights allow the three side values to be when one corner is on its own side of the line. */
  lemma LoneCorner(ha: real, hb: real, hc: real, bc: real, ca: real, ab: real)
    requires ha * bc + hb * ca + hc * ab == 0.0
    requires (ha > 0.0 && hb <= 0.0 && hc <= 0.0) || (ha <= 0.0 && hb > 0.0 && hc > 0.0)
    ensures ha > 0.0 && ab < 0.0 && ca <= 0.0 ==> bc <= 0.0
    ensures ha > 0.0 && ab >= 0.0 && ca > 0.0 ==> bc >= 0.0
    ensures ha <= 0.0 && ab > 0.0 && ca >= 0.0 ==> ha < 0.0 && bc > 0.0
    ensures ha <= 0.0 && ab <= 0.0 && ca < 0.0 ==> ha < 0.0 && bc < 0.0
  {
    SignOfTerm(ha, bc);
    SignOfTerm(hb, ca);
    SignOfTerm(hc, ab);
  }

  /** A corner alone above or below the line: the two edges at it are the only ones crossed. */
  lemma WindingOfLoneCorner(p: Point, a: Point, b: Point, c: Point)
    requires (a.y > p.y) != (b.y > p.y) && (b.y > p.y) == (c.y > p.y)
    ensures Cross(a, b, c) == 0.0 ==> TriangleSum(WindingTerm(p), a, b, c) == 0.0
    ensures Cross(a, b, c) > 0.0 ==> TriangleSum(WindingTerm(p), a, b, c) in {0.0, 1.0}
  {
    WindingTermBySide(p, a, b);
    WindingTermBySide(p, b, c);
    WindingTermBySide(p, c, a);
    HeightsBalance(p, a, b, c);
    LoneCorner(a.y - p.y, b.y - p.y, c.y - p.y, Cross(b, c, p), Cross(c, a, p), Cross(a, b, p));
  }

  /** A flat triangle winds around nothing; a counter-clockwise one winds at most once around anything. */
  lemma WindingOfTriangle(p: Point, a: Point, b: Point, c: Point)
    ensures Cross(a, b, c) == 0.0 ==> TriangleSum(WindingTerm(p), a, b, c) == 0.0
    ensures Cross(a, b, c) > 0.0 ==> TriangleSum(WindingTerm(p), a, b, c) in {0.0, 1.0}
  {
    CrossSwaps(a, b, c);
    CrossSwaps(b, c, a);
    if (a.y > p.y) == (b.y > p.y) == (c.y > p.y) {
    } else if (b.y > p.y) == (c.y > p.y) {
      WindingOfLoneCorner(p, a, b, c);
    } else if (c.y > p.y) == (a.y > p.y) {
      WindingOfLoneCorner(p, b, c, a);
    } else {
      WindingOfLoneCorner(p, c, a, b);
    }
  }

  /** Even-odd containment in a triangle, by its winding: inside is +1 or -1 by the way it turns. */
  lemma EnclosesTriangle(p: Point, a: Point, b: Point, c: Point)
    ensures var w := Winding([a, b, c], p);
            && w as real == TriangleSum(WindingTerm(p), a, b, c)
            && w == if !Encloses([a, b, c], p) then 0 else if Cross(a, b, c) > 0.0 then 1 else -1
    ensures Cross(a, b, c) == 0.0 ==> !Encloses([a, b, c], p)
  {
    CycleSumOfTriangle(WindingTerm(p), a, b, c);
    WindingExact([a, b, c], p);
    WindingOfTriangle(p, a, b, c);
    WindingOfTriangle(p, a, c, b);
    WindingTermAntisymmetric(p);
    var w := WindingTerm(p);
    assert w(a, b) == -w(b, a) && w(b, c) == -w(c, b) && w(c, a) == -w(a, c);
    CrossSwaps(a, b, c);
    assert Cross(a, c, b) == -Cross(a, b, c);
  }
}
