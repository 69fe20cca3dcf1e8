/** Seeing a vertex: beside a segment that nothing crosses there is a vertex that can be seen from its end. */
module Sight {
  import opened Geometry
  import opened EdgeSums
  import opened RingMeasures
  import opened SegmentCrossing
  import opened SimpleLoops
  import opened SegmentWinding
  import opened Nearby
  import opened EarWinding
  import opened LowestVertex
  import opened CornerCuts
  import opened CornerSectors
  import opened HookClips

  /** A value that is affine in the plane, from its values at three corners. */
  lemma Barycentric(a: Point, b: Point, c: Point, p: Point, q: Point, z: Point)
    ensures Cross(a, b, c) * Cross(p, q, z)
         == Cross(b, c, z) * Cross(p, q, a) + Cross(c, a, z) * Cross(p, q, b) + Cross(a, b, z) * Cross(p, q, c)
  {
    var (ux, uy, vx, vy) := (b.x - a.x, b.y - a.y, c.x - a.x, c.y - a.y);
    var (sx, sy) := (z.x - a.x, z.y - a.y);
    var (dx, dy, ex, ey) := (q.x - p.x, q.y - p.y, a.x - p.x, a.y - p.y);
    assert Cross(a, b, c) == ux * vy - uy * vx;
    assert Cross(a, b, z) == ux * sy - uy * sx;
    assert Cross(c, a, z) == vy * sx - vx * sy;
    assert Cross(b, c, z) == (ux * vy - uy * vx) - (ux * sy - uy * sx) - (vy * sx - vx * sy);
    assert Cross(p, q, a) == dx * ey - dy * ex;
    assert Cross(p, q, b) == dx * (ey + uy) - dy * (ex + ux);
    assert Cross(p, q, c) == dx * (ey + vy) - dy * (ex + vx);
    assert Cross(p, q, z) == dx * (ey + sy) - dy * (ex + sx);
    hide Cross;
    ByOffsets(ux, uy, vx, vy, sx, sy, dx, dy, dx * ey - dy * ex);
  }

  lemma ByOffsets(ux: real, uy: real, vx: real, vy: real, sx: real, sy: real, dx: real, dy: real, f: real)
    ensures var (area, g, h) := (ux * vy - uy * vx, ux * sy - uy * sx, vy * sx - vx * sy);
      area * (f + (dx * sy - dy * sx))
      == (area - g - h) * f + h * (f + (dx * uy - dy * ux)) + g * (f + (dx * vy - dy * vx))
  {
    Cramers(ux, uy, vx, vy, sx, sy);
  }

  lemma Cramers(ux: real, uy: real, vx: real, vy: real, sx: real, sy: real)
    ensures var (area, g, h) := (ux * vy - uy * vx, ux * sy - uy * sx, vy * sx - vx * sy);
      area * sx == h * ux + g * vx && area * sy == h * uy + g * vy
  {
  }

  // ----- narrowing the corner -----

  /** A triangle with a corner moved inside is inside. */
  lemma Narrower(h: Point, x: Point, c: Point, w: Point, z: Point)
    requires Cross(h, x, c) > 0.0 && Cross(h, x, w) > 0.0 && Cross(x, c, w) > 0.0 && Cross(c, h, w) >= 0.0
    requires InsideTriangle(h, x, w, z)
    ensures InsideTriangle(h, x, c, z)
  {
    HeightsBalance(z, h, x, w);
    Barycentric(h, x, w, x, c, z);
    Barycentric(h, x, w, c, h, z);
    CornerSides(h, x, c);
    CornerSides(x, c, h);
    CornerSides(c, h, x);
    hide Cross;
    var area := Cross(h, x, w);
    SignOfTerm(Cross(x, w, z), Cross(h, x, c));
    SignOfTerm(Cross(h, x, z), Cross(x, c, w));
    SignOfTerm(Cross(w, h, z), Cross(h, x, c));
    SignOfTerm(Cross(h, x, z), Cross(c, h, w));
    NotNegativeProduct(area, Cross(x, c, z));
    NotNegativeProduct(area, Cross(c, h, z));
  }

  lemma NotNegativeProduct(area: real, value: real)
    requires area > 0.0
    ensures area * value >= 0.0 ==> value >= 0.0
  {
    SignOfProduct(value, area);
  }

  /** Between narrower sides is between the sides. */
  lemma NarrowerWedge(h: Point, x: Point, c: Point, w: Point, z: Point)
    requires Cross(h, x, c) > 0.0 && InWedge(h, x, c, w) && InWedge(h, x, w, z)
    ensures InWedge(h, x, c, z)
  {
    FromTip(h, x, c, w, z);
    hide Cross;
    SignOfTerm(Cross(x, c, w), Cross(h, x, z));
    SignOfTerm(Cross(x, w, z), Cross(h, x, c));
    SignOfProduct(Cross(x, c, z), Cross(h, x, w));
  }

  lemma FromTip(h: Point, x: Point, c: Point, w: Point, z: Point)
    ensures Cross(x, c, z) * Cross(h, x, w) == Cross(x, c, w) * Cross(h, x, z) + Cross(x, w, z) * Cross(h, x, c)
  {
    var (hx, hy, cx, cy) := (h.x - x.x, h.y - x.y, c.x - x.x, c.y - x.y);
    var (wx, wy, zx, zy) := (w.x - x.x, w.y - x.y, z.x - x.x, z.y - x.y);
    assert Cross(h, x, w) == hy * wx - hx * wy && Cross(h, x, z) == hy * zx - hx * zy;
    assert Cross(h, x, c) == hy * cx - hx * cy && Cross(x, c, z) == cx * zy - cy * zx;
    assert Cross(x, c, w) == cx * wy - cy * wx && Cross(x, w, z) == wx * zy - wy * zx;
    hide Cross;
    FromTipByOffsets(hx, hy, cx, cy, wx, wy, zx, zy);
  }

  lemma FromTipByOffsets(hx: real, hy: real, cx: real, cy: real, wx: real, wy: real, zx: real, zy: real)
    ensures (cx * zy - cy * zx) * (hy * wx - hx * wy)
         == (cx * wy - cy * wx) * (hy * zx - hx * zy) + (wx * zy - wy * zx) * (hy * cx - hx * cy)
  {
  }

  // ----- the vertices in the way, one less each time -----

  /** The ring ends in h, which is joined to the start only. */
  ghost predicate EndsInSpike(ring: seq<Point>) {
    && |ring| > 3
    && forall u, v :: IsEdge(ring, u, v) ==>
         (u == ring[|ring| - 1] ==> v == ring[0]) && (v == ring[|ring| - 1] ==> u == ring[0])
  }

  function InCorner(ring: seq<Point>): set<Point>
    requires |ring| > 3
  {
    set z | z in ring && z != ring[|ring| - 1] && z != ring[0] && z != ring[1]
            && InsideTriangle(ring[|ring| - 1], ring[0], ring[1], z)
  }

  lemma EdgesWithSpike(ring: seq<Point>, w: Point, u: Point, v: Point)
    requires ring != [] && IsEdge([ring[0], w] + ring, u, v)
    ensures IsEdge(ring, u, v) || (u == ring[0] && v == w) || (u == w && v == ring[0])
  {
    var wide := [ring[0], w] + ring;
    var i: nat :| EdgeAt(wide, i, u, v);
    if i > 1 {
      assert EdgeAt(ring, i - 2, u, v);
    }
  }

  lemma EdgesInSpiked(ring: seq<Point>, w: Point, u: Point, v: Point)
    requires ring != [] && IsEdge(ring, u, v)
    ensures IsEdge([ring[0], w] + ring, u, v)
  {
    var i: nat :| EdgeAt(ring, i, u, v);
    assert EdgeAt([ring[0], w] + ring, i + 2, u, v);
  }

  lemma SpikedIsTame(ring: seq<Point>, w: Point)
    requires ring != [] && Tame(ring) && ring[0] != w && IsCut(ring, ring[0], w)
    ensures Tame([ring[0], w] + ring)
  {
    hide IsEdge, EdgesApart;
    var (x, wide) := (ring[0], [ring[0], w] + ring);
    CutBack(ring, x, w);
    forall a, b | IsEdge(wide, a, b) ensures a != b {
      EdgesWithSpike(ring, w, a, b);
    }
    forall a, b, c, d | IsEdge(wide, a, b) && IsEdge(wide, c, d)
      ensures (a, b) == (c, d) || (a, b) == (d, c) || EdgesApart(a, b, c, d)
    {
      EdgesWithSpike(ring, w, a, b);
      EdgesWithSpike(ring, w, c, d);
      if IsEdge(ring, a, b) && !IsEdge(ring, c, d) {
        ApartTurned(c, d, a, b);
      }
    }
  }

  lemma SpikedIsClean(ring: seq<Point>, w: Point)
    requires CleanCorner(ring) && EndsInSpike(ring) && w in ring
    requires w != ring[0] && w != ring[|ring| - 1] && InWedge(ring[|ring| - 1], ring[0], ring[1], w)
    ensures CleanCorner([ring[0], w] + ring) && EndsInSpike([ring[0], w] + ring)
  {
    hide IsEdge, Cross;
    var (h, x, c, wide) := (ring[|ring| - 1], ring[0], ring[1], [ring[0], w] + ring);
    assert wide[|wide| - 1] == h && wide[0] == x && wide[1] == w;
    ProperCorner(h, x, c);
    CornerSides(x, w, w);
    forall u, v | IsEdge(wide, u, v)
      ensures (u == x ==> !InWedge(h, x, w, v)) && (v == x ==> !InWedge(h, x, w, u))
      ensures (u == h ==> v == x) && (v == h ==> u == x)
    {
      EdgesWithSpike(ring, w, u, v);
      if InWedge(h, x, w, v) && u == x && IsEdge(ring, u, v) {
        NarrowerWedge(h, x, c, w, v);
      }
      if InWedge(h, x, w, u) && v == x && IsEdge(ring, u, v) {
        NarrowerWedge(h, x, c, w, u);
      }
    }
  }

  lemma FewerInCorner(ring: seq<Point>, w: Point)
    requires CleanCorner(ring) && w in InCorner(ring) && InWedge(ring[|ring| - 1], ring[0], ring[1], w)
    ensures |InCorner([ring[0], w] + ring)| < |InCorner(ring)|
  {
    var (h, x, c, wide) := (ring[|ring| - 1], ring[0], ring[1], [ring[0], w] + ring);
    HeightsBalance(w, h, x, c);
    hide Cross;
    assert wide[|wide| - 1] == h && wide[0] == x && wide[1] == w;
    TipIsNotInside(h, x, c, w);
    forall z | z in InCorner(wide) ensures z in InCorner(ring) && z != w {
      Narrower(h, x, c, w, z);
    }
    assert InCorner(wide) <= InCorner(ring) - {w};
    Smaller(InCorner(wide), InCorner(ring), w);
  }

  lemma Smaller(a: set<Point>, b: set<Point>, w: Point)
    requires a <= b - {w} && w in b
    ensures |a| < |b|
  {
    FewerOrEqual(a, b - {w});
  }

  lemma {:induction false} FewerOrEqual(a: set<Point>, b: set<Point>)
    requires a <= b
    ensures |a| <= |b|
  {
    if a != {} {
      var p :| p in a;
      FewerOrEqual(a - {p}, b - {p});
    }
  }

  lemma TipIsNotInside(h: Point, x: Point, c: Point, w: Point)
    requires Cross(h, x, c) > 0.0 && InWedge(h, x, c, w)
    ensures !InsideTriangle(h, x, w, c)
  {
    CornerSides(x, c, w);
    CrossTurned(x, c, w);
  }

  /** From h one sees a vertex in the corner. */
  lemma {:induction false} Sees(ring: seq<Point>) returns (w: Point)
    requires Tame(ring) && CleanCorner(ring) && EndsInSpike(ring)
    ensures w in ring && w != ring[|ring| - 1] && w != ring[0] && IsCut(ring, ring[|ring| - 1], w)
    ensures InsideTriangle(ring[|ring| - 1], ring[0], ring[1], w)
    decreases |InCorner(ring)|
  {
    hide IsEdge, EdgesApart, Cross, Tame, IsEarOf, InCorner;
    var (h, x, c) := (ring[|ring| - 1], ring[0], ring[1]);
    ProperCorner(h, x, c);
    if IsEarOf(ring, 0) {
      CutOfCleanEar(ring);
      w := c;
    } else {
      var j := CutFromCorner(ring);
      var z := ring[j];
      var wide := [x, z] + ring;
      assert wide[|wide| - 1] == h && wide[0] == x && wide[1] == z;
      InTheCorner(ring, j);
      SpikedIsTame(ring, z);
      SpikedIsClean(ring, z);
      FewerInCorner(ring, z);
      w := Sees(wide);
      BetweenTheSides(ring, j);
      Narrower(h, x, c, z, w);
      forall u, v | IsEdge(ring, u, v) ensures EdgesApart(h, w, u, v) {
        EdgesInSpiked(ring, z, u, v);
      }
    }
  }

  lemma ProperCorner(h: Point, x: Point, c: Point)
    requires Cross(h, x, c) > 0.0
    ensures h != x && x != c && h != c && InsideTriangle(h, x, c, c)
  {
    CornersAreInside(h, x, c);
    Proper(h, x, c);
  }

  lemma InTheCorner(ring: seq<Point>, j: nat)
    requires |ring| > 3 && Obstructs(ring, j)
    ensures ring[j] in InCorner(ring)
  {
  }
}
