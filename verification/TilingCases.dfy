/** Two loops that cross themselves and are tiled all the same, each with a triangle turned back. */
module TilingCases {
  import opened Options
  import opened Sums
  import opened Geometry
  import opened EdgeSums
  import opened RingMeasures
  import opened Clipping
  import opened Triangulation
  import opened TilingLaws

  // ----- a loop that crosses itself -----

  /** A dart whose tip is pulled across the opposite edge. */
  function Darted(): Loop {
    [Point(0.0, 0.0), Point(4.0, 0.0), Point(3.0, -1.0), Point(0.0, 4.0)]
  }

  lemma QuadSum(w: Weight, a: Point, b: Point, c: Point, d: Point)
    ensures CycleSum(w, [a, b, c, d]) == w(a, b) + w(b, c) + w(c, d) + w(d, a)
  {
    assert [a, b, c, d][1..] == [b, c, d] && [b, c, d][1..] == [c, d] && [c, d][1..] == [d];
    assert PathSum(w, [b, c, d]) == w(b, c) + PathSum(w, [c, d]);
    assert PathSum(w, [c, d]) == w(c, d) + PathSum(w, [d]);
  }

  lemma TermOf(a: Point, b: Point, left: real, right: real)
    requires left == a.x * b.y && right == b.x * a.y
    ensures AreaTerm(a, b) == left - right
  {
  }

  lemma DartedArea()
    ensures SignedArea2(Darted()) == 8.0
  {
    hide CycleSum, AreaTerm;
    var (a, b, c, d) := (Point(0.0, 0.0), Point(4.0, 0.0), Point(3.0, -1.0), Point(0.0, 4.0));
    TermOf(a, b, 0.0, 0.0);
    TermOf(b, c, -4.0, 0.0);
    TermOf(c, d, 12.0, 0.0);
    TermOf(d, a, 0.0, 0.0);
    QuadSum(AreaTerm, a, b, c, d);
  }

  lemma DartedEar(ring: seq<Vertex>)
    requires ring == Numbered(0, Darted())
    ensures IsEar(ring, 0)
    ensures TwiceArea(Triangle(ring[1], ring[2], ring[3])) == -8.0
  {
    var t := CornerAt(ring, 0);
    assert t == Triangle(ring[3], ring[0], ring[1]);
    assert ring[0].at == Point(0.0, 0.0) && ring[1].at == Point(4.0, 0.0)
           && ring[2].at == Point(3.0, -1.0) && ring[3].at == Point(0.0, 4.0);
    assert TwiceArea(t) == 16.0;
    assert Cross(t.a.at, t.b.at, ring[2].at) == 12.0 && Cross(t.b.at, t.c.at, ring[2].at) == -4.0;
    forall j | 0 <= j < 4 ensures !(ring[j].at != t.a.at && ring[j].at != t.b.at && ring[j].at != t.c.at
                                    && InsideTriangle(t.a.at, t.b.at, t.c.at, ring[j].at))
    {
      assert j == 2 || ring[j].at in {t.a.at, t.b.at, t.c.at};
    }
  }

  lemma DartedClip(ring: seq<Vertex>)
    requires ring == Numbered(0, Darted())
    ensures Clip(ring, 0, 0) == Some([Triangle(ring[3], ring[0], ring[1]), Triangle(ring[1], ring[2], ring[3])])
  {
    hide IsEar, TwiceArea;
    DartedEar(ring);
    var (rest, last) := (Without(ring, 0), Triangle(ring[1], ring[2], ring[3]));
    assert rest == [ring[1], ring[2], ring[3]];
    assert LastTriangle(rest) == [last];
    assert Clip(rest, 0, 0) == Some([last]);
    var first := CornerAt(ring, 0);
    assert first == Triangle(ring[3], ring[0], ring[1]) && [first] + [last] == [first, last];
    assert |ring| == 4 && 0 % 3 == 0;
  }

  /** The claim that every triangle comes back counter-clockwise fails of this loop. */
  lemma DartedTurnsBack()
    ensures Tiling(Darted(), []).Some? && !AllTurnLeft(Answer(Darted(), []))
  {
    hide Clip, SignedArea2, TwiceArea, Darted;
    var ring := Numbered(0, Darted());
    DartedArea();
    assert WholeChain(Darted(), []).chain == OuterChain(Darted());
    DartedLength();
    DartedEar(ring);
    DartedClip(ring);
    AnswerCorners(Darted(), []);
    AreaOfCorners(Triangle(ring[1], ring[2], ring[3]));
    assert !IsCounterClockwise(Answer(Darted(), [])[1]);
  }

  lemma DartedLength()
    ensures |Darted()| == 4
  {
  }

  // ----- a loop that crosses itself and still winds once at most -----

  /** Five vertices whose edges cross twice, so that the loop winds zero times or once around everything. */
  function Knotted(): Loop {
    [Point(2.0, 1.0), Point(4.0, 0.0), Point(2.0, 3.0), Point(0.0, 0.0), Point(4.0, 2.0)]
  }

  lemma PentaSum(w: Weight, a: Point, b: Point, c: Point, d: Point, e: Point)
    ensures CycleSum(w, [a, b, c, d, e]) == w(a, b) + w(b, c) + w(c, d) + w(d, e) + w(e, a)
  {
    var path := [b, c, d, e];
    assert [a, b, c, d, e][1..] == path && path[1..] == [c, d, e] && [c, d, e][1..] == [d, e] && [d, e][1..] == [e];
    assert PathSum(w, path) == w(b, c) + PathSum(w, [c, d, e]);
    assert PathSum(w, [c, d, e]) == w(c, d) + PathSum(w, [d, e]);
    assert PathSum(w, [d, e]) == w(d, e) + PathSum(w, [e]);
  }

  lemma KnottedArea()
    ensures SignedArea2(Knotted()) == 8.0
  {
    hide CycleSum, AreaTerm;
    var k := Knotted();
    TermOf(k[0], k[1], 0.0, 4.0);
    TermOf(k[1], k[2], 12.0, 0.0);
    TermOf(k[2], k[3], 0.0, 0.0);
    TermOf(k[3], k[4], 0.0, 0.0);
    TermOf(k[4], k[0], 4.0, 4.0);
    PentaSum(AreaTerm, k[0], k[1], k[2], k[3], k[4]);
  }

  /** Crossings of the five edges by the ray from p, each by the side p is on. */
  lemma KnottedWinding(p: Point)
    ensures Winding(Knotted(), p) in {0, 1}
  {
    hide CycleSum, WindingTerm, Winding;
    var k := Knotted();
    WindingExact(k, p);
    PentaSum(WindingTerm(p), k[0], k[1], k[2], k[3], k[4]);
    WindingTermBySide(p, k[0], k[1]);
    WindingTermBySide(p, k[1], k[2]);
    WindingTermBySide(p, k[2], k[3]);
    WindingTermBySide(p, k[3], k[4]);
    WindingTermBySide(p, k[4], k[0]);
    assert Cross(k[0], k[1], p) == 2.0 * p.y + p.x - 4.0;
    assert Cross(k[1], k[2], p) == 12.0 - 2.0 * p.y - 3.0 * p.x;
    assert Cross(k[2], k[3], p) == 3.0 * p.x - 2.0 * p.y;
    assert Cross(k[3], k[4], p) == 4.0 * p.y - 2.0 * p.x;
    assert Cross(k[4], k[0], p) == p.x - 2.0 * p.y;
  }

  lemma KnottedPlaces(ring: seq<Vertex>)
    requires ring == Numbered(0, Knotted())
    ensures |ring| == 5
    ensures ring[0].at == Point(2.0, 1.0) && ring[1].at == Point(4.0, 0.0) && ring[2].at == Point(2.0, 3.0)
    ensures ring[3].at == Point(0.0, 0.0) && ring[4].at == Point(4.0, 2.0)
  {
  }

  /** The five vertices by name. */
  predicate AreKnotted(p: Point, q: Point, r: Point, s: Point, t: Point) {
    p == Point(2.0, 1.0) && q == Point(4.0, 0.0) && r == Point(2.0, 3.0) && s == Point(0.0, 0.0) && t == Point(4.0, 2.0)
  }

  lemma KnottedFirstTurn(p: Point, q: Point, r: Point, s: Point, t: Point)
    requires AreKnotted(p, q, r, s, t)
    ensures Cross(t, p, q) == 4.0
  {
  }

  lemma KnottedFirstIsEmpty(p: Point, q: Point, r: Point, s: Point, t: Point)
    requires AreKnotted(p, q, r, s, t)
    ensures !InsideTriangle(t, p, q, r)
  {
    assert Cross(t, p, r) == -4.0 && Cross(p, q, r) == 4.0;
  }

  lemma KnottedFirstIsEmptyToo(p: Point, q: Point, r: Point, s: Point, t: Point)
    requires AreKnotted(p, q, r, s, t)
    ensures !InsideTriangle(t, p, q, s)
  {
    assert Cross(p, q, s) == -4.0 && Cross(q, t, s) == 8.0;
  }

  lemma KnottedRightTurn(p: Point, q: Point, r: Point, s: Point, t: Point)
    requires AreKnotted(p, q, r, s, t)
    ensures Cross(t, q, r) == -4.0
  {
  }

  lemma KnottedSecondTurn(p: Point, q: Point, r: Point, s: Point, t: Point)
    requires AreKnotted(p, q, r, s, t)
    ensures Cross(q, r, s) == 12.0
  {
  }

  lemma KnottedSecondIsEmpty(p: Point, q: Point, r: Point, s: Point, t: Point)
    requires AreKnotted(p, q, r, s, t)
    ensures !InsideTriangle(q, r, s, t)
  {
    assert Cross(q, r, t) == -4.0 && Cross(r, s, t) == 8.0;
  }

  lemma KnottedLastTurn(p: Point, q: Point, r: Point, s: Point, t: Point)
    requires AreKnotted(p, q, r, s, t)
    ensures Cross(q, s, t) == -8.0
  {
  }

  /** The sides of the knotted loop's corners that the clip looks at. */
  lemma KnottedSides(p: Point, q: Point, r: Point, s: Point, t: Point)
    requires AreKnotted(p, q, r, s, t)
    ensures !InsideTriangle(t, p, q, r) && !InsideTriangle(t, p, q, s) && !InsideTriangle(q, r, s, t)
    ensures Cross(t, p, q) == 4.0 && Cross(t, q, r) == -4.0 && Cross(q, r, s) == 12.0 && Cross(q, s, t) == -8.0
  {
    hide Cross, InsideTriangle, AreKnotted;
    KnottedFirstTurn(p, q, r, s, t);
    KnottedFirstIsEmpty(p, q, r, s, t);
    KnottedFirstIsEmptyToo(p, q, r, s, t);
    KnottedRightTurn(p, q, r, s, t);
    KnottedSecondTurn(p, q, r, s, t);
    KnottedSecondIsEmpty(p, q, r, s, t);
    KnottedLastTurn(p, q, r, s, t);
  }

  /** The first vertex is an ear. */
  lemma KnottedFirst(ring: seq<Vertex>)
    requires ring == Numbered(0, Knotted())
    ensures CornerAt(ring, 0) == Triangle(ring[4], ring[0], ring[1]) && IsEar(ring, 0)
  {
    hide Knotted, Cross, InsideTriangle, Numbered;
    KnottedPlaces(ring);
    KnottedSides(ring[0].at, ring[1].at, ring[2].at, ring[3].at, ring[4].at);
    var t := CornerAt(ring, 0);
    assert t == Triangle(ring[4], ring[0], ring[1]);
    forall j | 0 <= j < 5 ensures !(ring[j].at != t.a.at && ring[j].at != t.b.at && ring[j].at != t.c.at
                                    && InsideTriangle(t.a.at, t.b.at, t.c.at, ring[j].at))
    {
      assert j == 2 || j == 3 || ring[j].at in {t.a.at, t.b.at, t.c.at};
    }
  }

  /** Of the four that remain the first turns right, and the second is an ear. */
  lemma KnottedSecond(ring: seq<Vertex>, rest: seq<Vertex>)
    requires ring == Numbered(0, Knotted()) && rest == [ring[1], ring[2], ring[3], ring[4]]
    ensures !IsEar(rest, 0)
    ensures CornerAt(rest, 1) == Triangle(ring[1], ring[2], ring[3]) && IsEar(rest, 1)
    ensures TwiceArea(Triangle(ring[1], ring[3], ring[4])) == -8.0
  {
    hide Knotted, Cross, InsideTriangle, Numbered;
    KnottedPlaces(ring);
    KnottedSides(ring[0].at, ring[1].at, ring[2].at, ring[3].at, ring[4].at);
    assert CornerAt(rest, 0) == Triangle(ring[4], ring[1], ring[2]);
    var t := CornerAt(rest, 1);
    assert t == Triangle(ring[1], ring[2], ring[3]);
    forall j | 0 <= j < 4 ensures !(rest[j].at != t.a.at && rest[j].at != t.b.at && rest[j].at != t.c.at
                                    && InsideTriangle(t.a.at, t.b.at, t.c.at, rest[j].at))
    {
      assert j == 3 || rest[j].at in {t.a.at, t.b.at, t.c.at};
    }
  }

  lemma KnottedClip(ring: seq<Vertex>)
    requires ring == Numbered(0, Knotted())
    ensures Clip(ring, 0, 0) == Some([Triangle(ring[4], ring[0], ring[1]), Triangle(ring[1], ring[2], ring[3]),
                                      Triangle(ring[1], ring[3], ring[4])])
  {
    hide IsEar, TwiceArea, Clip, Knotted, Numbered, LastTriangle;
    KnottedPlaces(ring);
    var (four, three) := ([ring[1], ring[2], ring[3], ring[4]], [ring[1], ring[3], ring[4]]);
    var last := Triangle(ring[1], ring[3], ring[4]);
    KnottedFirst(ring);
    KnottedSecond(ring, four);
    assert Without(ring, 0) == four && Without(four, 1) == three;
    var (first, second) := (CornerAt(ring, 0), CornerAt(four, 1));
    ClipTurn([], ring, 0, 0);
    ClipTurn([first], four, 0, 0);
    ClipTurn([first], four, 1, 1);
    LeavesLast(three);
    ClipEnd([first, second], three, 1, 0);
    assert [] + [first] == [first] && [first] + [second] == [first, second];
    assert [first, second] + [last] == [first, second, last];
    NothingBefore(Clip(ring, 0, 0));
  }

  lemma LeavesLast(ring: seq<Vertex>)
    requires |ring| == 3 && TwiceArea(Triangle(ring[0], ring[1], ring[2])) != 0.0
    ensures LastTriangle(ring) == [Triangle(ring[0], ring[1], ring[2])]
  {
  }

  lemma NothingBefore(rest: Option<seq<Triangle>>)
    ensures Prepend([], rest) == rest
  {
    assert rest.Some? ==> [] + rest.value == rest.value;
  }

  /**
   A loop that winds zero times or once around every point can still be tiled with a triangle turned back, so
   neither the exact cover nor the law on negative winding can do with the winding number alone.
   */
  lemma KnottedTurnsBack()
    ensures Tiling(Knotted(), []).Some?
    ensures forall p: Point :: RegionWinding(Knotted(), [], p) in {0, 1}
    ensures !AllTurnLeft(Answer(Knotted(), []))
  {
    hide Clip, SignedArea2, TwiceArea, Knotted, Winding;
    var ring := Numbered(0, Knotted());
    KnottedPlaces(ring);
    KnottedArea();
    assert WholeChain(Knotted(), []).chain == OuterChain(Knotted());
    KnottedClip(ring);
    forall p: Point ensures RegionWinding(Knotted(), [], p) in {0, 1} {
      KnottedWinding(p);
    }
    KnottedSecond(ring, [ring[1], ring[2], ring[3], ring[4]]);
    AnswerCorners(Knotted(), []);
    AreaOfCorners(Triangle(ring[1], ring[3], ring[4]));
    assert !IsCounterClockwise(Answer(Knotted(), [])[2]);
  }
}
