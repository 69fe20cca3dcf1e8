/** Points with whole coordinates, and which way they turn. */
module Grid {
  import opened Geometry

  /** A point with whole coordinates. */
  function At(x: int, y: int): Point {
    Point(x as real, y as real)
  }

  /** What the cross product of such points comes to. */
  function Turning(x0: int, y0: int, x1: int, y1: int, x2: int, y2: int): int {
    (x1 - x0) * (y2 - y0) - (y1 - y0) * (x2 - x0)
  }

  lemma CrossAt(x0: int, y0: int, x1: int, y1: int, x2: int, y2: int)
    ensures Cross(At(x0, y0), At(x1, y1), At(x2, y2)) == Turning(x0, y0, x1, y1, x2, y2) as real
  {
    ProductAt(x1 - x0, y2 - y0);
    ProductAt(y1 - y0, x2 - x0);
  }

  lemma ProductAt(x: int, y: int)
    ensures (x * y) as real == x as real * y as real
  {
  }

  // ----- one turn each -----

  lemma OuterTurns()
    ensures Turning(0, 0, 8, 0, 8, 8) == 64
  {
  }

  lemma FirstTurns()
    ensures Turning(7, 2, 5, 1, 4, 1) == -1
  {
  }

  lemma SecondTurns()
    ensures Turning(6, 3, 5, 2, 3, 2) == -2
  {
  }

  lemma BackOverTheFirst()
    ensures Turning(4, 1, 7, 2, 8, 8) == 17
  {
  }

  lemma OverTheTop()
    ensures Turning(7, 2, 8, 8, 0, 0) == 40
  {
  }

  lemma SlopeToTheSecond()
    ensures Turning(6, 3, 0, 0, 5, 2) == 3
  {
  }

  lemma SlopeToItsEnd()
    ensures Turning(6, 3, 0, 0, 3, 2) == -3
  {
  }

  lemma BaseOfTheSecond()
    ensures Turning(5, 2, 3, 2, 6, 3) == -2
  {
  }

  lemma BaseSeenFromBelow()
    ensures Turning(5, 2, 3, 2, 0, 0) == 4
  {
  }

  lemma DiagonalOfTheSecond()
    ensures Turning(6, 3, 4, 1, 5, 2) == 0
  {
  }

  lemma DownToTheCorner()
    ensures Turning(6, 3, 8, 0, 7, 2) == 1
  {
  }

  lemma DownPastTheFirst()
    ensures Turning(6, 3, 8, 0, 5, 1) == -7
  {
  }

  lemma FirstSeenFromAbove()
    ensures Turning(7, 2, 5, 1, 6, 3) == -3
  {
  }

  lemma FirstSeenFromTheCorner()
    ensures Turning(7, 2, 5, 1, 8, 0) == 5
  {
  }

  lemma DownToTheFirst()
    ensures Turning(6, 3, 5, 1, 4, 1) == -2
  {
  }

  lemma DownBesideTheFirst()
    ensures Turning(6, 3, 5, 1, 7, 2) == 3
  {
  }

  lemma TopOfTheFirst()
    ensures Turning(4, 1, 7, 2, 6, 3) == 4
  {
  }

  lemma TopSeenFromBelow()
    ensures Turning(4, 1, 7, 2, 5, 1) == -1
  {
  }

  lemma IntoTheSecond()
    ensures Turning(8, 8, 6, 3, 5, 2) == -3
  {
  }

  lemma OutOfTheSecond()
    ensures Turning(6, 3, 8, 8, 7, 2) == -7
  {
  }

  lemma IntoTheFirst()
    ensures Turning(8, 8, 7, 2, 5, 1) == -11
  {
  }

  lemma RoundTheFirst()
    ensures Turning(5, 1, 4, 1, 7, 2) == -1
  {
  }

  lemma BesideTheSide()
    ensures Turning(8, 0, 8, 8, 7, 2) == 8
  {
  }

  lemma BesideTheBridge()
    ensures Turning(8, 8, 6, 3, 7, 2) == 7
  {
  }

  lemma AboveTheFirst()
    ensures Turning(4, 1, 7, 2, 5, 2) == 2
  {
  }

  lemma BesideTheFirstBridge()
    ensures Turning(7, 2, 8, 8, 5, 2) == 12
  {
  }

  lemma BelowTheTop()
    ensures Turning(8, 8, 4, 1, 5, 2) == 3
  {
  }

  lemma BelowTheSlope()
    ensures Turning(8, 8, 0, 0, 5, 2) == 24
  {
  }

  lemma AboveTheRay()
    ensures Turning(0, 0, 7, 2, 5, 2) == 4
  {
  }

  lemma SecondToTheTop()
    ensures Turning(5, 2, 3, 2, 8, 8) == -12
  {
  }

  lemma EndToTheTop()
    ensures Turning(3, 2, 8, 8, 7, 2) == -24
  {
  }
}
