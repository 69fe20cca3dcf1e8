/** What the bits of a double stand for, and how the bits order them: section 3.4 of IEEE 754-2019. */
module Doubles {
  const SIGN: nat := 0x8000_0000_0000_0000
  const HIDDEN: nat := 0x10_0000_0000_0000

  function Pow2(n: nat): nat {
    if n == 0 then 1 else 2 * Pow2(n - 1)
  }

  lemma {:induction false} Pow2Grows(m: nat, n: nat)
    requires m <= n
    ensures 1 <= Pow2(m) <= Pow2(n)
  {
    if n > 0 {
      Pow2Grows(if m == 0 then 0 else m - 1, n - 1);
    }
  }

  /** No infinity and no NaN: the exponent is not all ones. */
  predicate IsFinite(bits: nat) {
    bits < 2 * SIGN && (bits % SIGN) / HIDDEN < 2047
  }

  predicate IsNegative(bits: nat) {
    bits >= SIGN
  }

  /** The magnitude in units of the least positive double, 2 to the -1074th. */
  function Magnitude(rest: nat): nat {
    var (exponent, fraction) := (rest / HIDDEN, rest % HIDDEN);
    if exponent == 0 then fraction else (HIDDEN + fraction) * Pow2(exponent - 1)
  }

  /** The number, in those units. */
  function Value(bits: nat): int {
    var magnitude: int := Magnitude(if IsNegative(bits) then bits - SIGN else bits);
    if IsNegative(bits) then -magnitude else magnitude
  }

  lemma Times(x: nat, y: nat, k: nat)
    ensures x < y && k > 0 ==> x * k < y * k
    ensures x <= y ==> x * k <= y * k
  {
  }

  lemma SameExponent(e: nat, x: nat, y: nat)
    requires e > 0 && x < y
    ensures (HIDDEN + x) * Pow2(e - 1) < (HIDDEN + y) * Pow2(e - 1)
  {
    Pow2Grows(0, e - 1);
    Times(HIDDEN + x, HIDDEN + y, Pow2(e - 1));
  }

  lemma GreaterExponent(d: nat, e: nat, x: nat, y: nat)
    requires 0 < d < e && x < HIDDEN
    ensures (HIDDEN + x) * Pow2(d - 1) < (HIDDEN + y) * Pow2(e - 1)
  {
    var k := Pow2(d - 1);
    Pow2Grows(0, d - 1);
    Times(HIDDEN + x, 2 * HIDDEN, k);
    Pow2Grows(d, e - 1);
    assert 2 * HIDDEN * k == HIDDEN * Pow2(d);
    Times(Pow2(d), Pow2(e - 1), HIDDEN);
    Times(HIDDEN, HIDDEN + y, Pow2(e - 1));
  }

  lemma FromLeastExponent(e: nat, x: nat, y: nat)
    requires 0 < e && x < HIDDEN
    ensures x < (HIDDEN + y) * Pow2(e - 1)
  {
    Pow2Grows(0, e - 1);
    Times(1, Pow2(e - 1), HIDDEN + y);
  }

  /** More as a number of bits is more in magnitude. */
  lemma MagnitudesAscend(a: nat, b: nat)
    requires a < b
    ensures Magnitude(a) < Magnitude(b)
  {
    hide Pow2;
    var (d, x, e, y) := (a / HIDDEN, a % HIDDEN, b / HIDDEN, b % HIDDEN);
    assert a == d * HIDDEN + x && b == e * HIDDEN + y;
    if d == e {
      if e > 0 {
        SameExponent(e, x, y);
      }
    } else if d == 0 {
      FromLeastExponent(e, x, y);
    } else {
      GreaterExponent(d, e, x, y);
    }
  }

  lemma ZeroIsLeast(rest: nat)
    ensures Magnitude(rest) == 0 <==> rest == 0
  {
    if rest > 0 {
      MagnitudesAscend(0, rest);
    }
  }

  /** Of two finite doubles the one is the smaller number, or they are the two zeros and it is the negative one. */
  predicate IsBelow(a: nat, b: nat) {
    Value(a) < Value(b) || (Value(a) == Value(b) && IsNegative(a) && !IsNegative(b))
  }

  /** How `total_cmp` orders doubles by their bits. */
  function TotalOrder(bits: nat): real {
    (if bits < 0x8000_0000_0000_0000 then bits else 0x7FFF_FFFF_FFFF_FFFF - bits) as real
  }

  lemma Ordering(a: nat, b: nat)
    ensures Magnitude(a) < Magnitude(b) <==> a < b
    ensures Magnitude(a) == 0 <==> a == 0
    ensures Magnitude(b) == 0 <==> b == 0
  {
    hide Magnitude;
    ZeroIsLeast(a);
    ZeroIsLeast(b);
    if a < b {
      MagnitudesAscend(a, b);
    } else if b < a {
      MagnitudesAscend(b, a);
    }
  }

  /** That order is the order of the numbers, but for the two zeros, which it tells apart. */
  lemma OrderIsOfNumbers(a: nat, b: nat)
    requires IsFinite(a) && IsFinite(b)
    ensures TotalOrder(a) < TotalOrder(b) <==> IsBelow(a, b)
  {
    hide Magnitude, IsFinite;
    var (x, y) := (if IsNegative(a) then a - SIGN else a, if IsNegative(b) then b - SIGN else b);
    Ordering(x, y);
    Ordering(y, x);
  }

  /** Two doubles the order cannot tell apart have the same bits. */
  lemma OrderIsExact(a: nat, b: nat)
    requires TotalOrder(a) == TotalOrder(b)
    ensures a == b
  {
  }
}
