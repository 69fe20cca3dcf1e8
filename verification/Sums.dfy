/** Sums and parities over a sequence, for an arbitrary summand. */
module Sums {
  function RealSum<T>(f: T -> real, s: seq<T>): real {
    if s == [] then 0.0 else f(s[0]) + RealSum(f, s[1..])
  }

  function IntSum<T>(f: T -> int, s: seq<T>): int {
    if s == [] then 0 else f(s[0]) + IntSum(f, s[1..])
  }

  /** An odd number of the elements satisfy f. */
  predicate XorOf<T>(f: T -> bool, s: seq<T>) {
    s != [] && f(s[0]) != XorOf(f, s[1..])
  }

  predicate Odd(n: int) {
    n % 2 == 1
  }

  lemma OddSum(a: int, b: int)
    ensures Odd(a + b) <==> (Odd(a) != Odd(b))
    ensures Odd(-a) <==> Odd(a)
  {
  }

  lemma {:induction false} RealSumSnoc<T>(f: T -> real, s: seq<T>, x: T)
    ensures RealSum(f, s + [x]) == RealSum(f, s) + f(x)
  {
    if s == [] {
      var one: seq<T> := [x];
      assert s + [x] == one && one[1..] == [];
    } else {
      assert (s + [x])[1..] == s[1..] + [x];
      RealSumSnoc(f, s[1..], x);
    }
  }

  lemma {:induction false} RealSumNegated<T>(f: T -> real, g: T -> real, s: seq<T>)
    requires forall x :: x in s ==> f(x) == -g(x)
    ensures RealSum(f, s) == -RealSum(g, s)
  {
    if s != [] {
      RealSumNegated(f, g, s[1..]);
    }
  }

  lemma {:induction false} IntSumAsReal<T>(f: T -> int, g: T -> real, s: seq<T>)
    requires forall x :: x in s ==> g(x) == f(x) as real
    ensures RealSum(g, s) == IntSum(f, s) as real
  {
    if s != [] {
      IntSumAsReal(f, g, s[1..]);
    }
  }

  lemma {:induction false} IntSumEqual<T>(f: T -> int, g: T -> int, s: seq<T>)
    requires forall x :: x in s ==> f(x) == g(x)
    ensures IntSum(f, s) == IntSum(g, s)
  {
    if s != [] {
      IntSumEqual(f, g, s[1..]);
    }
  }

  lemma {:induction false} IntSumParity<T>(f: T -> int, odd: T -> bool, s: seq<T>)
    requires forall x :: x in s ==> (Odd(f(x)) <==> odd(x))
    ensures Odd(IntSum(f, s)) <==> XorOf(odd, s)
  {
    if s != [] {
      IntSumParity(f, odd, s[1..]);
      OddSum(f(s[0]), IntSum(f, s[1..]));
    }
  }

  lemma {:induction false} NoneXor<T>(f: T -> bool, s: seq<T>)
    requires forall x :: x in s ==> !f(x)
    ensures !XorOf(f, s)
  {
    if s != [] {
      NoneXor(f, s[1..]);
    }
  }

  /** Numbers that only grow with their size reach the plain sum exactly when none is negative. */
  lemma {:induction false} SumOfSizes<T>(f: T -> real, size: T -> real, s: seq<T>)
    requires forall x :: x in s ==> f(x) != 0.0 && size(x) == if f(x) < 0.0 then -f(x) else f(x)
    ensures RealSum(size, s) >= RealSum(f, s)
    ensures RealSum(size, s) == RealSum(f, s) <==> forall x :: x in s ==> f(x) > 0.0
  {
    if s != [] {
      SumOfSizes(f, size, s[1..]);
      assert forall x :: x in s <==> x == s[0] || x in s[1..];
    }
  }
}
