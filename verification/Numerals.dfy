/** Numbers as the library prints them, and how the printed forms are ordered as text. */
module Numerals {
  import opened NameOrder

  type Radix = b: nat | 2 <= b <= 16 witness 10

  function Digit(d: nat): (c: char)
    requires d < 16
    ensures '0' <= c <= '9' || 'a' <= c <= 'f'
    ensures d < 10 ==> '0' <= c <= '9'
  {
    "0123456789abcdef"[d]
  }

  lemma DigitsAscend(d: nat, e: nat)
    requires d < 16 && e < 16
    ensures Digit(d) < Digit(e) <==> d < e
    ensures Digit(d) == Digit(e) <==> d == e
  {
  }

  predicate IsNumeral(s: string) {
    s != "" && forall c | c in s :: '0' <= c <= '9' || 'a' <= c <= 'f'
  }

  function Numeral(radix: Radix, n: nat): (r: string)
    ensures IsNumeral(r)
    ensures radix <= 10 ==> forall c | c in r :: '0' <= c <= '9'
  {
    if n < radix then [Digit(n)] else Numeral(radix, n / radix) + [Digit(n % radix)]
  }

  function Decimal(n: nat): string {
    Numeral(10, n)
  }

  /** A numeral is that of the quotient, none for zero, with the digit of the rest behind it. */
  function Front(radix: Radix, n: nat): string {
    if n < radix then "" else Numeral(radix, n / radix)
  }

  lemma LastDigit(radix: Radix, n: nat)
    ensures Numeral(radix, n) == Front(radix, n) + [Digit(n % radix)]
    ensures n < radix ==> n / radix == 0
    ensures n >= radix ==> n / radix < n
  {
    hide Digit, IsNumeral;
    Quotient(radix, n);
    assert "" + [Digit(n % radix)] == [Digit(n % radix)];
  }

  lemma Quotient(radix: Radix, n: nat)
    ensures n < radix ==> n / radix == 0 && n % radix == n
    ensures n >= radix ==> n / radix < n
  {
  }

  lemma {:induction false} NumeralIsInjective(radix: Radix, m: nat, n: nat)
    requires Numeral(radix, m) == Numeral(radix, n)
    ensures m == n
    decreases m
  {
    hide Digit, Numeral;
    LastDigit(radix, m);
    LastDigit(radix, n);
    SameSnoc(Front(radix, m), Front(radix, n), Digit(m % radix), Digit(n % radix));
    DigitsAscend(m % radix, n % radix);
    QuotientAndRest(radix, m, n);
    if m >= radix && n >= radix {
      NumeralIsInjective(radix, m / radix, n / radix);
    }
  }

  lemma SameSnoc(a: string, b: string, x: char, y: char)
    requires a + [x] == b + [y]
    ensures a == b && x == y
  {
    assert (a + [x])[..|a|] == a && (b + [y])[..|b|] == b;
    assert (a + [x])[|a|] == x && (b + [y])[|b|] == y;
  }

  lemma QuotientAndRest(radix: Radix, m: nat, n: nat)
    ensures m == n <==> m / radix == n / radix && m % radix == n % radix
    ensures m < n <==> m / radix < n / radix || (m / radix == n / radix && m % radix < n % radix)
  {
    Divides(radix, m);
    Divides(radix, n);
    PartsDecide(radix, m / radix, m % radix, n / radix, n % radix);
  }

  lemma Divides(radix: Radix, n: nat)
    ensures n == radix * (n / radix) + n % radix && n % radix < radix
  {
  }

  lemma PartsDecide(radix: Radix, p: nat, r: nat, q: nat, s: nat)
    requires r < radix && s < radix
    ensures radix * p + r == radix * q + s <==> p == q && r == s
    ensures radix * p + r < radix * q + s <==> p < q || (p == q && r < s)
  {
    if p < q {
      Below(radix, p, q);
    } else if q < p {
      Below(radix, q, p);
    }
  }

  lemma Below(radix: Radix, p: nat, q: nat)
    requires p < q
    ensures radix * p + radix <= radix * q
  {
    var d := q - p - 1;
    assert radix * q == radix * p + radix + radix * d;
  }

  lemma {:induction false} TextLessSnoc(a: string, b: string, x: char, y: char)
    requires |a| == |b|
    ensures TextLess(a + [x], b + [y]) <==> TextLess(a, b) || (a == b && x < y)
  {
    if a != "" {
      TextLessSnoc(a[1..], b[1..], x, y);
      assert (a + [x])[1..] == a[1..] + [x] && (b + [y])[1..] == b[1..] + [y];
      assert a == [a[0]] + a[1..] && b == [b[0]] + b[1..];
    }
  }

  /** Among numerals of one length the order of the text is the order of the numbers. */
  lemma {:induction false} NumeralsAscend(radix: Radix, m: nat, n: nat)
    requires |Numeral(radix, m)| == |Numeral(radix, n)|
    ensures TextLess(Numeral(radix, m), Numeral(radix, n)) <==> m < n
    decreases m
  {
    hide Digit, Numeral, TextLess;
    LastDigit(radix, m);
    LastDigit(radix, n);
    TextLessSnoc(Front(radix, m), Front(radix, n), Digit(m % radix), Digit(n % radix));
    DigitsAscend(m % radix, n % radix);
    QuotientAndRest(radix, m, n);
    if m >= radix && n >= radix {
      NumeralsAscend(radix, m / radix, n / radix);
      if Numeral(radix, m / radix) == Numeral(radix, n / radix) {
        NumeralIsInjective(radix, m / radix, n / radix);
      }
    } else {
      NothingLess();
    }
  }

  lemma NothingLess()
    ensures !TextLess("", "")
  {
  }

  /** Two numerals with a hyphen behind them are ordered by the numerals, and by what follows where those agree. */
  lemma {:induction false} HyphenatedLess(a: string, b: string, x: string, y: string)
    requires forall c | c in a + b :: c > '-'
    ensures TextLess(a + "-" + x, b + "-" + y) <==> TextLess(a, b) || (a == b && TextLess(x, y))
  {
    var (s, t) := (a + "-" + x, b + "-" + y);
    if a == "" && b == "" {
      assert s[1..] == x && t[1..] == y;
    } else if a == "" {
      assert t[0] == b[0] && b[0] in a + b;
    } else if b == "" {
      assert s[0] == a[0] && a[0] in a + b;
    } else {
      forall c | c in a[1..] + b[1..] ensures c > '-' {
        assert c in a + b;
      }
      HyphenatedLess(a[1..], b[1..], x, y);
      assert s[1..] == a[1..] + "-" + x && t[1..] == b[1..] + "-" + y;
      assert a == [a[0]] + a[1..] && b == [b[0]] + b[1..];
    }
  }
}
