/** The order in which the library's maps keep optional names: none first, then by character. */
module NameOrder {
  import opened Options

  type Name = Option<string>

  predicate TextLess(a: string, b: string) {
    if a == "" || b == "" then a == "" && b != ""
    else a[0] < b[0] || (a[0] == b[0] && TextLess(a[1..], b[1..]))
  }

  /** Up to k the texts are alike, and there the first ends or has the lesser character. */
  ghost predicate DiffersAt(a: string, b: string, k: nat) {
    && k <= |a| && k < |b| && (forall i :: 0 <= i < k ==> a[i] == b[i])
    && (k == |a| || a[k] < b[k])
  }

  /** The first text is the start of the second, or has the lesser character where they first differ. */
  ghost predicate ComesBefore(a: string, b: string) {
    exists k: nat :: DiffersAt(a, b, k)
  }

  lemma {:induction false} TextLessIs(a: string, b: string)
    ensures TextLess(a, b) <==> ComesBefore(a, b)
  {
    if a == "" || b == "" {
      if a == "" && b != "" {
        assert DiffersAt(a, b, 0);
      }
    } else {
      TextLessIs(a[1..], b[1..]);
      if a[0] < b[0] {
        assert DiffersAt(a, b, 0);
      } else if a[0] == b[0] {
        SameStart(a, b);
      }
    }
  }

  lemma OneFurther(a: string, b: string, k: nat)
    requires a != "" && b != "" && a[0] == b[0]
    ensures DiffersAt(a, b, k + 1) <==> DiffersAt(a[1..], b[1..], k)
  {
    if DiffersAt(a[1..], b[1..], k) {
      forall i | 0 < i < k + 1 ensures a[i] == b[i] {
        assert a[1..][i - 1] == b[1..][i - 1];
      }
    }
  }

  lemma SameStart(a: string, b: string)
    requires a != "" && b != "" && a[0] == b[0]
    ensures ComesBefore(a, b) <==> ComesBefore(a[1..], b[1..])
  {
    if k: nat :| DiffersAt(a, b, k) {
      OneFurther(a, b, k - 1);
    }
    if k: nat :| DiffersAt(a[1..], b[1..], k) {
      OneFurther(a, b, k);
    }
  }

  predicate NameLess(a: Name, b: Name) {
    b.Some? && (a.None? || TextLess(a.value, b.value))
  }

  lemma {:induction false} TextLessIsTotal(a: string, b: string)
    ensures if TextLess(a, b) then a != b && !TextLess(b, a) else a == b || TextLess(b, a)
  {
    if a != "" && b != "" {
      TextLessIsTotal(a[1..], b[1..]);
      assert a == [a[0]] + a[1..] && b == [b[0]] + b[1..];
    }
  }

  lemma {:induction false} TextLessIsTransitive(a: string, b: string, c: string)
    requires TextLess(a, b) && TextLess(b, c)
    ensures TextLess(a, c)
  {
    if a != "" && a[0] == b[0] == c[0] {
      TextLessIsTransitive(a[1..], b[1..], c[1..]);
    }
  }

  /** Of two names exactly one comes first, unless they are the same. */
  lemma NameLessIsTotal(a: Name, b: Name)
    ensures if NameLess(a, b) then a != b && !NameLess(b, a) else a == b || NameLess(b, a)
  {
    if a.Some? && b.Some? {
      TextLessIsTotal(a.value, b.value);
    }
  }

  lemma NameLessIsTransitive(a: Name, b: Name, c: Name)
    requires NameLess(a, b) && NameLess(b, c)
    ensures NameLess(a, c)
  {
    if a.Some? {
      TextLessIsTransitive(a.value, b.value, c.value);
    }
  }
}
