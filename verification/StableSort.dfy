/** The library's stable sort by a real key, and what makes it stable. */
module StableSort {
  import opened Options

  /** `x` put behind every element whose key does not exceed its own. */
  function Insert<T>(sorted: seq<T>, x: T, key: T -> real): (r: seq<T>)
    ensures |r| == |sorted| + 1
    ensures multiset(r) == multiset(sorted) + multiset{x}
  {
    if sorted == [] then [x]
    else
      var last := |sorted| - 1;
      assert sorted == sorted[..last] + [sorted[last]];
      if key(sorted[last]) <= key(x) then sorted + [x]
      else Insert(sorted[..last], x, key) + [sorted[last]]
  }

  function Sort<T>(s: seq<T>, key: T -> real): (r: seq<T>)
    ensures multiset(r) == multiset(s)
  {
    if s == [] then []
    else
      assert s == s[..|s| - 1] + [s[|s| - 1]];
      Insert(Sort(s[..|s| - 1], key), s[|s| - 1], key)
  }

  /** Ascending by key, and by rank where keys are equal. */
  ghost predicate Ordered<T>(s: seq<T>, key: T -> real, rank: T -> nat) {
    forall i, j :: 0 <= i < j < |s| ==>
      key(s[i]) < key(s[j]) || (key(s[i]) == key(s[j]) && rank(s[i]) < rank(s[j]))
  }

  lemma {:induction false} InsertOrdered<T>(sorted: seq<T>, x: T, key: T -> real, rank: T -> nat)
    requires Ordered(sorted, key, rank)
    requires forall y :: y in sorted ==> rank(y) < rank(x)
    ensures Ordered(Insert(sorted, x, key), key, rank)
  {
    if sorted != [] {
      var last := |sorted| - 1;
      if key(sorted[last]) <= key(x) {
      } else {
        InsertOrdered(sorted[..last], x, key, rank);
        var r := Insert(sorted[..last], x, key);
        forall i | 0 <= i < |r| ensures key(r[i]) < key(sorted[last])
                   || (key(r[i]) == key(sorted[last]) && rank(r[i]) < rank(sorted[last]))
        {
          assert r[i] in multiset(r);
          assert r[i] in sorted[..last] || r[i] == x;
        }
      }
    }
  }

  /** A stable sort of a sequence whose ranks ascend keeps the rank order among equal keys. */
  lemma {:induction false} SortOrdered<T>(s: seq<T>, key: T -> real, rank: T -> nat)
    requires forall i, j :: 0 <= i < j < |s| ==> rank(s[i]) < rank(s[j])
    ensures Ordered(Sort(s, key), key, rank)
  {
    if s != [] {
      var front := s[..|s| - 1];
      SortOrdered(front, key, rank);
      var x := s[|s| - 1];
      forall y | y in Sort(front, key) ensures rank(y) < rank(x) {
        assert y in multiset(Sort(front, key));
        assert y in front;
      }
      InsertOrdered(Sort(front, key), x, key, rank);
    }
  }

  ghost predicate NoneTwice<T>(s: seq<T>) {
    forall i, j :: 0 <= i < j < |s| ==> s[i] != s[j]
  }

  /** A sequence holds nothing twice exactly when no multiplicity exceeds one. */
  lemma {:induction false} NoneTwiceByCount<T>(s: seq<T>)
    ensures NoneTwice(s) <==> forall x :: multiset(s)[x] <= 1
  {
    if s != [] {
      var (front, last) := (s[..|s| - 1], s[|s| - 1]);
      NoneTwiceByCount(front);
      assert s == front + [last];
      assert forall x :: multiset(s)[x] == multiset(front)[x] + (if x == last then 1 else 0);
      if NoneTwice(s) {
        assert last !in front;
        assert multiset(front)[last] == 0;
      } else if NoneTwice(front) {
        assert last in front;
        assert multiset(front)[last] >= 1;
      } else {
        var x :| multiset(front)[x] > 1;
        assert multiset(s)[x] > 1;
      }
    }
  }

  lemma NoneTwicePermutes<T>(a: seq<T>, b: seq<T>)
    requires multiset(a) == multiset(b) && NoneTwice(a)
    ensures NoneTwice(b)
  {
    NoneTwiceByCount(a);
    NoneTwiceByCount(b);
  }

  function Positions(n: nat): (r: seq<nat>)
    ensures |r| == n && forall i :: 0 <= i < n ==> r[i] == i
  {
    seq(n, i requires 0 <= i < n => i)
  }

  function FirstFrom(order: seq<nat>, ok: nat -> bool, from: nat): Option<nat>
    requires from <= |order|
    decreases |order| - from
  {
    if from == |order| then None
    else if ok(order[from]) then Some(order[from])
    else FirstFrom(order, ok, from + 1)
  }

  function FirstIn(order: seq<nat>, ok: nat -> bool): Option<nat> {
    FirstFrom(order, ok, 0)
  }

  lemma {:induction false} FirstFromIsFirst(order: seq<nat>, ok: nat -> bool, from: nat) returns (k: nat)
    requires from <= |order|
    ensures from <= k <= |order| && forall i :: from <= i < k ==> !ok(order[i])
    ensures k == |order| <==> FirstFrom(order, ok, from).None?
    ensures k < |order| ==> FirstFrom(order, ok, from) == Some(order[k]) && ok(order[k])
    decreases |order| - from
  {
    k := from;
    if from < |order| && !ok(order[from]) {
      k := FirstFromIsFirst(order, ok, from + 1);
    }
  }

  /** The positions below n in the order the sort puts them. */
  function SortedPositions(n: nat, key: nat -> real): seq<nat> {
    Sort(Positions(n), key)
  }

  lemma SortedPositionsComplete(n: nat, key: nat -> real)
    ensures var order := SortedPositions(n, key);
            && (forall i: nat :: i < n ==> i in order)
            && (forall i: nat :: i in order ==> i < n)
            && forall i, j :: 0 <= i < j < |order| ==>
                 key(order[i]) < key(order[j]) || (key(order[i]) == key(order[j]) && order[i] < order[j])
  {
    var order := SortedPositions(n, key);
    SortOrdered(Positions(n), key, (i: nat) => i);
    forall i: nat | i < n ensures i in order {
      assert Positions(n)[i] == i;
      assert i in multiset(Positions(n)) && i in multiset(order);
    }
    forall i: nat | i in order ensures i < n {
      assert i in multiset(order) && i in multiset(Positions(n));
    }
  }

  /**
   Sorting the positions and taking the first that will do finds the one of least key, the lowest where several tie.
   */
  lemma FirstOfSortedIsLeast(n: nat, key: nat -> real, ok: nat -> bool)
    ensures var found := FirstIn(SortedPositions(n, key), ok);
            && (found.None? <==> forall i: nat :: i < n ==> !ok(i))
            && (found.Some? ==>
                  && found.value < n && ok(found.value)
                  && forall i: nat :: i < n && ok(i) ==>
                       key(found.value) < key(i) || (key(found.value) == key(i) && found.value <= i))
  {
    var order := SortedPositions(n, key);
    SortedPositionsComplete(n, key);
    var k := FirstFromIsFirst(order, ok, 0);
    assert k < |order| ==> order[k] in order;
    forall i: nat | i < n && ok(i)
      ensures k < |order| && (key(order[k]) < key(i) || (key(order[k]) == key(i) && order[k] <= i))
    {
      assert i in order;
      var j :| 0 <= j < |order| && order[j] == i;
      assert j >= k;
    }
  }
}
