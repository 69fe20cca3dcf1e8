/** The jobs a server remembers, and which are forgotten: ConversionSlot and job_id of apps/groma-api/src/main.rs. */
module JobHistory {
  import opened Options
  import opened NameOrder
  import opened Numerals

  /** Identifiers are text, and the map keeps them in the order of text. */
  type Id = string

  /** How many jobs are kept, one to come included. */
  const LIMIT: nat := 32

  predicate IsOldest(r: Id, ids: set<Id>) {
    r in ids && forall id | id in ids && id != r :: TextLess(r, id)
  }

  /** The first of the ids as text, which the map takes for the oldest. */
  function Oldest(ids: set<Id>): (r: Id)
    requires ids != {}
    ensures IsOldest(r, ids)
  {
    OldestExists(ids);
    OldestIsUnique(ids);
    var r :| r in ids && IsOldest(r, ids);
    r
  }

  lemma {:induction false} OldestExists(ids: set<Id>)
    requires ids != {}
    ensures exists r :: r in ids && IsOldest(r, ids)
  {
    hide TextLess;
    var x :| x in ids;
    var rest := ids - {x};
    if rest == {} {
      assert ids == {x};
      assert IsOldest(x, ids);
    } else {
      OldestExists(rest);
      var r :| r in rest && IsOldest(r, rest);
      TextLessIsTotal(r, x);
      if TextLess(r, x) {
        assert IsOldest(r, ids);
      } else {
        forall id | id in rest && id != r ensures TextLess(x, id) {
          TextLessIsTransitive(x, r, id);
        }
        assert IsOldest(x, ids);
      }
    }
  }

  lemma OldestIsUnique(ids: set<Id>)
    ensures forall a, b | IsOldest(a, ids) && IsOldest(b, ids) :: a == b
  {
    hide TextLess;
    forall a, b | IsOldest(a, ids) && IsOldest(b, ids) ensures a == b {
      TextLessIsTotal(a, b);
    }
  }

  lemma OldestIs(ids: set<Id>, r: Id)
    requires r in ids
    ensures Oldest(ids) == r <==> IsOldest(r, ids)
  {
    hide TextLess;
    TextLessIsTotal(r, Oldest(ids));
  }

  /** The jobs left when the oldest have made room for one more. */
  function WithRoom<J>(jobs: map<Id, J>): (r: map<Id, J>)
    ensures |r| < LIMIT && r.Keys <= jobs.Keys
    decreases |jobs|
  {
    if |jobs| < LIMIT then jobs
    else
      var oldest := Oldest(jobs.Keys);
      ForgetsOne(jobs, oldest);
      WithRoom(jobs - {oldest})
  }

  lemma ForgetsOne<J>(jobs: map<Id, J>, id: Id)
    requires id in jobs
    ensures |jobs - {id}| == |jobs| - 1
  {
    assert (jobs - {id}).Keys == jobs.Keys - {id};
    assert |jobs| == |jobs.Keys| && |jobs - {id}| == |(jobs - {id}).Keys|;
  }

  class ConversionSlot<J> {
    var jobs: map<Id, J>

    constructor ()
      ensures jobs == map[]
    {
      jobs := map[];
    }

    /** The job a request names, for polling it or cancelling it. */
    method Find(id: Id) returns (job: Option<J>)
      ensures job == if id in jobs then Some(jobs[id]) else None
    {
      job := if id in jobs then Some(jobs[id]) else None;
    }

    /** Keep one more job, at the cost of the first ids wherever there are too many. */
    method Remember(id: Id, job: J)
      modifies this
      ensures jobs == WithRoom(old(jobs))[id := job]
    {
      while |jobs| >= LIMIT
        invariant WithRoom(jobs) == WithRoom(old(jobs))
        decreases |jobs|
      {
        var oldest := Oldest(jobs.Keys);
        ForgetsOne(jobs, oldest);
        jobs := jobs - {oldest};
      }
      jobs := jobs[id := job];
    }
  }

  /** What is remembered after the jobs announced, in the order of their announcement. */
  function Remembered<J>(announced: seq<(Id, J)>): map<Id, J> {
    if announced == [] then map[]
    else
      var last := announced[|announced| - 1];
      WithRoom(Remembered(announced[..|announced| - 1]))[last.0 := last.1]
  }

  ghost predicate AllDistinct<J>(announced: seq<(Id, J)>) {
    forall i, j | 0 <= i < j < |announced| :: announced[i].0 != announced[j].0
  }

  /** The jobs announced, all of them. */
  function Everything<J>(announced: seq<(Id, J)>): map<Id, J> {
    if announced == [] then map[]
    else Everything(announced[..|announced| - 1])[announced[|announced| - 1].0 := announced[|announced| - 1].1]
  }

  ghost predicate IsAnnounced<J>(announced: seq<(Id, J)>, id: Id) {
    exists i :: 0 <= i < |announced| && announced[i].0 == id
  }

  lemma {:induction false} EverythingIsThere<J>(announced: seq<(Id, J)>)
    requires AllDistinct(announced)
    ensures |Everything(announced)| == |announced|
    ensures forall i | 0 <= i < |announced| ::
              announced[i].0 in Everything(announced) && Everything(announced)[announced[i].0] == announced[i].1
    ensures forall id | id in Everything(announced) :: IsAnnounced(announced, id)
  {
    hide AllDistinct;
    if announced != [] {
      var n := |announced| - 1;
      var (front, last) := (announced[..n], announced[n]);
      PartsAreDistinct(announced, n);
      LastIsNew(announced);
      EverythingIsThere(front);
      assert announced == front + [last];
      OneMore(Everything(front), last.0, last.1);
      forall id | id in Everything(announced) ensures IsAnnounced(announced, id) {
        if id != last.0 {
          var i :| 0 <= i < |front| && front[i].0 == id;
          assert announced[i].0 == id;
        }
      }
    }
  }

  lemma LastIsNew<J>(announced: seq<(Id, J)>)
    requires AllDistinct(announced) && announced != []
    ensures !IsAnnounced(announced[..|announced| - 1], announced[|announced| - 1].0)
  {
  }

  lemma OneMore<J>(jobs: map<Id, J>, id: Id, job: J)
    requires id !in jobs
    ensures |jobs[id := job]| == |jobs| + 1
  {
    assert jobs[id := job].Keys == jobs.Keys + {id};
    assert |jobs| == |jobs.Keys| && |jobs[id := job]| == |jobs[id := job].Keys|;
  }

  lemma {:induction false} WithoutTheFirst<J>(announced: seq<(Id, J)>)
    requires AllDistinct(announced) && announced != []
    ensures Everything(announced) - {announced[0].0} == Everything(announced[1..])
  {
    var n := |announced| - 1;
    if n == 0 {
      assert Everything(announced[..0]) == map[];
    } else {
      var (front, last) := (announced[..n], announced[n]);
      WithoutTheFirst(front);
      assert announced[1..][..n - 1] == front[1..];
      assert front[0] == announced[0] && announced[1..][n - 1] == last;
      assert Everything(announced) - {announced[0].0} == (Everything(front) - {front[0].0})[last.0 := last.1];
    }
  }

  function Newest<J>(announced: seq<(Id, J)>): (r: seq<(Id, J)>)
    ensures |r| <= 32
  {
    if |announced| <= 32 then announced else announced[|announced| - 32..]
  }

  /** The job announced 32 before has, as text, the first id of the 32. */
  ghost predicate FirstOfItsWindow<J>(announced: seq<(Id, J)>, n: nat)
    requires 32 <= n <= |announced|
  {
    forall k | n - 32 < k < n :: TextLess(announced[n - 32].0, announced[k].0)
  }

  /** Whenever there is one job too many, the one announced first is first as text. */
  ghost predicate InOrder<J>(announced: seq<(Id, J)>) {
    forall n | 32 <= n < |announced| :: FirstOfItsWindow(announced, n)
  }

  ghost predicate NewestAreRemembered<J>(announced: seq<(Id, J)>) {
    Remembered(announced) == Everything(Newest(announced))
  }

  lemma OneMoreIsRemembered<J>(announced: seq<(Id, J)>)
    requires announced != [] && AllDistinct(announced) && NewestAreRemembered(announced[..|announced| - 1])
    ensures NewestAreRemembered(announced)
       <==> |announced| <= LIMIT || FirstOfItsWindow(announced, |announced| - 1)
  {
    hide WithRoom, Everything, AllDistinct, Newest, FirstOfItsWindow;
    var n := |announced| - 1;
    var (front, kept) := (announced[..n], Newest(announced[..n]));
    NewestSnoc(announced);
    NewestIsLast(front);
    NewestLength(front);
    PartsAreDistinct(announced, n);
    PartsAreDistinct(front, n - |kept|);
    if |kept| < LIMIT {
      FewAreKept(kept);
      EverythingSnoc(kept, announced[n]);
    } else {
      WindowIsKept(announced);
      EverythingSnoc(kept[1..], announced[n]);
      LastIsNotKept(announced);
      MakesRoom(kept, announced[n].0, announced[n].1);
    }
  }

  /** After every announcement exactly the newest 32 are remembered, if and only if the ids are in that order. */
  lemma {:induction false} TheNewestAreRemembered<J>(announced: seq<(Id, J)>)
    requires AllDistinct(announced)
    ensures InOrder(announced) <==> forall n | 0 <= n <= |announced| :: NewestAreRemembered(announced[..n])
  {
    hide AllDistinct, NewestAreRemembered, FirstOfItsWindow;
    if announced == [] {
      NothingIsRemembered<J>();
      assert announced[..0] == [];
    } else {
      var m := |announced| - 1;
      var front := announced[..m];
      PartsAreDistinct(announced, m);
      TheNewestAreRemembered(front);
      assert announced[..m + 1] == announced;
      assert forall n | 0 <= n <= m :: front[..n] == announced[..n];
      assert front[..m] == front;
      forall n | LIMIT <= n < m ensures FirstOfItsWindow(front, n) <==> FirstOfItsWindow(announced, n) {
        WindowInFront(announced, n);
      }
      if NewestAreRemembered(front) {
        OneMoreIsRemembered(announced);
      } else {
        assert !NewestAreRemembered(announced[..m]);
      }
    }
  }

  lemma WindowInFront<J>(announced: seq<(Id, J)>, n: nat)
    requires LIMIT <= n < |announced|
    ensures FirstOfItsWindow(announced[..|announced| - 1], n) <==> FirstOfItsWindow(announced, n)
  {
  }

  lemma NothingIsRemembered<J>()
    ensures NewestAreRemembered<J>([])
  {
  }

  lemma NewestLength<J>(announced: seq<(Id, J)>)
    ensures |Newest(announced)| == if |announced| <= LIMIT then |announced| else LIMIT
  {
  }

  lemma FewAreKept<J>(kept: seq<(Id, J)>)
    requires AllDistinct(kept) && |kept| < LIMIT
    ensures WithRoom(Everything(kept)) == Everything(kept)
  {
    EverythingIsThere(kept);
  }

  /** The window is the jobs kept, with the one to go at its front. */
  lemma WindowIsKept<J>(announced: seq<(Id, J)>)
    requires |announced| > LIMIT
    ensures var kept := Newest(announced[..|announced| - 1]);
      |kept| == LIMIT && (FirstOfItsWindow(announced, |announced| - 1) <==> IsFirst(kept))
  {
    var n := |announced| - 1;
    var kept := Newest(announced[..n]);
    assert forall k | 0 <= k < LIMIT :: kept[k] == announced[n - LIMIT + k];
    forall k | n - LIMIT < k < n ensures announced[k] == kept[k - (n - LIMIT)] {
    }
  }

  ghost predicate IsFirst<J>(kept: seq<(Id, J)>) {
    forall k | 1 <= k < |kept| :: TextLess(kept[0].0, kept[k].0)
  }

  lemma LastIsNotKept<J>(announced: seq<(Id, J)>)
    requires AllDistinct(announced) && announced != []
    ensures var kept := Newest(announced[..|announced| - 1]);
      forall k | 0 <= k < |kept| :: kept[k].0 != announced[|announced| - 1].0
  {
    var n := |announced| - 1;
    NewestIsLast(announced[..n]);
    var kept := Newest(announced[..n]);
    assert forall k | 0 <= k < |kept| :: kept[k] == announced[n - |kept| + k];
  }

  lemma NewestIsLast<J>(announced: seq<(Id, J)>)
    ensures |Newest(announced)| <= |announced|
    ensures Newest(announced) == announced[|announced| - |Newest(announced)|..]
  {
  }

  /** What of the newest stays when one more is announced. */
  function LeftOf<J>(announced: seq<(Id, J)>): seq<(Id, J)>
    requires announced != []
  {
    var kept := Newest(announced[..|announced| - 1]);
    if |kept| < LIMIT then kept else kept[1..]
  }

  lemma NewestSnoc<J>(announced: seq<(Id, J)>)
    requires announced != []
    ensures Newest(announced) == LeftOf(announced) + [announced[|announced| - 1]]
  {
    var n := |announced| - 1;
    var front := announced[..n];
    assert announced == front + [announced[n]];
    if n >= LIMIT {
      var kept := Newest(front);
      assert kept == front[n - LIMIT..];
      assert kept[1..] == announced[n - LIMIT + 1..n];
      assert announced[n - LIMIT + 1..] == announced[n - LIMIT + 1..n] + [announced[n]];
    }
  }

  lemma PartsAreDistinct<J>(announced: seq<(Id, J)>, k: nat)
    requires AllDistinct(announced) && k <= |announced|
    ensures AllDistinct(announced[..k]) && AllDistinct(announced[k..])
  {
  }

  lemma EverythingSnoc<J>(front: seq<(Id, J)>, last: (Id, J))
    ensures Everything(front + [last]) == Everything(front)[last.0 := last.1]
  {
    assert (front + [last])[..|front|] == front;
  }

  /** One is forgotten for the next, and it is the front one exactly when that comes first as text. */
  lemma MakesRoom<J>(kept: seq<(Id, J)>, id: Id, job: J)
    requires AllDistinct(kept) && |kept| == LIMIT && forall k | 0 <= k < |kept| :: kept[k].0 != id
    ensures WithRoom(Everything(kept))[id := job] == Everything(kept[1..])[id := job] <==> IsFirst(kept)
  {
    hide TextLess, AllDistinct, Everything, IsAnnounced;
    var jobs := Everything(kept);
    EverythingIsThere(kept);
    WithoutTheFirst(kept);
    var oldest := Oldest(jobs.Keys);
    OldestIs(jobs.Keys, kept[0].0);
    FrontIsOldest(kept);
    ForgetsOne(jobs, oldest);
    assert WithRoom(jobs) == jobs - {oldest};
    if oldest != kept[0].0 {
      assert kept[0].0 in jobs && kept[0].0 in (jobs - {oldest})[id := job];
      assert kept[0].0 !in (jobs - {kept[0].0})[id := job];
    }
  }

  lemma FrontIsOldest<J>(kept: seq<(Id, J)>)
    requires AllDistinct(kept) && kept != []
    ensures IsOldest(kept[0].0, Everything(kept).Keys) <==> IsFirst(kept)
  {
    hide TextLess, Everything;
    EverythingIsThere(kept);
    var ids := Everything(kept).Keys;
    if IsFirst(kept) {
      forall id | id in ids && id != kept[0].0 ensures TextLess(kept[0].0, id) {
        assert IsAnnounced(kept, id);
      }
    }
    if IsOldest(kept[0].0, ids) {
      forall k | 1 <= k < |kept| ensures TextLess(kept[0].0, kept[k].0) {
        assert kept[k].0 in Everything(kept);
      }
    }
  }

  lemma NewestAt<J>(announced: seq<(Id, J)>, i: nat) returns (k: nat)
    requires i < |announced| && |announced| - i <= LIMIT
    ensures k < |Newest(announced)| && Newest(announced)[k] == announced[i]
  {
    k := i - (|announced| - |Newest(announced)|);
  }

  lemma CrowdedOut<J>(announced: seq<(Id, J)>, i: nat)
    requires AllDistinct(announced) && i < |announced| && |announced| - i > LIMIT
    ensures !IsAnnounced(Newest(announced), announced[i].0)
  {
    var newest := Newest(announced);
    assert forall k | 0 <= k < |newest| :: newest[k] == announced[|announced| - LIMIT + k];
  }

  /** A job can be asked about, and cancelled, exactly until 32 more have been announced - running or not. */
  lemma FoundUntilCrowdedOut<J>(announced: seq<(Id, J)>, i: nat)
    requires AllDistinct(announced) && InOrder(announced) && i < |announced|
    ensures announced[i].0 in Remembered(announced) <==> |announced| - i <= 32
    ensures |announced| - i <= 32 ==> Remembered(announced)[announced[i].0] == announced[i].1
  {
    hide Everything, Remembered, IsAnnounced, Newest, AllDistinct, FirstOfItsWindow, InOrder;
    TheNewestAreRemembered(announced);
    assert announced[..|announced|] == announced;
    assert NewestAreRemembered(announced);
    NewestIsLast(announced);
    PartsAreDistinct(announced, |announced| - |Newest(announced)|);
    EverythingIsThere(Newest(announced));
    if |announced| - i <= LIMIT {
      var k := NewestAt(announced, i);
    } else {
      CrowdedOut(announced, i);
    }
  }

  // ----- the ids a server makes -----

  /** The clock in hexadecimal and a counter in decimal. */
  datatype Stamp = Stamp(millis: nat, count: nat)

  function JobId(stamp: Stamp): Id {
    Numeral(16, stamp.millis) + "-" + Decimal(stamp.count)
  }

  lemma NumeralsAreAboveTheHyphen(radix: Radix, n: nat)
    ensures forall c | c in Numeral(radix, n) :: c > '-'
  {
    assert IsNumeral(Numeral(radix, n));
  }

  /** Ids are ordered by the clock's digits, and where those agree by the counter's - as text. */
  lemma JobIdsLess(a: Stamp, b: Stamp)
    ensures TextLess(JobId(a), JobId(b))
       <==> || TextLess(Numeral(16, a.millis), Numeral(16, b.millis))
            || (a.millis == b.millis && TextLess(Decimal(a.count), Decimal(b.count)))
  {
    hide TextLess, Numeral;
    NumeralsAreAboveTheHyphen(16, a.millis);
    NumeralsAreAboveTheHyphen(16, b.millis);
    HyphenatedLess(Numeral(16, a.millis), Numeral(16, b.millis), Decimal(a.count), Decimal(b.count));
    if Numeral(16, a.millis) == Numeral(16, b.millis) {
      NumeralIsInjective(16, a.millis, b.millis);
    }
  }

  /** The clock does not go back, the counter goes up, and the clock's digits keep their number. */
  ghost predicate AsServed(stamps: seq<Stamp>) {
    forall i, j | 0 <= i < j < |stamps| ::
      && stamps[i].millis <= stamps[j].millis && stamps[i].count < stamps[j].count
      && |Numeral(16, stamps[i].millis)| == |Numeral(16, stamps[j].millis)|
  }

  /** A later id comes later as text exactly when the clock has moved on, or the counter's text has. */
  lemma ServedIdsLess(stamps: seq<Stamp>, i: nat, j: nat)
    requires AsServed(stamps) && i < j < |stamps|
    ensures TextLess(JobId(stamps[i]), JobId(stamps[j]))
       <==> stamps[i].millis < stamps[j].millis || TextLess(Decimal(stamps[i].count), Decimal(stamps[j].count))
    ensures |Decimal(stamps[i].count)| == |Decimal(stamps[j].count)| ==> TextLess(JobId(stamps[i]), JobId(stamps[j]))
  {
    hide TextLess, Numeral;
    var (a, b) := (stamps[i], stamps[j]);
    JobIdsLess(a, b);
    NumeralsAscend(16, a.millis, b.millis);
    if |Decimal(a.count)| == |Decimal(b.count)| {
      NumeralsAscend(10, a.count, b.count);
    }
  }

  /** An id is the clock in small hexadecimal digits, a hyphen, and the counter. */
  lemma IdsRead()
    ensures JobId(Stamp(0xABC, 17)) == "abc-17"
  {
    assert Numeral(16, 0xA) == "a";
    assert Numeral(16, 0xAB) == "ab";
    assert Decimal(1) == "1";
  }

  /** The ninth and the tenth job of a server, in one millisecond, are the other way round as text. */
  lemma NinthAndTenthAreSwapped(millis: nat)
    ensures AsServed([Stamp(millis, 9), Stamp(millis, 10)])
    ensures TextLess(JobId(Stamp(millis, 10)), JobId(Stamp(millis, 9)))
  {
    JobIdsLess(Stamp(millis, 10), Stamp(millis, 9));
    assert Decimal(10) == "10" && Decimal(9) == "9" by {
      assert Numeral(10, 1) == "1";
    }
  }
}
