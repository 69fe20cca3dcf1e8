/** What the storeys promise: they agree with the filtered query, and they account for every model element. */
module StoreyLaws {
  import opened Options
  import opened StableSort
  import opened ModelStore
  import opened Storeys
  import opened NameOrder
  import opened Doubles

  ghost predicate UniqueIds(elements: seq<Element>) {
    forall i, j :: 0 <= i < j < |elements| ==> elements[i].id != elements[j].id
  }

  function LevelSet(ids: seq<nat>): set<int> {
    set id | id in ids
  }

  function OnLevels(levels: set<int>): Element -> bool {
    (e: Element) => e.levelId.Some? && e.levelId.value in levels && IsModelElement(e)
  }

  /** The filter that names a storey by its level records. */
  function StoreyQuery(levels: set<int>): Query {
    Query(None, None, None, Some(levels), None, None, true, false, 0, 0)
  }

  lemma StoreyQueryTotal(lower: string -> string, elements: seq<Element>, levels: set<int>)
    ensures PageOf(lower, elements, StoreyQuery(levels)).total == Count(OnLevels(levels), elements)
  {
    FilteredAgree(Wanted(lower, StoreyQuery(levels)), OnLevels(levels), elements);
  }

  // ----- a storey's count is its query's total -----

  ghost predicate RepeatsAreEmpty(ids: seq<nat>, count: int -> nat) {
    forall i, j :: 0 <= i < j < |ids| && ids[i] == ids[j] ==> count(ids[i]) == 0
  }

  /** The elements of a kind that are on one of the levels. */
  function OfKindOn(levels: set<int>, kind: Element -> bool): Element -> bool {
    (e: Element) => e.levelId.Some? && e.levelId.value in levels && kind(e)
  }

  /** A table of the elements of a kind by level. */
  ghost predicate IsByLevel(on: int -> (Element -> bool), kind: Element -> bool) {
    forall level: int, e: Element :: on(level)(e) <==> e.levelId == Some(level) && kind(e)
  }

  /** Summing a table over record ids counts each element once, but those on a repeated id once more each time. */
  lemma {:induction false} SumAtCountsOf(ids: seq<nat>, on: int -> (Element -> bool), kind: Element -> bool,
      elements: seq<Element>)
    requires IsByLevel(on, kind)
    ensures var (sum, total) := (SumAt(ids, CountsOf(on, elements)), Count(OfKindOn(LevelSet(ids), kind), elements));
            && sum >= total
            && (sum == total <==> RepeatsAreEmpty(ids, CountsOf(on, elements)))
  {
    hide Count, RepeatsAreEmpty, Filtered;
    var count := CountsOf(on, elements);
    if ids == [] {
      NothingOnNothing(kind, count, elements);
    } else {
      var (front, last) := (ids[..|ids| - 1], ids[|ids| - 1]);
      SumAtCountsOf(front, on, kind, elements);
      assert ids == front + [last];
      RepeatsSnoc(front, last, count);
      OneMoreLevel(front, last, on, kind, elements);
    }
  }

  lemma NothingOnNothing(kind: Element -> bool, count: int -> nat, elements: seq<Element>)
    ensures Count(OfKindOn(LevelSet([]), kind), elements) == 0 && RepeatsAreEmpty([], count)
  {
    NothingFiltered(OfKindOn(LevelSet([]), kind), elements);
  }

  lemma OneMoreLevel(front: seq<nat>, last: nat, on: int -> (Element -> bool), kind: Element -> bool,
      elements: seq<Element>)
    requires IsByLevel(on, kind)
    ensures Count(OfKindOn(LevelSet(front + [last]), kind), elements)
         == Count(OfKindOn(LevelSet(front), kind), elements)
            + if last in front then 0 else CountsOf(on, elements)(last)
  {
    hide Count, Filtered;
    assert LevelSet(front + [last]) == LevelSet(front) + {last as int};
    if last in front {
      assert LevelSet(front + [last]) == LevelSet(front);
    } else {
      CountSplits(OfKindOn(LevelSet(front + [last]), kind), OfKindOn(LevelSet(front), kind), on(last), elements);
    }
  }

  lemma SumAtCounts(ids: seq<nat>, elements: seq<Element>)
    ensures var (sum, total) := (SumAt(ids, CountsOf(StandsOn, elements)), Count(OnLevels(LevelSet(ids)), elements));
            && sum >= total
            && (sum == total <==> RepeatsAreEmpty(ids, CountsOf(StandsOn, elements)))
  {
    SumAtCountsOf(ids, StandsOn, IsModelElement, elements);
    FilteredAgree(OfKindOn(LevelSet(ids), IsModelElement), OnLevels(LevelSet(ids)), elements);
  }

  lemma {:induction false} NothingFiltered(nothing: Element -> bool, elements: seq<Element>)
    requires forall e :: !nothing(e)
    ensures Filtered(nothing, elements) == []
  {
    if elements != [] {
      NothingFiltered(nothing, elements[..|elements| - 1]);
    }
  }

  lemma RepeatsSnoc(front: seq<nat>, last: nat, count: int -> nat)
    ensures RepeatsAreEmpty(front + [last], count)
       <==> RepeatsAreEmpty(front, count) && (last in front ==> count(last) == 0)
  {
    var ids := front + [last];
    if RepeatsAreEmpty(ids, count) {
      forall i, j | 0 <= i < j < |front| && front[i] == front[j] ensures count(front[i]) == 0 {
        assert ids[i] == ids[j];
      }
      if last in front {
        var i :| 0 <= i < |front| && front[i] == last;
        assert ids[i] == ids[|front|];
      }
    }
  }

  /** A storey's count is its query's total exactly when no id of its records repeats with elements on it. */
  lemma StoreyAgreesWithQuery(lower: string -> string, elements: seq<Element>, s: Storey)
    requires IsStoreyOf(elements, s)
    ensures s.modelElements == PageOf(lower, elements, StoreyQuery(LevelSet(s.levelIds))).total
       <==> RepeatsAreEmpty(s.levelIds, CountsOf(StandsOn, elements))
  {
    SumAtCounts(s.levelIds, elements);
    StoreyQueryTotal(lower, elements, LevelSet(s.levelIds));
  }

  lemma {:induction false} FilteredIdsDistinct(p: Element -> bool, elements: seq<Element>)
    requires UniqueIds(elements)
    ensures NoneTwice(IdsOf(Filtered(p, elements)))
  {
    if elements != [] {
      var (front, last) := (elements[..|elements| - 1], elements[|elements| - 1]);
      FilteredIdsDistinct(p, front);
      var before := Filtered(p, front);
      forall i | 0 <= i < |before| ensures before[i].id != last.id {
        assert before[i] in before && before[i] in front;
      }
    }
  }

  lemma LevelIdsDistinct(elements: seq<Element>, key: Key)
    requires UniqueIds(elements)
    ensures NoneTwice(LevelIds(elements, key))
  {
    FilteredIdsDistinct(RecordOf(key), elements);
    NoneTwicePermutes(IdsOf(Filtered(RecordOf(key), elements)), LevelIds(elements, key));
  }

  /** With element ids unique, as the model's own index by id takes them, every storey agrees with its query. */
  lemma StoreysAgreeWithQueries(lower: string -> string, elements: seq<Element>, storeys: seq<Storey>, s: Storey)
    requires UniqueIds(elements) && AreStoreys(elements, storeys) && s in storeys
    ensures s.modelElements == PageOf(lower, elements, StoreyQuery(LevelSet(s.levelIds))).total
  {
    LevelIdsDistinct(elements, KeyOf(s));
    StoreyAgreesWithQuery(lower, elements, s);
  }

  // ----- level sets are disjoint -----

  lemma LevelIsRecord(elements: seq<Element>, key: Key, id: nat) returns (e: Element)
    requires id in LevelIds(elements, key)
    ensures e in elements && RecordOf(key)(e) && e.id == id
  {
    var ids := IdsOf(Filtered(RecordOf(key), elements));
    assert id in multiset(LevelIds(elements, key)) && id in multiset(ids);
    var i :| 0 <= i < |ids| && ids[i] == id;
    e := Filtered(RecordOf(key), elements)[i];
  }

  lemma RecordIsLevel(elements: seq<Element>, key: Key, e: Element)
    requires e in elements && RecordOf(key)(e)
    ensures e.id in LevelIds(elements, key)
  {
    var found := Filtered(RecordOf(key), elements);
    assert e in found;
    var i :| 0 <= i < |found| && found[i] == e;
    assert IdsOf(found)[i] == e.id && e.id in multiset(IdsOf(found)) && e.id in multiset(LevelIds(elements, key));
  }

  lemma SameIdSameElement(elements: seq<Element>, a: Element, b: Element)
    requires UniqueIds(elements) && a in elements && b in elements && a.id == b.id
    ensures a == b
  {
    var i :| 0 <= i < |elements| && elements[i] == a;
    var j :| 0 <= j < |elements| && elements[j] == b;
    assert i == j;
  }

  /** No level record is folded into two storeys. */
  lemma LevelSetsAreDisjoint(elements: seq<Element>, a: Key, b: Key, id: nat)
    requires UniqueIds(elements) && id in LevelIds(elements, a) && id in LevelIds(elements, b)
    ensures a == b
  {
    var e := LevelIsRecord(elements, a, id);
    var f := LevelIsRecord(elements, b, id);
    SameIdSameElement(elements, e, f);
  }

  // ----- the storeys are determined -----

  lemma BelowIsTotal(s: Storey, t: Storey)
    requires KeyOf(s) != KeyOf(t)
    ensures Below(s, t) != Below(t, s)
  {
    NameLessIsTotal(s.name, t.name);
    if TotalOrder(s.elevation) == TotalOrder(t.elevation) {
      OrderIsExact(s.elevation, t.elevation);
    }
  }

  lemma NeverBelowItself(s: Storey)
    ensures !Below(s, s)
  {
    NameLessIsTotal(s.name, s.name);
  }

  ghost predicate SameStoreys(a: seq<Storey>, b: seq<Storey>) {
    (forall s :: s in a ==> s in b) && (forall s :: s in b ==> s in a)
  }

  lemma SomethingIn(storeys: seq<Storey>)
    requires storeys != []
    ensures exists s :: s in storeys
  {
    assert storeys[0] in storeys;
  }

  /** The last of a rising list is above every other, and no other is above it. */
  lemma LastIsHighest(storeys: seq<Storey>, s: Storey)
    requires Rising(storeys) && s in storeys && s != storeys[|storeys| - 1]
    ensures Below(s, storeys[|storeys| - 1])
  {
  }

  lemma LastIsNotEarlier(storeys: seq<Storey>, s: Storey)
    requires Rising(storeys) && storeys != []
    ensures s in storeys[..|storeys| - 1] <==> s in storeys && s != storeys[|storeys| - 1]
  {
    NeverBelowItself(storeys[|storeys| - 1]);
  }

  /** Two rising lists of the same storeys are the same list. */
  lemma {:induction false} RisingIsDetermined(a: seq<Storey>, b: seq<Storey>)
    requires Rising(a) && Rising(b) && SameStoreys(a, b) && DistinctKeys(a)
    ensures a == b
  {
    hide Below, KeyOf, Rising;
    if a == [] {
      if b != [] {
        SomethingIn(b);
      }
    } else {
      var (m, n) := (|a| - 1, |b| - 1);
      assert a[m] in b;
      assert b[n] in a;
      if a[m] != b[n] {
        LastIsHighest(a, b[n]);
        LastIsHighest(b, a[m]);
        DifferentKeys(a, a[m], b[n]);
        BelowIsTotal(a[m], b[n]);
      }
      forall s ensures s in a[..m] <==> s in b[..n] {
        LastIsNotEarlier(a, s);
        LastIsNotEarlier(b, s);
      }
      FrontRises(a);
      FrontRises(b);
      RisingIsDetermined(a[..m], b[..n]);
      assert a == a[..m] + [a[m]] && b == b[..n] + [b[n]];
    }
  }

  lemma DifferentKeys(storeys: seq<Storey>, s: Storey, t: Storey)
    requires DistinctKeys(storeys) && s in storeys && t in storeys && s != t
    ensures KeyOf(s) != KeyOf(t)
  {
  }

  lemma FrontRises(storeys: seq<Storey>)
    requires Rising(storeys) && storeys != []
    ensures Rising(storeys[..|storeys| - 1])
  {
  }

  lemma FoldsAgree(elements: seq<Element>, a: seq<Storey>, b: seq<Storey>, s: Storey) returns (t: Storey)
    requires AreStoreys(elements, a) && AreStoreys(elements, b) && s in a
    ensures t in b && KeyOf(t) == KeyOf(s)
    ensures t == s.(ambiguousName := t.ambiguousName)
  {
    hide Standing, RoomsAt, LevelIds, Rising;
    assert IsStoreyOf(elements, s);
    assert HasStorey(b, KeyOf(s));
    t :| t in b && KeyOf(t) == KeyOf(s);
    assert IsStoreyOf(elements, t);
  }

  /** The order, ties included, and every field are determined: a model has one list of storeys. */
  lemma StoreysAreDetermined(elements: seq<Element>, a: seq<Storey>, b: seq<Storey>)
    requires AreStoreys(elements, a) && AreStoreys(elements, b)
    ensures a == b
  {
    hide IsStoreyOf, Standing, Rising, KeyOf;
    forall s | s in a ensures s in b {
      SameMark(elements, a, b, s);
    }
    forall s | s in b ensures s in a {
      SameMark(elements, b, a, s);
    }
    RisingIsDetermined(a, b);
  }

  lemma SameMark(elements: seq<Element>, a: seq<Storey>, b: seq<Storey>, s: Storey)
    requires AreStoreys(elements, a) && AreStoreys(elements, b) && s in a
    ensures s in b
  {
    hide IsStoreyOf, Standing, Rising;
    var t := FoldsAgree(elements, a, b, s);
    if NamedTwice(a, s) {
      var u :| u in a && u.name == s.name && u.elevation != s.elevation;
      var v := FoldsAgree(elements, a, b, u);
      assert NamedTwice(b, t);
    }
    if NamedTwice(b, t) {
      var u :| u in b && u.name == t.name && u.elevation != t.elevation;
      var v := FoldsAgree(elements, b, a, u);
      assert NamedTwice(a, s);
    }
  }

  // ----- every model element is accounted for -----

  /** The ids of the records that any storey could be folded from. */
  function ElevatedLevels(elements: seq<Element>): set<int> {
    set e | e in elements && IsLevel(e) && e.elevation.Some? :: e.id
  }

  function TotalStanding(storeys: seq<Storey>): nat {
    if storeys == [] then 0 else TotalStanding(storeys[..|storeys| - 1]) + storeys[|storeys| - 1].modelElements
  }

  function LevelsOf(storeys: seq<Storey>): set<int> {
    set s, id | s in storeys && id in s.levelIds :: id
  }

  function WithoutLevel(): Element -> bool {
    (e: Element) => IsModelElement(e) && e.levelId.None?
  }

  /** On a level id that names no level record with an elevation. */
  function OffLevels(levels: set<int>): Element -> bool {
    (e: Element) => IsModelElement(e) && e.levelId.Some? && e.levelId.value !in levels
  }

  ghost predicate FoldedApart(elements: seq<Element>, storeys: seq<Storey>) {
    && (forall s :: s in storeys ==> IsStoreyOf(elements, s))
    && DistinctKeys(storeys)
  }

  lemma {:induction false} TotalStandingCounts(elements: seq<Element>, storeys: seq<Storey>)
    requires UniqueIds(elements) && FoldedApart(elements, storeys)
    ensures TotalStanding(storeys) == Count(OnLevels(LevelsOf(storeys)), elements)
  {
    hide Standing, RoomsAt;
    if storeys == [] {
      NothingFiltered(OnLevels(LevelsOf(storeys)), elements);
    } else {
      var (front, last) := (storeys[..|storeys| - 1], storeys[|storeys| - 1]);
      assert storeys == front + [last];
      TotalStandingCounts(elements, front);
      LastCounts(elements, last);
      forall id | id in LevelSet(last.levelIds) ensures id !in LevelsOf(front) {
        if id in LevelsOf(front) {
          var s :| s in front && id in s.levelIds;
          assert KeyOf(s) != KeyOf(last);
          LevelSetsAreDisjoint(elements, KeyOf(s), KeyOf(last), id);
        }
      }
      assert LevelsOf(storeys) == LevelsOf(front) + LevelSet(last.levelIds);
      CountSplits(OnLevels(LevelsOf(storeys)), OnLevels(LevelsOf(front)), OnLevels(LevelSet(last.levelIds)), elements);
    }
  }

  lemma LastCounts(elements: seq<Element>, s: Storey)
    requires UniqueIds(elements) && IsStoreyOf(elements, s)
    ensures s.modelElements == Count(OnLevels(LevelSet(s.levelIds)), elements)
  {
    LevelIdsDistinct(elements, KeyOf(s));
    SumAtCounts(s.levelIds, elements);
  }

  /** An element standing on an elevated level record stands in a storey. */
  lemma StandsInAStorey(elements: seq<Element>, storeys: seq<Storey>, e: Element)
    requires UniqueIds(elements) && AreStoreys(elements, storeys) && e in elements
    requires OnLevels(ElevatedLevels(elements))(e)
    ensures e.levelId.value in LevelsOf(storeys)
  {
    var record :| record in elements && IsLevel(record) && record.elevation.Some? && record.id == e.levelId.value;
    var key := Key(record.name, record.elevation.value);
    RecordIsLevel(elements, key, record);
    var ids := LevelIds(elements, key);
    LevelIdsDistinct(elements, key);
    SumAtCounts(ids, elements);
    assert OnLevels(LevelSet(ids))(e) && e in Filtered(OnLevels(LevelSet(ids)), elements);
    assert Standing(elements, key) > 0 && HasStorey(storeys, key);
    var s :| s in storeys && KeyOf(s) == key;
    assert IsStoreyOf(elements, s);
  }

  lemma StoreyLevelsAreElevated(elements: seq<Element>, storeys: seq<Storey>, id: int)
    requires FoldedApart(elements, storeys) && id in LevelsOf(storeys)
    ensures id in ElevatedLevels(elements)
  {
    var s :| s in storeys && id in s.levelIds;
    assert IsStoreyOf(elements, s);
    var e := LevelIsRecord(elements, KeyOf(s), id);
  }

  /**
   Summed over the storeys, with those on no level and those on an id that names no elevated level,
   the counts come to every model element of the model.
   */
  lemma EveryModelElementIsCounted(elements: seq<Element>, storeys: seq<Storey>)
    requires UniqueIds(elements) && AreStoreys(elements, storeys)
    ensures TotalStanding(storeys) + Count(WithoutLevel(), elements)
          + Count(OffLevels(ElevatedLevels(elements)), elements)
         == Count(IsModelElement, elements)
  {
    hide Standing, IsStoreyOf, HasStorey, IsModelElement;
    var (elevated, here) := (ElevatedLevels(elements), LevelsOf(storeys));
    TotalStandingCounts(elements, storeys);
    forall e | e in elements ensures OnLevels(here)(e) <==> OnLevels(elevated)(e) {
      if OnLevels(elevated)(e) {
        StandsInAStorey(elements, storeys, e);
      }
      if OnLevels(here)(e) {
        StoreyLevelsAreElevated(elements, storeys, e.levelId.value);
      }
    }
    FilteredAgree(OnLevels(here), OnLevels(elevated), elements);
    var placed := (e: Element) => IsModelElement(e) && e.levelId.Some?;
    CountSplits(placed, OnLevels(elevated), OffLevels(elevated), elements);
    CountSplits(IsModelElement, placed, WithoutLevel(), elements);
  }

  /** The two counts of a summary about levels; with the storeys' they leave only what stands on no elevated level. */
  method SummaryCounts(elements: seq<Element>) returns (modelElements: nat, withoutLevel: nat)
    ensures modelElements == Count(IsModelElement, elements) && withoutLevel == Count(WithoutLevel(), elements)
    ensures forall storeys | UniqueIds(elements) && AreStoreys(elements, storeys) ::
              modelElements - withoutLevel
              == TotalStanding(storeys) + Count(OffLevels(ElevatedLevels(elements)), elements)
  {
    hide IsModelElement, AreStoreys, UniqueIds, TotalStanding;
    modelElements, withoutLevel := 0, 0;
    for i := 0 to |elements|
      invariant modelElements == Count(IsModelElement, elements[..i])
      invariant withoutLevel == Count(WithoutLevel(), elements[..i])
    {
      assert elements[..i + 1][..i] == elements[..i];
      modelElements := modelElements + if IsModelElement(elements[i]) then 1 else 0;
      withoutLevel := withoutLevel + if IsModelElement(elements[i]) && elements[i].levelId.None? then 1 else 0;
    }
    assert elements[..|elements|] == elements;
    forall storeys | UniqueIds(elements) && AreStoreys(elements, storeys)
      ensures modelElements - withoutLevel
           == TotalStanding(storeys) + Count(OffLevels(ElevatedLevels(elements)), elements)
    {
      EveryModelElementIsCounted(elements, storeys);
    }
  }

  // ----- naming a storey -----

  /** The level records of the storey an id names, if there is one. */
  function StoreyLevelIds(storeys: seq<Storey>, id: nat): Option<set<int>> {
    if storeys == [] then None
    else if storeys[0].id == id then Some(LevelSet(storeys[0].levelIds))
    else StoreyLevelIds(storeys[1..], id)
  }

  lemma {:induction false} StoreyLevelIdsOf(storeys: seq<Storey>, id: nat) returns (k: nat)
    ensures StoreyLevelIds(storeys, id).None? <==> forall s :: s in storeys ==> s.id != id
    ensures StoreyLevelIds(storeys, id).Some? ==>
              k < |storeys| && storeys[k].id == id && StoreyLevelIds(storeys, id).value == LevelSet(storeys[k].levelIds)
  {
    k := 0;
    if storeys != [] && storeys[0].id != id {
      var j := StoreyLevelIdsOf(storeys[1..], id);
      k := j + 1;
    }
  }

  /** A storey's id names that storey and no other, and the query it opens is the storey's own. */
  lemma StoreyIsNamedByItsId(lower: string -> string, elements: seq<Element>, storeys: seq<Storey>, s: Storey)
    requires UniqueIds(elements) && AreStoreys(elements, storeys) && s in storeys
    ensures StoreyLevelIds(storeys, s.id) == Some(LevelSet(s.levelIds))
    ensures PageOf(lower, elements, StoreyQuery(StoreyLevelIds(storeys, s.id).value)).total == s.modelElements
  {
    var k := StoreyLevelIdsOf(storeys, s.id);
    StoreysAgreeWithQueries(lower, elements, storeys, s);
    var t := storeys[k];
    assert IsStoreyOf(elements, s) && IsStoreyOf(elements, t);
    LevelSetsAreDisjoint(elements, KeyOf(s), KeyOf(t), s.id);
    assert KeyOf(s) == KeyOf(t) && s.levelIds == t.levelIds;
  }

  // ----- from the ground up -----

  /** Lower by the number its elevation stands for; at one height those without a name first. */
  ghost predicate StandsBelow(s: Storey, t: Storey) {
    || IsBelow(s.elevation, t.elevation)
    || (s.elevation == t.elevation && t.name.Some? && (s.name.None? || ComesBefore(s.name.value, t.name.value)))
  }

  /** The storeys of a model come from the lowest up. */
  lemma StoreysRiseByHeight(elements: seq<Element>, storeys: seq<Storey>, i: nat, j: nat)
    requires AreStoreys(elements, storeys) && i < j < |storeys|
    requires IsFinite(storeys[i].elevation) && IsFinite(storeys[j].elevation)
    ensures StandsBelow(storeys[i], storeys[j]) && Value(storeys[i].elevation) <= Value(storeys[j].elevation)
  {
    hide TotalOrder, Value, IsFinite;
    assert Below(storeys[i], storeys[j]);
    OrderIsOfNumbers(storeys[i].elevation, storeys[j].elevation);
    if storeys[i].name.Some? && storeys[j].name.Some? {
      TextLessIs(storeys[i].name.value, storeys[j].name.value);
    }
  }

  // ----- what a storey shows -----

  lemma RoomsAreRooms(elements: seq<Element>)
    ensures IsByLevel(RoomOn, IsRoom)
  {
  }

  /** Ascending, with nothing twice. */
  ghost predicate Ascends(ids: seq<nat>) {
    forall i, j :: 0 <= i < j < |ids| ==> ids[i] < ids[j]
  }

  lemma AscendsTo(front: seq<nat>, last: nat)
    requires Ascends(front) && forall x :: x in front ==> x < last
    ensures Ascends(front + [last])
  {
    var ids := front + [last];
    forall i, j | 0 <= i < j < |ids| ensures ids[i] < ids[j] {
      assert ids[i] == front[i] && front[i] in front;
    }
  }

  lemma InsertedIn(sorted: seq<nat>, x: nat, y: nat)
    ensures y in Insert(sorted, x, BySize()) <==> y in sorted || y == x
  {
    var r := Insert(sorted, x, BySize());
    assert y in r <==> y in multiset(r);
    assert y in sorted <==> y in multiset(sorted);
  }

  lemma {:induction false} InsertedAscends(sorted: seq<nat>, x: nat)
    requires Ascends(sorted) && x !in sorted
    ensures Ascends(Insert(sorted, x, BySize()))
  {
    if sorted != [] {
      var (front, last) := (sorted[..|sorted| - 1], sorted[|sorted| - 1]);
      if last > x {
        InsertedAscends(front, x);
        assert forall y :: y in front ==> y < last;
        assert Ascends(front);
        var grown: seq<nat> := Insert<nat>(front, x, BySize());
        forall y: nat | y in grown ensures y < last {
          InsertedIn(front, x, y);
        }
        AscendsTo(grown, last);
      } else {
        AscendsTo(sorted, x);
      }
    }
  }

  lemma {:induction false} SortedAscends(ids: seq<nat>)
    requires NoneTwice(ids)
    ensures Ascends(Sort(ids, BySize()))
  {
    if ids != [] {
      var (front, last) := (ids[..|ids| - 1], ids[|ids| - 1]);
      SortedAscends(front);
      assert last !in front;
      assert last in Sort(front, BySize()) ==> last in multiset(Sort(front, BySize()));
      InsertedAscends(Sort(front, BySize()), last);
    }
  }

  function RoomsOn(levels: set<int>): Element -> bool {
    (e: Element) => e.levelId.Some? && e.levelId.value in levels && e.kind == Some("RoomElem")
  }

  /** A level record of the storey's name and elevation. */
  predicate IsRecordOf(s: Storey, e: Element) {
    e.kind == Some("Level") && e.name == s.name && e.elevation == Some(s.elevation)
  }

  /** A storey shows its level records and no others, in ascending order, and takes the least of their ids. */
  lemma StoreyShowsItsRecords(elements: seq<Element>, storeys: seq<Storey>, s: Storey)
    requires UniqueIds(elements) && AreStoreys(elements, storeys) && s in storeys
    ensures forall id: nat :: id in s.levelIds <==> exists e :: e in elements && IsRecordOf(s, e) && e.id == id
    ensures Ascends(s.levelIds) && s.id in s.levelIds && forall id :: id in s.levelIds ==> s.id <= id
  {
    hide NoneTwice, Sort, Standing, RoomsAt, UniqueIds;
    var key := KeyOf(s);
    IdsOfStorey(elements, storeys, s);
    FilteredIdsDistinct(RecordOf(key), elements);
    SortedAscends(IdsOf(Filtered(RecordOf(key), elements)));
    LevelIdsAre(elements, key);
    hide LevelIds;
    FirstIsLeast(s.levelIds);
    forall id: nat ensures id in s.levelIds <==> exists e :: e in elements && IsRecordOf(s, e) && e.id == id {
      RecordWithId(elements, s, id);
    }
  }

  lemma IdsOfStorey(elements: seq<Element>, storeys: seq<Storey>, s: Storey)
    requires AreStoreys(elements, storeys) && s in storeys
    ensures s.levelIds == LevelIds(elements, KeyOf(s)) != [] && s.id == s.levelIds[0]
    ensures s.modelElements == Standing(elements, KeyOf(s)) && s.rooms == RoomsAt(elements, KeyOf(s))
  {
    assert IsStoreyOf(elements, s);
  }

  lemma FirstIsLeast(ids: seq<nat>)
    requires Ascends(ids) && ids != []
    ensures forall id :: id in ids ==> ids[0] <= id
  {
  }

  lemma RecordWithId(elements: seq<Element>, s: Storey, id: nat)
    ensures id in LevelIds(elements, KeyOf(s)) <==> exists e :: e in elements && IsRecordOf(s, e) && e.id == id
  {
    hide LevelIds;
    if id in LevelIds(elements, KeyOf(s)) {
      var e := LevelIsRecord(elements, KeyOf(s), id);
      assert IsRecordOf(s, e);
    }
    if e :| e in elements && IsRecordOf(s, e) && e.id == id {
      RecordIsLevel(elements, KeyOf(s), e);
    }
  }

  /** And it counts the model elements and the rooms that are on any of them. */
  lemma StoreyCountsWhatIsThere(elements: seq<Element>, storeys: seq<Storey>, s: Storey)
    requires UniqueIds(elements) && AreStoreys(elements, storeys) && s in storeys
    ensures s.modelElements == Count(OfKindOn(LevelSet(s.levelIds), IsModelElement), elements)
    ensures s.rooms == Count(RoomsOn(LevelSet(s.levelIds)), elements)
  {
    hide IsModelElement, NoneTwice, Sort, LevelIds, Filtered, UniqueIds, SumAt;
    IdsOfStorey(elements, storeys, s);
    LevelIdsDistinct(elements, KeyOf(s));
    RoomsAreRooms(elements);
    NoRepeats(s.levelIds, CountsOf(StandsOn, elements));
    NoRepeats(s.levelIds, CountsOf(RoomOn, elements));
    SumAtCountsOf(s.levelIds, RoomOn, IsRoom, elements);
    SumAtCountsOf(s.levelIds, StandsOn, IsModelElement, elements);
    FilteredAgree(OfKindOn(LevelSet(s.levelIds), IsRoom), RoomsOn(LevelSet(s.levelIds)), elements);
    StandingIs(elements, KeyOf(s));
  }

  lemma StandingIs(elements: seq<Element>, key: Key)
    ensures Standing(elements, key) == SumAt(LevelIds(elements, key), CountsOf(StandsOn, elements))
    ensures RoomsAt(elements, key) == SumAt(LevelIds(elements, key), CountsOf(RoomOn, elements))
  {
  }

  lemma LevelIdsAre(elements: seq<Element>, key: Key)
    ensures LevelIds(elements, key) == Sort(IdsOf(Filtered(RecordOf(key), elements)), BySize())
  {
  }

  lemma NoRepeats(ids: seq<nat>, count: int -> nat)
    requires NoneTwice(ids)
    ensures RepeatsAreEmpty(ids, count)
  {
  }
}
