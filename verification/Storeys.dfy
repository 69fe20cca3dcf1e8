/** The storeys of a model: every level record sharing a name and an elevation, folded into one place. */
module Storeys {
  import opened Options
  import opened StableSort
  import opened ModelStore
  import opened NameOrder
  import opened Doubles

  datatype Key = Key(name: Option<string>, elevation: nat)

  datatype Storey = Storey(
    id: nat,
    name: Option<string>,
    elevation: nat,
    levelIds: seq<nat>,
    ambiguousName: bool,
    modelElements: nat,
    rooms: nat)

  // ----- the folding, as functions of the elements -----

  function RecordOf(key: Key): Element -> bool {
    (e: Element) => IsLevel(e) && e.elevation.Some? && Key(e.name, e.elevation.value) == key
  }

  function IdsOf(records: seq<Element>): (r: seq<nat>)
    ensures |r| == |records| && forall i :: 0 <= i < |r| ==> r[i] == records[i].id
  {
    seq(|records|, i requires 0 <= i < |records| => records[i].id)
  }

  function BySize(): nat -> real {
    (n: nat) => n as real
  }

  /** The record ids of a storey, ascending. */
  function LevelIds(elements: seq<Element>, key: Key): (r: seq<nat>)
    ensures multiset(r) == multiset(IdsOf(Filtered(RecordOf(key), elements)))
  {
    Sort(IdsOf(Filtered(RecordOf(key), elements)), BySize())
  }

  function StandsOn(level: int): Element -> bool {
    (e: Element) => e.levelId == Some(level) && IsModelElement(e)
  }

  function RoomOn(level: int): Element -> bool {
    (e: Element) => e.levelId == Some(level) && !IsModelElement(e) && IsRoom(e)
  }

  /** What a table of counts by level sums to over some record ids, each time one is listed. */
  function SumAt(ids: seq<nat>, count: int -> nat): nat {
    if ids == [] then 0 else SumAt(ids[..|ids| - 1], count) + count(ids[|ids| - 1])
  }

  function CountsOf(on: int -> (Element -> bool), elements: seq<Element>): int -> nat {
    (level: int) => Count(on(level), elements)
  }

  function Standing(elements: seq<Element>, key: Key): nat {
    SumAt(LevelIds(elements, key), CountsOf(StandsOn, elements))
  }

  function RoomsAt(elements: seq<Element>, key: Key): nat {
    SumAt(LevelIds(elements, key), CountsOf(RoomOn, elements))
  }

  function ByElevation(): Storey -> real {
    (s: Storey) => TotalOrder(s.elevation)
  }

  function KeyOf(s: Storey): Key {
    Key(s.name, s.elevation)
  }

  function SameName(storeys: seq<Storey>, name: Option<string>): nat {
    if storeys == [] then 0
    else SameName(storeys[..|storeys| - 1], name) + if storeys[|storeys| - 1].name == name then 1 else 0
  }

  /** A storey folded from its records. */
  ghost predicate IsStoreyOf(elements: seq<Element>, s: Storey) {
    var ids := LevelIds(elements, KeyOf(s));
    && ids != [] && s.id == ids[0] && s.levelIds == ids
    && s.modelElements == Standing(elements, KeyOf(s)) > 0
    && s.rooms == RoomsAt(elements, KeyOf(s))
  }

  ghost predicate DistinctKeys(storeys: seq<Storey>) {
    forall i, j :: 0 <= i < j < |storeys| ==> KeyOf(storeys[i]) != KeyOf(storeys[j])
  }

  ghost predicate HasStorey(storeys: seq<Storey>, key: Key) {
    exists s :: s in storeys && KeyOf(s) == key
  }

  /** Another storey carries the name at a different elevation. */
  ghost predicate NamedTwice(storeys: seq<Storey>, s: Storey) {
    exists t :: t in storeys && t.name == s.name && t.elevation != s.elevation
  }

  /** From the lowest elevation up, and by name where two share one. */
  predicate Below(s: Storey, t: Storey) {
    || TotalOrder(s.elevation) < TotalOrder(t.elevation)
    || (s.elevation == t.elevation && NameLess(s.name, t.name))
  }

  ghost predicate Rising(storeys: seq<Storey>) {
    forall i, j :: 0 <= i < j < |storeys| ==> Below(storeys[i], storeys[j])
  }

  /** The storeys of a model: one for each name and elevation something stands at, from the lowest up. */
  ghost predicate AreStoreys(elements: seq<Element>, storeys: seq<Storey>) {
    && (forall s :: s in storeys ==> IsStoreyOf(elements, s))
    && DistinctKeys(storeys)
    && (forall key :: Standing(elements, key) > 0 ==> HasStorey(storeys, key))
    && Rising(storeys)
    && (forall s :: s in storeys ==> (s.ambiguousName <==> NamedTwice(storeys, s)))
  }

  // ----- the order of the keys -----

  predicate KeyLess(a: Key, b: Key) {
    NameLess(a.name, b.name) || (a.name == b.name && a.elevation < b.elevation)
  }

  lemma KeyLessIsTotal(a: Key, b: Key)
    ensures if KeyLess(a, b) then a != b && !KeyLess(b, a) else a == b || KeyLess(b, a)
  {
    NameLessIsTotal(a.name, b.name);
  }

  lemma KeyLessIsTransitive(a: Key, b: Key, c: Key)
    requires KeyLess(a, b) && KeyLess(b, c)
    ensures KeyLess(a, c)
  {
    if NameLess(a.name, b.name) && NameLess(b.name, c.name) {
      NameLessIsTransitive(a.name, b.name, c.name);
    }
  }

  predicate IsLeast(key: Key, keys: set<Key>) {
    key in keys && forall other :: other in keys && other != key ==> KeyLess(key, other)
  }

  lemma {:induction false} LeastExists(keys: set<Key>)
    requires keys != {}
    ensures exists key :: IsLeast(key, keys)
  {
    hide KeyLess;
    var x :| x in keys;
    var rest := keys - {x};
    if rest == {} {
      assert keys == {x};
      assert IsLeast(x, keys);
    } else {
      LeastExists(rest);
      var y :| IsLeast(y, rest);
      KeyLessIsTotal(x, y);
      if KeyLess(x, y) {
        forall other | other in keys && other != x ensures KeyLess(x, other) {
          if other != y {
            KeyLessIsTransitive(x, y, other);
          }
        }
        assert IsLeast(x, keys);
      } else {
        assert IsLeast(y, keys);
      }
    }
  }

  // ----- the loops -----

  /** The table folds the elements: a row for each key that has records, holding them in order. */
  ghost predicate Folds(folded: map<Key, seq<Element>>, elements: seq<Element>) {
    forall key :: if key in folded then folded[key] == Filtered(RecordOf(key), elements) != []
                  else Filtered(RecordOf(key), elements) == []
  }

  lemma FoldNext(folded: map<Key, seq<Element>>, elements: seq<Element>, e: Element)
    requires Folds(folded, elements)
    ensures !(IsLevel(e) && e.elevation.Some?) ==> Folds(folded, elements + [e])
    ensures IsLevel(e) && e.elevation.Some? ==>
              var key := Key(e.name, e.elevation.value);
              Folds(folded[key := (if key in folded then folded[key] else []) + [e]], elements + [e])
  {
    hide Filtered, IsLevel;
    forall key ensures Filtered(RecordOf(key), elements + [e])
                    == Filtered(RecordOf(key), elements) + if RecordOf(key)(e) then [e] else []
    {
      FilteredSnoc(RecordOf(key), elements, e);
    }
  }

  method FoldLevels(elements: seq<Element>) returns (folded: map<Key, seq<Element>>)
    ensures Folds(folded, elements)
  {
    folded := map[];
    var i := 0;
    while i < |elements|
      invariant 0 <= i <= |elements|
      invariant Folds(folded, elements[..i])
    {
      hide Folds;
      var e := elements[i];
      FoldNext(folded, elements[..i], e);
      assert elements[..i] + [e] == elements[..i + 1];
      if IsLevel(e) && e.elevation.Some? {
        var key := Key(e.name, e.elevation.value);
        folded := folded[key := (if key in folded then folded[key] else []) + [e]];
      }
      i := i + 1;
    }
    assert elements[..i] == elements;
  }

  function Row(counts: map<int, nat>, level: int): nat {
    if level in counts then counts[level] else 0
  }

  /** The table counts by level: its row is the number of elements on it. */
  ghost predicate Tallies(counts: map<int, nat>, on: int -> (Element -> bool), elements: seq<Element>) {
    forall level :: Row(counts, level) == Count(on(level), elements)
  }

  function Tallied(counts: map<int, nat>, at: Option<int>): map<int, nat> {
    if at.None? then counts else counts[at.value := Row(counts, at.value) + 1]
  }

  lemma TallyNext(counts: map<int, nat>, on: int -> (Element -> bool), elements: seq<Element>, e: Element,
      at: Option<int>)
    requires Tallies(counts, on, elements)
    requires forall level :: on(level)(e) <==> at == Some(level)
    ensures Tallies(Tallied(counts, at), on, elements + [e])
  {
    assert (elements + [e])[..|elements|] == elements;
  }

  /** The level at which each of the two tables counts an element. */
  function ModelAt(e: Element): Option<int> {
    if e.levelId.Some? && IsModelElement(e) then e.levelId else None
  }

  function RoomAt(e: Element): Option<int> {
    if e.levelId.Some? && !IsModelElement(e) && IsRoom(e) then e.levelId else None
  }

  lemma TallyBoth(models: map<int, nat>, rooms: map<int, nat>, elements: seq<Element>, e: Element)
    requires Tallies(models, StandsOn, elements) && Tallies(rooms, RoomOn, elements)
    ensures Tallies(Tallied(models, ModelAt(e)), StandsOn, elements + [e])
    ensures Tallies(Tallied(rooms, RoomAt(e)), RoomOn, elements + [e])
  {
    TallyNext(models, StandsOn, elements, e, ModelAt(e));
    TallyNext(rooms, RoomOn, elements, e, RoomAt(e));
  }

  lemma NothingTallied()
    ensures Tallies(map[], StandsOn, []) && Tallies(map[], RoomOn, [])
  {
  }

  method TallyLevels(elements: seq<Element>) returns (models: map<int, nat>, rooms: map<int, nat>)
    ensures Tallies(models, StandsOn, elements) && Tallies(rooms, RoomOn, elements)
  {
    NothingTallied();
    hide Tallies, IsModelElement, IsRoom, StandsOn, RoomOn;
    models, rooms := map[], map[];
    var i := 0;
    assert elements[..0] == [];
    while i < |elements|
      invariant 0 <= i <= |elements|
      invariant Tallies(models, StandsOn, elements[..i]) && Tallies(rooms, RoomOn, elements[..i])
    {
      var e := elements[i];
      TallyBoth(models, rooms, elements[..i], e);
      assert elements[..i] + [e] == elements[..i + 1];
      i := i + 1;
      if e.levelId.None? {
        continue;
      }
      var level := e.levelId.value;
      if IsModelElement(e) {
        models := models[level := Row(models, level) + 1];
      } else if IsRoom(e) {
        rooms := rooms[level := Row(rooms, level) + 1];
      }
    }
    assert elements[..i] == elements;
  }

  method SumRows(ids: seq<nat>, counts: map<int, nat>, ghost on: int -> (Element -> bool), ghost elements: seq<Element>)
    returns (sum: nat)
    requires Tallies(counts, on, elements)
    ensures sum == SumAt(ids, CountsOf(on, elements))
  {
    sum := 0;
    var i := 0;
    while i < |ids|
      invariant 0 <= i <= |ids|
      invariant sum == SumAt(ids[..i], CountsOf(on, elements))
    {
      assert ids[..i + 1][..i] == ids[..i];
      sum := sum + Row(counts, ids[i]);
      i := i + 1;
    }
    assert ids[..i] == ids;
  }

  ghost predicate KeysAscend(storeys: seq<Storey>) {
    forall i, j :: 0 <= i < j < |storeys| ==> KeyLess(KeyOf(storeys[i]), KeyOf(storeys[j]))
  }

  lemma AscendingIsDistinct(storeys: seq<Storey>)
    requires KeysAscend(storeys)
    ensures DistinctKeys(storeys)
  {
    forall i, j | 0 <= i < j < |storeys| ensures KeyOf(storeys[i]) != KeyOf(storeys[j]) {
      KeyLessIsTotal(KeyOf(storeys[i]), KeyOf(storeys[j]));
    }
  }

  /** The storeys pushed so far are those of the keys seen, in the order of the table. */
  ghost predicate Pushed(elements: seq<Element>, storeys: seq<Storey>, left: set<Key>,
      names: map<Option<string>, nat>) {
    && (forall s :: s in storeys ==> IsStoreyOf(elements, s) && KeyOf(s) !in left)
    && KeysAscend(storeys) && (forall s, key :: s in storeys && key in left ==> KeyLess(KeyOf(s), key))
    && (forall key :: Standing(elements, key) > 0 ==> HasStorey(storeys, key) || key in left)
    && (forall name :: (if name in names then names[name] else 0) == SameName(storeys, name))
  }

  lemma NothingPushed(elements: seq<Element>, folded: map<Key, seq<Element>>)
    requires Folds(folded, elements)
    ensures Pushed(elements, [], folded.Keys, map[])
  {
    forall key | Standing(elements, key) > 0 ensures key in folded {
      assert Filtered(RecordOf(key), elements) == [] ==> IdsOf(Filtered(RecordOf(key), elements)) == [];
    }
  }

  lemma PushSkips(elements: seq<Element>, storeys: seq<Storey>, left: set<Key>, names: map<Option<string>, nat>,
      key: Key)
    requires Pushed(elements, storeys, left, names) && Standing(elements, key) == 0
    ensures Pushed(elements, storeys, left - {key}, names)
  {
  }

  lemma PushNext(elements: seq<Element>, storeys: seq<Storey>, left: set<Key>, names: map<Option<string>, nat>,
      s: Storey)
    requires Pushed(elements, storeys, left, names) && IsLeast(KeyOf(s), left) && IsStoreyOf(elements, s)
    ensures var name := s.name;
            Pushed(elements, storeys + [s], left - {KeyOf(s)},
                   names[name := (if name in names then names[name] else 0) + 1])
  {
    hide IsStoreyOf, Standing, KeyLess;
    var more := storeys + [s];
    assert more[..|storeys|] == storeys;
    forall key | Standing(elements, key) > 0 ensures HasStorey(more, key) || key in left - {KeyOf(s)} {
      if HasStorey(storeys, key) {
        var t :| t in storeys && KeyOf(t) == key;
        assert t in more;
      } else if key == KeyOf(s) {
        assert s in more;
      }
    }
    forall i, j | 0 <= i < j < |more| ensures KeyLess(KeyOf(more[i]), KeyOf(more[j])) {
      assert more[i] in storeys;
    }
  }

  function Marked(storeys: seq<Storey>, names: map<Option<string>, nat>): (r: seq<Storey>)
    ensures |r| == |storeys|
    ensures forall i :: 0 <= i < |r| ==>
              r[i] == storeys[i].(ambiguousName := storeys[i].name in names && names[storeys[i].name] > 1)
  {
    seq(|storeys|, i requires 0 <= i < |storeys| =>
      storeys[i].(ambiguousName := storeys[i].name in names && names[storeys[i].name] > 1))
  }

  lemma RowIsLevelIds(elements: seq<Element>, folded: map<Key, seq<Element>>, key: Key)
    requires Folds(folded, elements) && key in folded
    ensures Sort(IdsOf(folded[key]), BySize()) == LevelIds(elements, key) != []
  {
    assert folded[key] == Filtered(RecordOf(key), elements);
    assert IdsOf(folded[key])[0] in multiset(LevelIds(elements, key));
  }

  lemma SumsAreTheStoreys(elements: seq<Element>, key: Key)
    ensures SumAt(LevelIds(elements, key), CountsOf(StandsOn, elements)) == Standing(elements, key)
    ensures SumAt(LevelIds(elements, key), CountsOf(RoomOn, elements)) == RoomsAt(elements, key)
  {
  }

  lemma StoreyOfKey(elements: seq<Element>, key: Key, s: Storey)
    requires LevelIds(elements, key) != [] && Standing(elements, key) > 0
    requires s == Storey(LevelIds(elements, key)[0], key.name, key.elevation, LevelIds(elements, key), false,
                         Standing(elements, key), RoomsAt(elements, key))
    ensures KeyOf(s) == key && IsStoreyOf(elements, s)
  {
  }

  /** The storeys of a model, by the rule that a level nothing stands on is no storey. */
  method ComputeStoreys(elements: seq<Element>) returns (storeys: seq<Storey>)
    ensures AreStoreys(elements, storeys)
  {
    hide Pushed, Tallies, KeyLess, IsStoreyOf, Standing, RoomsAt, LevelIds, IdsOf, BySize, Sort, SumAt, Filtered,
         Folds, AreStoreys, Marked, ByElevation, CountsOf, StandsOn, RoomOn, RecordOf;
    var folded := FoldLevels(elements);
    var models, rooms := TallyLevels(elements);
    var names: map<Option<string>, nat> := map[];
    storeys := [];
    var left := folded.Keys;
    NothingPushed(elements, folded);
    while left != {}
      invariant left <= folded.Keys
      invariant Pushed(elements, storeys, left, names)
      decreases left
    {
      LeastExists(left);
      var key :| key in left && IsLeast(key, left);
      var levelIds := Sort(IdsOf(folded[key]), BySize());
      RowIsLevelIds(elements, folded, key);
      var standing := SumRows(levelIds, models, StandsOn, elements);
      var roomsHere := SumRows(levelIds, rooms, RoomOn, elements);
      SumsAreTheStoreys(elements, key);
      if standing == 0 {
        PushSkips(elements, storeys, left, names, key);
      } else {
        var s := Storey(levelIds[0], key.name, key.elevation, levelIds, false, standing, roomsHere);
        StoreyOfKey(elements, key, s);
        PushNext(elements, storeys, left, names, s);
        names := names[key.name := (if key.name in names then names[key.name] else 0) + 1];
        storeys := storeys + [s];
      }
      left := left - {key};
    }
    MarkedAreStoreys(elements, storeys, names);
    storeys := Sort(Marked(storeys, names), ByElevation());
  }

  lemma {:induction false} SameNameSome(storeys: seq<Storey>, name: Option<string>)
    ensures SameName(storeys, name) == 0 <==> forall s :: s in storeys ==> s.name != name
  {
    if storeys != [] {
      SameNameSome(storeys[..|storeys| - 1], name);
      assert storeys == storeys[..|storeys| - 1] + [storeys[|storeys| - 1]];
    }
  }

  /** A name counted more than once is that of two storeys, at different elevations. */
  lemma {:induction false} SameNameTwice(storeys: seq<Storey>, name: Option<string>)
    requires DistinctKeys(storeys)
    ensures SameName(storeys, name) > 1
       <==> exists s, t :: s in storeys && t in storeys && s.name == t.name == name && s.elevation != t.elevation
  {
    if storeys != [] {
      var (front, last) := (storeys[..|storeys| - 1], storeys[|storeys| - 1]);
      SameNameTwice(front, name);
      SameNameSome(front, name);
      assert storeys == front + [last];
      if last.name == name {
        forall s | s in front && s.name == name ensures s.elevation != last.elevation {
          assert KeyOf(s) != KeyOf(last);
        }
      }
    }
  }

  lemma NamesMark(storeys: seq<Storey>, names: map<Option<string>, nat>, s: Storey)
    requires DistinctKeys(storeys) && s in storeys
    requires forall name :: (if name in names then names[name] else 0) == SameName(storeys, name)
    ensures (s.name in names && names[s.name] > 1) <==> NamedTwice(storeys, s)
  {
    SameNameTwice(storeys, s.name);
    if SameName(storeys, s.name) > 1 {
      var a, b :| a in storeys && b in storeys && a.name == b.name == s.name && a.elevation != b.elevation;
      assert a.elevation != s.elevation || b.elevation != s.elevation;
    }
  }

  lemma MarkedAreStoreys(elements: seq<Element>, storeys: seq<Storey>, names: map<Option<string>, nat>)
    requires Pushed(elements, storeys, {}, names)
    ensures AreStoreys(elements, Sort(Marked(storeys, names), ByElevation()))
  {
    hide IsStoreyOf, Standing, TotalOrder, Sort, Marked, KeyLess, HasStorey, NamedTwice, DistinctKeys, Rising;
    var (marked, sorted) := (Marked(storeys, names), Sort(Marked(storeys, names), ByElevation()));
    SamePermuted(marked, sorted);
    forall s | s in marked ensures IsStoreyOf(elements, s) && (s.ambiguousName <==> NamedTwice(marked, s)) {
      MarkedIsStorey(elements, storeys, names, s);
    }
    forall key | Standing(elements, key) > 0 ensures HasStorey(marked, key) {
      MarkedHasStorey(storeys, names, key);
    }
    MarkedAscend(storeys, names);
    NoneTwicePermutes(marked, sorted);
    DistinctKeysPermute(marked, sorted);
    SortedRises(marked);
    PermutedAreStoreys(elements, marked, sorted);
  }

  lemma SamePermuted(a: seq<Storey>, b: seq<Storey>)
    requires multiset(a) == multiset(b)
    ensures forall s :: s in a <==> s in b
  {
    forall s ensures s in a <==> s in b {
      assert s in a <==> s in multiset(a);
    }
  }

  lemma MarkedHasStorey(storeys: seq<Storey>, names: map<Option<string>, nat>, key: Key)
    requires HasStorey(storeys, key)
    ensures HasStorey(Marked(storeys, names), key)
  {
    hide Marked;
    var s :| s in storeys && KeyOf(s) == key;
    var i :| 0 <= i < |storeys| && storeys[i] == s;
    assert Marked(storeys, names)[i] in Marked(storeys, names);
  }

  /** All but the order of the storeys is a matter of which they are. */
  lemma PermutedAreStoreys(elements: seq<Element>, marked: seq<Storey>, sorted: seq<Storey>)
    requires forall s :: s in marked <==> s in sorted
    requires forall s :: s in marked ==> IsStoreyOf(elements, s) && (s.ambiguousName <==> NamedTwice(marked, s))
    requires forall key :: Standing(elements, key) > 0 ==> HasStorey(marked, key)
    requires DistinctKeys(sorted) && Rising(sorted)
    ensures AreStoreys(elements, sorted)
  {
    hide IsStoreyOf, Standing, Rising, DistinctKeys;
    forall s ensures NamedTwice(marked, s) <==> NamedTwice(sorted, s) {
    }
    forall key ensures HasStorey(marked, key) <==> HasStorey(sorted, key) {
    }
  }

  lemma MarkedIsStorey(elements: seq<Element>, storeys: seq<Storey>, names: map<Option<string>, nat>, s: Storey)
    requires Pushed(elements, storeys, {}, names) && s in Marked(storeys, names)
    ensures IsStoreyOf(elements, s) && (s.ambiguousName <==> NamedTwice(Marked(storeys, names), s))
  {
    hide IsStoreyOf, Standing, Marked, KeyLess;
    var i :| 0 <= i < |storeys| && Marked(storeys, names)[i] == s;
    AscendingIsDistinct(storeys);
    MarkIsNoChange(elements, storeys[i], s.ambiguousName);
    NamesMark(storeys, names, storeys[i]);
    NamedTwiceMarked(storeys, names, s);
  }

  lemma MarkedAscend(storeys: seq<Storey>, names: map<Option<string>, nat>)
    requires KeysAscend(storeys)
    ensures KeysAscend(Marked(storeys, names)) && NoneTwice(Marked(storeys, names))
        && DistinctKeys(Marked(storeys, names))
  {
    hide KeyLess, Marked;
    AscendingIsDistinct(storeys);
  }

  function PlaceIn(storeys: seq<Storey>, s: Storey): nat {
    if storeys == [] || storeys[|storeys| - 1] == s then |storeys| else PlaceIn(storeys[..|storeys| - 1], s)
  }

  lemma {:induction false} PlaceInIs(storeys: seq<Storey>, i: nat)
    requires i < |storeys| && NoneTwice(storeys)
    ensures PlaceIn(storeys, storeys[i]) == i + 1
  {
    var n := |storeys| - 1;
    if i < n {
      PlaceInIs(storeys[..n], i);
    }
  }

  /** The stable sort of storeys in the order of the table breaks a tie of elevations by name. */
  lemma SortedRises(storeys: seq<Storey>)
    requires KeysAscend(storeys)
    ensures Rising(Sort(storeys, ByElevation()))
  {
    hide Sort, KeyLess, TotalOrder, PlaceIn, NameLess;
    var (sorted, place) := (Sort(storeys, ByElevation()), (s: Storey) => PlaceIn(storeys, s));
    AscendingIsDistinct(storeys);
    forall i | 0 <= i < |storeys| ensures place(storeys[i]) == i + 1 {
      PlaceInIs(storeys, i);
    }
    SortOrdered(storeys, ByElevation(), place);
    forall i, j | 0 <= i < j < |sorted| ensures Below(sorted[i], sorted[j]) {
      assert sorted[i] in multiset(sorted) && sorted[j] in multiset(sorted);
      var p :| 0 <= p < |storeys| && storeys[p] == sorted[i];
      var q :| 0 <= q < |storeys| && storeys[q] == sorted[j];
      if TotalOrder(sorted[i].elevation) == TotalOrder(sorted[j].elevation) {
        OrderIsExact(sorted[i].elevation, sorted[j].elevation);
        assert place(storeys[p]) < place(storeys[q]);
        SameElevation(KeyOf(storeys[p]), KeyOf(storeys[q]));
      }
    }
  }

  lemma SameElevation(a: Key, b: Key)
    requires KeyLess(a, b) && a.elevation == b.elevation
    ensures NameLess(a.name, b.name)
  {
  }

  lemma NamedTwiceMarked(storeys: seq<Storey>, names: map<Option<string>, nat>, s: Storey)
    ensures NamedTwice(Marked(storeys, names), s) <==> NamedTwice(storeys, s)
  {
    var marked := Marked(storeys, names);
    if NamedTwice(storeys, s) {
      var t :| t in storeys && t.name == s.name && t.elevation != s.elevation;
      var i :| 0 <= i < |storeys| && storeys[i] == t;
      assert marked[i] in marked;
    }
  }

  lemma DistinctKeysPermute(a: seq<Storey>, b: seq<Storey>)
    requires DistinctKeys(a) && NoneTwice(b) && forall s :: s in b ==> s in a
    ensures DistinctKeys(b)
  {
    forall i, j | 0 <= i < j < |b| ensures KeyOf(b[i]) != KeyOf(b[j]) {
      assert b[i] in a && b[j] in a;
      var p :| 0 <= p < |a| && a[p] == b[i];
      var q :| 0 <= q < |a| && a[q] == b[j];
    }
  }

  lemma MarkIsNoChange(elements: seq<Element>, s: Storey, ambiguous: bool)
    requires IsStoreyOf(elements, s)
    ensures IsStoreyOf(elements, s.(ambiguousName := ambiguous)) && KeyOf(s.(ambiguousName := ambiguous)) == KeyOf(s)
  {
  }
}
