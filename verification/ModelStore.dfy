/** The queryable side of a loaded model: filtered pages, and the storeys folded out of its level records. */
module ModelStore {
  import opened Options
  import opened StableSort

  /** What the filters and the folding look at. An elevation is kept as the bits of its double. */
  datatype Element = Element(
    id: nat,
    kind: Option<string>,
    name: Option<string>,
    category: Option<string>,
    levelId: Option<int>,
    levelName: Option<string>,
    inAView: bool,
    phased: bool,
    elevation: Option<nat>,
    hasGeometry: bool,
    haystack: string)

  const BUILDING_CLASSES: seq<string> :=
    ["SWall", "Floor", "StairsLanding", "StairsRun", "StairsElement", "ProfileRoof", "FamilyInstance"]

  predicate IsModelElement(e: Element) {
    e.kind.Some? && e.kind.value in BUILDING_CLASSES && !e.inAView && e.phased && e.category.None?
  }

  predicate IsRoom(e: Element) {
    e.kind == Some("RoomElem")
  }

  predicate IsLevel(e: Element) {
    e.kind == Some("Level")
  }

  // ----- filters -----

  datatype Query = Query(
    kind: Option<string>,
    category: Option<string>,
    level: Option<string>,
    levelIds: Option<set<int>>,
    name: Option<string>,
    text: Option<string>,
    modelElementsOnly: bool,
    withGeometry: bool,
    offset: nat,
    limit: nat)

  function AsciiLower(s: string): string {
    seq(|s|, i requires 0 <= i < |s| => if 'A' <= s[i] <= 'Z' then (s[i] as int + 32) as char else s[i])
  }

  predicate EqualField(field: Option<string>, wanted: Option<string>) {
    wanted.None? || (field.Some? && AsciiLower(field.value) == AsciiLower(wanted.value))
  }

  predicate IsAt(text: string, part: string, i: nat)
    requires i + |part| <= |text|
  {
    text[i..i + |part|] == part
  }

  predicate HasWithin(text: string, part: string) {
    exists i :: 0 <= i <= |text| - |part| && IsAt(text, part, i)
  }

  /** `lower` is the full lower-casing of text, whatever it does. */
  predicate Matches(lower: string -> string, e: Element, q: Query) {
    && EqualField(e.kind, q.kind)
    && EqualField(e.category, q.category)
    && EqualField(e.levelName, q.level)
    && (q.levelIds.None? || (e.levelId.Some? && e.levelId.value in q.levelIds.value))
    && (q.name.None? || (e.name.Some? && HasWithin(lower(e.name.value), lower(q.name.value))))
    && (q.text.None? || HasWithin(e.haystack, lower(q.text.value)))
    && (q.withGeometry ==> e.hasGeometry)
  }

  function Filtered(p: Element -> bool, elements: seq<Element>): (r: seq<Element>)
    ensures forall e :: e in r <==> e in elements && p(e)
    ensures |r| <= |elements|
  {
    if elements == [] then []
    else
      var (front, last) := (elements[..|elements| - 1], elements[|elements| - 1]);
      assert elements == front + [last];
      Filtered(p, front) + if p(last) then [last] else []
  }

  lemma FilteredSnoc(p: Element -> bool, elements: seq<Element>, e: Element)
    ensures Filtered(p, elements + [e]) == Filtered(p, elements) + if p(e) then [e] else []
  {
    assert (elements + [e])[..|elements|] == elements;
  }

  lemma FilteredNothing(p: Element -> bool)
    ensures Filtered(p, []) == []
  {
  }

  function Count(p: Element -> bool, elements: seq<Element>): nat {
    |Filtered(p, elements)|
  }

  /** The filter as the caller means it. */
  function Wanted(lower: string -> string, q: Query): Element -> bool {
    (e: Element) => Matches(lower, e, q) && (q.modelElementsOnly ==> IsModelElement(e))
  }

  /** Dropped by the model-element flag alone. */
  function Excluded(lower: string -> string, q: Query): Element -> bool {
    (e: Element) => Matches(lower, e, q) && q.modelElementsOnly && !IsModelElement(e)
  }

  datatype Page = Page(elements: seq<Element>, total: nat, excluded: nat)

  function Least(a: nat, b: nat): nat {
    if a <= b then a else b
  }

  function Slice(s: seq<Element>, offset: nat, limit: nat): seq<Element> {
    s[Least(offset, |s|)..Least(offset + limit, |s|)]
  }

  function PageOf(lower: string -> string, elements: seq<Element>, q: Query): Page {
    var found := Filtered(Wanted(lower, q), elements);
    Page(Slice(found, q.offset, q.limit), |found|, Count(Excluded(lower, q), elements))
  }

  lemma SliceGrows(found: seq<Element>, e: Element, offset: nat, limit: nat)
    ensures Slice(found + [e], offset, limit)
         == Slice(found, offset, limit) + if offset <= |found| < offset + limit then [e] else []
    ensures offset <= |found| ==> (|Slice(found, offset, limit)| < limit <==> |found| < offset + limit)
  {
  }

  lemma SliceOfNothing(offset: nat, limit: nat)
    ensures Slice([], offset, limit) == []
  {
  }

  /** A page of matches, how many matched in total, and how many the flag alone removed. */
  method RunQuery(lower: string -> string, elements: seq<Element>, q: Query) returns (page: Page)
    ensures page == PageOf(lower, elements, q)
  {
    hide Matches, IsModelElement, Slice, Filtered;
    var (total, excluded) := (0, 0);
    FilteredNothing(Wanted(lower, q));
    FilteredNothing(Excluded(lower, q));
    var shown: seq<Element> := [];
    ghost var found: seq<Element> := [];
    SliceOfNothing(q.offset, q.limit);
    var index := 0;
    while index < |elements|
      invariant 0 <= index <= |elements|
      invariant found == Filtered(Wanted(lower, q), elements[..index])
      invariant total == |found| && excluded == Count(Excluded(lower, q), elements[..index])
      invariant shown == Slice(found, q.offset, q.limit)
    {
      var e := elements[index];
      assert elements[..index + 1] == elements[..index] + [e];
      FilteredSnoc(Wanted(lower, q), elements[..index], e);
      FilteredSnoc(Excluded(lower, q), elements[..index], e);
      index := index + 1;
      if !Matches(lower, e, q) {
        continue;
      }
      if q.modelElementsOnly && !IsModelElement(e) {
        excluded := excluded + 1;
        continue;
      }
      SliceGrows(found, e, q.offset, q.limit);
      found := found + [e];
      total := total + 1;
      if total > q.offset && |shown| < q.limit {
        shown := shown + [e];
      }
    }
    assert elements[..index] == elements;
    page := Page(shown, total, excluded);
  }

  // ----- what each filter asks for -----

  /** A query that asks for nothing in particular, and for all of it. */
  function AnyOf(elements: seq<Element>): Query {
    Query(None, None, None, None, None, None, false, false, 0, |elements|)
  }

  /** The same text but for the case of the letters A to Z. */
  ghost predicate SameButForCase(a: string, b: string) {
    && |a| == |b|
    && forall i :: 0 <= i < |a| ==>
         || a[i] == b[i]
         || ('A' <= a[i] <= 'Z' && b[i] as int == a[i] as int + 32)
         || ('A' <= b[i] <= 'Z' && a[i] as int == b[i] as int + 32)
  }

  ghost predicate IsTold(field: Option<string>, wanted: string) {
    field.Some? && SameButForCase(field.value, wanted)
  }

  ghost predicate Contains(text: string, part: string) {
    exists front: string, back: string :: text == front + part + back
  }

  lemma EqualFieldIsTold(field: Option<string>, wanted: string)
    ensures EqualField(field, Some(wanted)) <==> IsTold(field, wanted)
  {
    if field.Some? {
      var (a, b) := (field.value, wanted);
      if AsciiLower(a) == AsciiLower(b) {
        assert |a| == |AsciiLower(a)| == |b|;
        forall i | 0 <= i < |a|
          ensures a[i] == b[i] || ('A' <= a[i] <= 'Z' && b[i] as int == a[i] as int + 32)
                  || ('A' <= b[i] <= 'Z' && a[i] as int == b[i] as int + 32)
        {
          assert AsciiLower(a)[i] == AsciiLower(b)[i];
        }
      }
    }
  }

  lemma WithinIsContained(text: string, part: string)
    ensures HasWithin(text, part) <==> Contains(text, part)
  {
    if HasWithin(text, part) {
      var i :| 0 <= i <= |text| - |part| && IsAt(text, part, i);
      assert text == text[..i] + part + text[i + |part|..];
    }
    if Contains(text, part) {
      var front, back :| text == front + part + back;
      assert IsAt(text, part, |front|);
    }
  }

  ghost predicate Returns(lower: string -> string, elements: seq<Element>, q: Query, e: Element) {
    e in PageOf(lower, elements, q).elements
  }

  lemma AllOnOnePage(lower: string -> string, elements: seq<Element>, q: Query, e: Element)
    requires q.offset == 0 && q.limit >= |elements|
    ensures Returns(lower, elements, q, e)
       <==> e in elements && Matches(lower, e, q) && (q.modelElementsOnly ==> IsModelElement(e))
  {
    hide Matches, IsModelElement;
    var found := Filtered(Wanted(lower, q), elements);
    assert PageOf(lower, elements, q).elements == found;
    assert e in found <==> e in elements && Wanted(lower, q)(e);
  }

  ghost predicate IsBuildingClass(kind: string) {
    || kind == "SWall" || kind == "Floor" || kind == "ProfileRoof" || kind == "FamilyInstance"
    || kind == "StairsLanding" || kind == "StairsRun" || kind == "StairsElement"
  }

  lemma ModelElementsAre(e: Element)
    ensures IsModelElement(e)
       <==> e.kind.Some? && IsBuildingClass(e.kind.value) && !e.inAView && e.phased && e.category == None
  {
    if e.kind.Some? && IsBuildingClass(e.kind.value) {
      ClassesAre(e.kind.value);
    }
  }

  lemma ClassesAre(kind: string)
    ensures kind in BUILDING_CLASSES <==> IsBuildingClass(kind)
  {
    var all := BUILDING_CLASSES;
    assert all[0] == "SWall" && all[1] == "Floor" && all[2] == "StairsLanding" && all[3] == "StairsRun";
    assert all[4] == "StairsElement" && all[5] == "ProfileRoof" && all[6] == "FamilyInstance";
  }

  /** Which elements a query with one filter returns, filter by filter. */
  lemma EachFilterAlone(lower: string -> string, elements: seq<Element>, e: Element, wanted: string, ids: set<int>)
    requires e in elements
    ensures var any := AnyOf(elements);
            && (Returns(lower, elements, any, e))
            && (Returns(lower, elements, any.(kind := Some(wanted)), e) <==> IsTold(e.kind, wanted))
            && (Returns(lower, elements, any.(category := Some(wanted)), e) <==> IsTold(e.category, wanted))
            && (Returns(lower, elements, any.(level := Some(wanted)), e) <==> IsTold(e.levelName, wanted))
            && (Returns(lower, elements, any.(levelIds := Some(ids)), e)
                <==> e.levelId.Some? && e.levelId.value in ids)
            && (Returns(lower, elements, any.(name := Some(wanted)), e)
                <==> e.name.Some? && Contains(lower(e.name.value), lower(wanted)))
            && (Returns(lower, elements, any.(text := Some(wanted)), e) <==> Contains(e.haystack, lower(wanted)))
            && (Returns(lower, elements, any.(withGeometry := true), e) <==> e.hasGeometry)
            && (Returns(lower, elements, any.(modelElementsOnly := true), e)
                <==> e.kind.Some? && IsBuildingClass(e.kind.value) && !e.inAView && e.phased && e.category == None)
  {
    hide PageOf, Returns, IsModelElement, EqualField, HasWithin, IsTold, Contains, IsBuildingClass;
    var any := AnyOf(elements);
    ModelElementsAre(e);
    EqualFieldIsTold(e.kind, wanted);
    EqualFieldIsTold(e.category, wanted);
    EqualFieldIsTold(e.levelName, wanted);
    if e.name.Some? {
      WithinIsContained(lower(e.name.value), lower(wanted));
    }
    WithinIsContained(e.haystack, lower(wanted));
    NoField(e);
    AllOnOnePage(lower, elements, any, e);
    AllOnOnePage(lower, elements, any.(kind := Some(wanted)), e);
    AllOnOnePage(lower, elements, any.(category := Some(wanted)), e);
    AllOnOnePage(lower, elements, any.(level := Some(wanted)), e);
    AllOnOnePage(lower, elements, any.(levelIds := Some(ids)), e);
    AllOnOnePage(lower, elements, any.(name := Some(wanted)), e);
    AllOnOnePage(lower, elements, any.(text := Some(wanted)), e);
    AllOnOnePage(lower, elements, any.(withGeometry := true), e);
    AllOnOnePage(lower, elements, any.(modelElementsOnly := true), e);
  }

  lemma NoField(e: Element)
    ensures EqualField(e.kind, None) && EqualField(e.category, None) && EqualField(e.levelName, None)
  {
  }

  /** The query with only one of its filters. */
  function OnlyFilter(q: Query, elements: seq<Element>, i: nat): Query {
    var any := AnyOf(elements);
    if i == 0 then any.(kind := q.kind)
    else if i == 1 then any.(category := q.category)
    else if i == 2 then any.(level := q.level)
    else if i == 3 then any.(levelIds := q.levelIds)
    else if i == 4 then any.(name := q.name)
    else if i == 5 then any.(text := q.text)
    else if i == 6 then any.(withGeometry := q.withGeometry)
    else any.(modelElementsOnly := q.modelElementsOnly)
  }

  /** The element passes the query's filter of that number, with the query's other filters left out. */
  ghost predicate PassesFilter(lower: string -> string, elements: seq<Element>, q: Query, i: nat, e: Element) {
    Wanted(lower, OnlyFilter(q, elements, i))(e)
  }

  /** And a query with several filters returns what each of them alone returns. */
  lemma FiltersCombine(lower: string -> string, elements: seq<Element>, q: Query, e: Element)
    requires q.offset == 0 && q.limit >= |elements| && e in elements
    ensures Returns(lower, elements, q, e)
       <==> forall i: nat :: i < 8 ==> Returns(lower, elements, OnlyFilter(q, elements, i), e)
  {
    hide PageOf, Returns, IsModelElement, Matches;
    AllOnOnePage(lower, elements, q, e);
    forall i: nat | i < 8
      ensures Returns(lower, elements, OnlyFilter(q, elements, i), e) <==> PassesFilter(lower, elements, q, i, e)
    {
      AllOnOnePage(lower, elements, OnlyFilter(q, elements, i), e);
    }
    AllOfThem(lower, elements, q, e);
  }

  lemma AllOfThem(lower: string -> string, elements: seq<Element>, q: Query, e: Element)
    ensures Wanted(lower, q)(e) <==> forall i: nat :: i < 8 ==> PassesFilter(lower, elements, q, i, e)
  {
    hide IsModelElement, EqualField, HasWithin;
    NoField(e);
    if forall i: nat :: i < 8 ==> PassesFilter(lower, elements, q, i, e) {
      assert PassesFilter(lower, elements, q, 0, e) && PassesFilter(lower, elements, q, 1, e);
      assert PassesFilter(lower, elements, q, 2, e) && PassesFilter(lower, elements, q, 3, e);
      assert PassesFilter(lower, elements, q, 4, e) && PassesFilter(lower, elements, q, 5, e);
      assert PassesFilter(lower, elements, q, 6, e) && PassesFilter(lower, elements, q, 7, e);
    }
  }

  // ----- paging -----

  /** The pages at offsets 0, limit, 2 limit, ... end to end. */
  function Pages(lower: string -> string, elements: seq<Element>, q: Query, n: nat): seq<Element> {
    if n == 0 then []
    else Pages(lower, elements, q, n - 1) + PageOf(lower, elements, q.(offset := (n - 1) * q.limit)).elements
  }

  lemma OffsetIsNoFilter(lower: string -> string, elements: seq<Element>, q: Query, offset: nat)
    ensures Filtered(Wanted(lower, q.(offset := offset)), elements) == Filtered(Wanted(lower, q), elements)
    ensures Count(Excluded(lower, q.(offset := offset)), elements) == Count(Excluded(lower, q), elements)
  {
    FilteredAgree(Wanted(lower, q.(offset := offset)), Wanted(lower, q), elements);
    FilteredAgree(Excluded(lower, q.(offset := offset)), Excluded(lower, q), elements);
  }

  lemma {:induction false} FilteredAgree(p: Element -> bool, r: Element -> bool, elements: seq<Element>)
    requires forall e :: e in elements ==> (p(e) <==> r(e))
    ensures Filtered(p, elements) == Filtered(r, elements)
  {
    if elements != [] {
      FilteredAgree(p, r, elements[..|elements| - 1]);
    }
  }

  lemma {:induction false} PagesSoFar(lower: string -> string, elements: seq<Element>, q: Query, n: nat)
    ensures var found := Filtered(Wanted(lower, q), elements);
            Pages(lower, elements, q, n) == found[..Least(n * q.limit, |found|)]
  {
    hide Filtered, Wanted, Slice;
    var found := Filtered(Wanted(lower, q), elements);
    if n > 0 {
      var offset := (n - 1) * q.limit;
      PagesSoFar(lower, elements, q, n - 1);
      OffsetIsNoFilter(lower, elements, q, offset);
      PagesAdjoin(found, offset, q.limit);
      assert n * q.limit == offset + q.limit;
    }
  }

  lemma PagesAdjoin(found: seq<Element>, offset: nat, limit: nat)
    ensures found[..Least(offset, |found|)] + Slice(found, offset, limit) == found[..Least(offset + limit, |found|)]
  {
  }

  /** Element i of a page is match offset + i, and the page is full unless the matches run out. */
  lemma PageHolds(lower: string -> string, elements: seq<Element>, q: Query, i: nat)
    ensures var (page, found) := (PageOf(lower, elements, q), Filtered(Wanted(lower, q), elements));
            && (i < |page.elements| <==> i < q.limit && q.offset + i < page.total)
            && page.total == |found|
            && (i < |page.elements| ==> q.offset + i < |found| && page.elements[i] == found[q.offset + i])
  {
    hide Filtered, Wanted, Excluded;
  }

  /** Paging loses nothing and repeats nothing: enough pages, end to end, are the filtered elements in order. */
  lemma PagingIsLossless(lower: string -> string, elements: seq<Element>, q: Query, n: nat)
    requires n * q.limit >= |Filtered(Wanted(lower, q), elements)|
    ensures Pages(lower, elements, q, n) == Filtered(Wanted(lower, q), elements)
    ensures forall offset: nat :: PageOf(lower, elements, q.(offset := offset)).total == |Pages(lower, elements, q, n)|
  {
    PagesSoFar(lower, elements, q, n);
    forall offset: nat
      ensures PageOf(lower, elements, q.(offset := offset)).total == |Filtered(Wanted(lower, q), elements)|
    {
      OffsetIsNoFilter(lower, elements, q, offset);
    }
  }

  lemma {:induction false} CountSplits(p: Element -> bool, a: Element -> bool, b: Element -> bool,
      elements: seq<Element>)
    requires forall e :: e in elements ==> (p(e) <==> a(e) || b(e)) && !(a(e) && b(e))
    ensures Count(p, elements) == Count(a, elements) + Count(b, elements)
  {
    if elements != [] {
      CountSplits(p, a, b, elements[..|elements| - 1]);
    }
  }

  /** What the flag keeps and what it drops are together what matches without it. */
  lemma FlagAccountsForAll(lower: string -> string, elements: seq<Element>, q: Query)
    ensures var page := PageOf(lower, elements, q);
            page.total + page.excluded == PageOf(lower, elements, q.(modelElementsOnly := false)).total
  {
    CountSplits(Wanted(lower, q.(modelElementsOnly := false)), Wanted(lower, q), Excluded(lower, q), elements);
  }
}
