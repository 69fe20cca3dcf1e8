/** Naming the documents of one federated model: apps/groma-cli/src/source.rs. */
module DocumentIds {
  import opened Numerals

  const NAME_LIMIT: nat := 48

  predicate IsAsciiAlphanumeric(c: char) {
    '0' <= c <= '9' || 'A' <= c <= 'Z' || 'a' <= c <= 'z'
  }

  /** `wide` classifies the characters outside ASCII; every answer it could give is covered. */
  predicate IsAlphanumeric(wide: char -> bool, c: char) {
    if c < 128 as char then IsAsciiAlphanumeric(c) else wide(c)
  }

  predicate IsNameChar(wide: char -> bool, c: char) {
    IsAlphanumeric(wide, c) || c == '-' || c == '_'
  }

  ghost predicate IsName(wide: char -> bool, s: string) {
    forall c | c in s :: IsNameChar(wide, c)
  }

  function Replaced(wide: char -> bool, stem: string): (r: string)
    ensures |r| == |stem|
    ensures forall i | 0 <= i < |stem| :: r[i] == if IsNameChar(wide, stem[i]) then stem[i] else '_'
  {
    seq(|stem|, i requires 0 <= i < |stem| => if IsNameChar(wide, stem[i]) then stem[i] else '_')
  }

  function TrimmedLeft(s: string): (r: string)
    ensures r == [] || r[0] != '_'
    ensures exists k | 0 <= k <= |s| :: r == s[k..] && forall i | 0 <= i < k :: s[i] == '_'
  {
    if s != [] && s[0] == '_' then
      var r := TrimmedLeft(s[1..]);
      assert exists k | 0 <= k <= |s| :: r == s[k..] && forall i | 0 <= i < k :: s[i] == '_' by {
        var k :| 0 <= k <= |s[1..]| && r == s[1..][k..] && forall i | 0 <= i < k :: s[1..][i] == '_';
        assert r == s[k + 1..];
        assert forall i | 0 < i < k + 1 :: s[i] == s[1..][i - 1];
      }
      r
    else
      assert s == s[0..];
      s
  }

  function TrimmedRight(s: string): (r: string)
    ensures r == [] || r[|r| - 1] != '_'
    ensures r <= s && forall i | |r| <= i < |s| :: s[i] == '_'
  {
    if s != [] && s[|s| - 1] == '_' then TrimmedRight(s[..|s| - 1]) else s
  }

  function Trimmed(s: string): string {
    TrimmedRight(TrimmedLeft(s))
  }

  function Base(wide: char -> bool, stem: string): string {
    var named := Replaced(wide, stem);
    var short := Trimmed(if |named| <= NAME_LIMIT then named else named[..NAME_LIMIT]);
    if short == "" then "source" else short
  }

  /** The `k`th name tried: the base itself, then base-2, base-3 and so on. */
  function Candidate(base: string, k: nat): string {
    if k == 0 then base else base + "-" + Decimal(k + 1)
  }

  ghost predicate FirstFree(base: string, taken: set<string>, k: nat) {
    && Candidate(base, k) !in taken
    && forall j | 0 <= j < k :: Candidate(base, j) in taken
  }

  /** The base is a non-empty name of at most 48 characters with no underscore at either end. */
  lemma BaseIsAName(wide: char -> bool, stem: string)
    ensures var base := Base(wide, stem);
      && 0 < |base| <= NAME_LIMIT && IsName(wide, base)
      && base[0] != '_' && base[|base| - 1] != '_'
  {
    var named := Replaced(wide, stem);
    var cut := if |named| <= NAME_LIMIT then named else named[..NAME_LIMIT];
    forall c | c in cut ensures IsNameChar(wide, c) {
      assert c in named;
    }
    TrimmedKeeps(wide, cut);
  }

  lemma TrimmedKeeps(wide: char -> bool, s: string)
    requires IsName(wide, s)
    ensures IsName(wide, Trimmed(s)) && |Trimmed(s)| <= |s|
    ensures Trimmed(s) == "" || (Trimmed(s)[0] != '_' && Trimmed(s)[|Trimmed(s)| - 1] != '_')
  {
    var left := TrimmedLeft(s);
    var k :| 0 <= k <= |s| && left == s[k..];
    assert Trimmed(s) <= left;
  }

  /** Nothing but underscores from one place up to another. */
  ghost predicate IsBlank(s: string, from: nat, to: nat) {
    forall k :: from <= k < to && k < |s| ==> s[k] == '_'
  }

  /** Letters, digits, hyphens and underscores, and what else counts as a letter or digit outside ASCII. */
  ghost predicate MayStay(wide: char -> bool, c: char) {
    || c == '-' || c == '_'
    || '0' <= c <= '9' || 'A' <= c <= 'Z' || 'a' <= c <= 'z'
    || (c as int > 127 && wide(c))
  }

  /** The first 48 characters of a stem, with an underscore for each that may not stay. */
  ghost predicate IsShownAs(wide: char -> bool, stem: string, shown: string) {
    && |shown| == (if |stem| < 48 then |stem| else 48)
    && forall i | 0 <= i < |shown| :: shown[i] == if MayStay(wide, stem[i]) then stem[i] else '_'
  }

  lemma NameCharsMayStay(wide: char -> bool, c: char)
    ensures IsNameChar(wide, c) <==> MayStay(wide, c)
  {
  }

  /** `part` is what `s` is from i up to j, and neither starts nor ends with an underscore. */
  ghost predicate IsStretch(s: string, part: string, i: nat, j: nat) {
    i < j <= |s| && part == s[i..j] && s[i] != '_' && s[j - 1] != '_'
  }

  /** `part` is what `s` is without the underscores at its two ends, of which there is something left. */
  ghost predicate IsCoreOf(s: string, part: string) {
    exists i: nat, j: nat :: IsStretch(s, part, i, j) && IsBlank(s, 0, i) && IsBlank(s, j, |s|)
  }

  lemma TrimmedPlaces(s: string) returns (i: nat, j: nat)
    ensures i <= j <= |s| && Trimmed(s) == s[i..j] && IsBlank(s, 0, i) && IsBlank(s, j, |s|)
    ensures i < j ==> s[i] != '_' && s[j - 1] != '_'
  {
    hide TrimmedLeft, TrimmedRight, IsBlank;
    i := LeftEnd(s);
    RightEnd(s, i, TrimmedLeft(s));
    j := i + |TrimmedRight(TrimmedLeft(s))|;
  }

  lemma {:induction false} LeftEnd(s: string) returns (i: nat)
    ensures i <= |s| && TrimmedLeft(s) == s[i..] && IsBlank(s, 0, i)
    ensures TrimmedLeft(s) == "" || TrimmedLeft(s)[0] != '_'
  {
    if s != [] && s[0] == '_' {
      var k := LeftEnd(s[1..]);
      i := k + 1;
      forall j | 0 < j < i ensures s[j] == '_' {
        assert s[j] == s[1..][j - 1];
      }
    } else {
      i := 0;
    }
  }

  lemma RightEnd(s: string, i: nat, left: string)
    requires i <= |s| && left == s[i..] && (left == "" || left[0] != '_')
    ensures var (part, j) := (TrimmedRight(left), i + |TrimmedRight(left)|);
      j <= |s| && part == s[i..j] && IsBlank(s, j, |s|) && (i < j ==> s[i] != '_' && s[j - 1] != '_')
  {
    var part := TrimmedRight(left);
    assert part == left[..|part|];
    forall k | i + |part| <= k < |s| ensures s[k] == '_' {
      assert s[k] == left[k - i];
    }
  }

  lemma TrimmedIsCore(s: string)
    ensures if IsBlank(s, 0, |s|) then Trimmed(s) == "" else IsCoreOf(s, Trimmed(s))
  {
    hide Trimmed;
    var i, j := TrimmedPlaces(s);
    if i < j {
      assert IsStretch(s, Trimmed(s), i, j);
    }
  }

  lemma OneStretch(s: string, i: nat, j: nat, k: nat, l: nat)
    requires i < j <= |s| && k < l <= |s| && s[i] != '_' && s[k] != '_' && s[j - 1] != '_' && s[l - 1] != '_'
    requires IsBlank(s, 0, i) && IsBlank(s, j, |s|) && IsBlank(s, 0, k) && IsBlank(s, l, |s|)
    ensures i == k && j == l
  {
  }

  /** There is one such part. */
  lemma OneCore(s: string, a: string, b: string)
    requires IsCoreOf(s, a) && IsCoreOf(s, b)
    ensures a == b
  {
    hide IsBlank;
    var i: nat, j: nat :| IsStretch(s, a, i, j) && IsBlank(s, 0, i) && IsBlank(s, j, |s|);
    var k: nat, l: nat :| IsStretch(s, b, k, l) && IsBlank(s, 0, k) && IsBlank(s, l, |s|);
    OneStretch(s, i, j, k, l);
  }

  /**
   A file lends its name: the base is the first 48 characters of the stem, written with name characters, without the
   underscores at the ends; and it is `source` where there is nothing else in them.
   */
  lemma BaseIsTheStems(wide: char -> bool, stem: string, shown: string)
    requires IsShownAs(wide, stem, shown)
    ensures if IsBlank(shown, 0, |shown|) then Base(wide, stem) == "source" else IsCoreOf(shown, Base(wide, stem))
  {
    var named := Replaced(wide, stem);
    var cut := if |named| <= NAME_LIMIT then named else named[..NAME_LIMIT];
    forall i | 0 <= i < |shown| ensures shown[i] == cut[i] {
      NameCharsMayStay(wide, stem[i]);
    }
    assert cut == shown;
    TrimmedIsCore(shown);
  }

  lemma NamesAreShownAsTheyAre(wide: char -> bool, stem: string)
    requires |stem| <= 48 && forall i | 0 <= i < |stem| :: IsNameChar(wide, stem[i])
    ensures IsShownAs(wide, stem, stem)
  {
    hide IsNameChar;
    forall i | 0 <= i < |stem|
      ensures MayStay(wide, stem[i])
    {
      NameCharsMayStay(wide, stem[i]);
    }
  }

  /** So exactly the names of at most 48 characters with no underscore at either end are their own bases. */
  lemma NamesAreTheirOwnBases(wide: char -> bool, stem: string)
    ensures Base(wide, stem) == stem
       <==> 1 <= |stem| <= 48 && IsName(wide, stem) && stem[0] != '_' && stem[|stem| - 1] != '_'
  {
    BaseIsAName(wide, stem);
    if 1 <= |stem| <= 48 && IsName(wide, stem) && stem[0] != '_' && stem[|stem| - 1] != '_' {
      forall i | 0 <= i < |stem| ensures IsNameChar(wide, stem[i]) {
        assert stem[i] in stem;
      }
      NamesAreShownAsTheyAre(wide, stem);
      BaseIsTheStems(wide, stem, stem);
      assert IsStretch(stem, stem, 0, |stem|);
      OneCore(stem, stem, Base(wide, stem));
    }
  }

  /** So naming twice is naming once. */
  lemma BaseIsANormalForm(wide: char -> bool, stem: string)
    ensures Base(wide, Base(wide, stem)) == Base(wide, stem)
  {
    hide Base;
    BaseIsAName(wide, stem);
    NamesAreTheirOwnBases(wide, Base(wide, stem));
  }

  lemma CandidatesDiffer(base: string, j: nat, k: nat)
    requires Candidate(base, j) == Candidate(base, k)
    ensures j == k
  {
    if j != 0 && k != 0 {
      var s := Candidate(base, j);
      assert s[|base| + 1..] == Decimal(j + 1);
      assert s[|base| + 1..] == Decimal(k + 1);
      NumeralIsInjective(10, j + 1, k + 1);
    }
  }

  lemma CandidateIsAName(wide: char -> bool, stem: string, k: nat)
    ensures IsName(wide, Candidate(Base(wide, stem), k))
  {
    hide Base, Numeral, IsNumeral, IsNameChar;
    BaseIsAName(wide, stem);
    forall c: char | c == '-' || '0' <= c <= '9' ensures IsNameChar(wide, c) {
      DigitsAreNameChars(wide, c);
    }
  }

  lemma DigitsAreNameChars(wide: char -> bool, c: char)
    requires c == '-' || '0' <= c <= '9'
    ensures IsNameChar(wide, c)
  {
  }

  /** The loop's own steps: by pigeonhole it tries at most one name more than are taken. */
  method DocumentId(wide: char -> bool, stem: string, before: set<string>)
    returns (id: string, taken: set<string>, tries: nat)
    ensures 1 <= tries <= |before| + 1
    ensures id == Candidate(Base(wide, stem), tries - 1) && FirstFree(Base(wide, stem), before, tries - 1)
    ensures taken == before + {id} && id !in before && IsName(wide, id)
  {
    hide Base, Numeral;
    var base := Base(wide, stem);
    var candidate, next := base, 2;
    taken := before;
    ghost var tried: set<string> := {};
    while candidate in taken
      invariant next >= 2 && candidate == Candidate(base, next - 2)
      invariant tried <= taken && |tried| == next - 2
      invariant forall c | c in tried :: exists j | 0 <= j < next - 2 :: c == Candidate(base, j)
      invariant forall j | 0 <= j < next - 2 :: Candidate(base, j) in tried
      decreases |taken| + 2 - next
    {
      if candidate in tried {
        var j :| 0 <= j < next - 2 && candidate == Candidate(base, j);
        CandidatesDiffer(base, j, next - 2);
        assert false;
      }
      tried := tried + {candidate};
      SubsetIsSmaller(tried, taken);
      candidate := base + "-" + Decimal(next);
      next := next + 1;
    }
    SubsetIsSmaller(tried, taken);
    CandidateIsAName(wide, stem, next - 2);
    taken := taken + {candidate};
    id, tries := candidate, next - 1;
  }

  lemma {:induction false} SubsetIsSmaller<T>(a: set<T>, b: set<T>)
    requires a <= b
    ensures |a| <= |b|
  {
    if a != {} {
      var x :| x in a;
      SubsetIsSmaller(a - {x}, b - {x});
    }
  }

  function Elements(ids: seq<string>): set<string> {
    set id | id in ids
  }

  /** What `ids` must be: each document takes the first name its predecessors left free. */
  ghost predicate Names(wide: char -> bool, stems: seq<string>, ids: seq<string>) {
    && |ids| == |stems|
    && forall i | 0 <= i < |ids| :: TakesFirstFree(Base(wide, stems[i]), ids, i)
  }

  ghost predicate TakesFirstFree(base: string, ids: seq<string>, i: nat)
    requires i < |ids|
  {
    exists k | 0 <= k <= i :: ids[i] == Candidate(base, k) && FirstFree(base, Elements(ids[..i]), k)
  }

  /** The set grows by one name a document, in the order the files were given. */
  method ReadSources(wide: char -> bool, stems: seq<string>) returns (ids: seq<string>)
    ensures Names(wide, stems, ids)
  {
    hide Base, Candidate, IsName;
    ids := [];
    var taken: set<string> := {};
    for i := 0 to |stems|
      invariant |ids| == i && taken == Elements(ids) && |taken| == i
      invariant Names(wide, stems[..i], ids)
    {
      var id, grown, tries := DocumentId(wide, stems[i], taken);
      ghost var was := ids;
      ids, taken := ids + [id], grown;
      forall j | 0 <= j <= i ensures TakesFirstFree(Base(wide, stems[j]), ids, j) {
        assert ids[..j] == was[..j];
        if j < i {
          assert TakesFirstFree(Base(wide, stems[..i][j]), was, j);
        } else {
          assert was[..i] == was;
        }
      }
    }
    assert stems[..|stems|] == stems;
  }

  /** No two documents share an id, and every id is a name. */
  lemma IdsAreDistinctNames(wide: char -> bool, stems: seq<string>, ids: seq<string>)
    requires Names(wide, stems, ids)
    ensures forall i, j | 0 <= i < j < |ids| :: ids[i] != ids[j]
    ensures forall i | 0 <= i < |ids| :: IsName(wide, ids[i])
  {
    hide Base, IsName;
    forall i, j | 0 <= i < j < |ids| ensures ids[i] != ids[j] {
      assert TakesFirstFree(Base(wide, stems[j]), ids, j);
      assert ids[..j][i] in Elements(ids[..j]);
    }
    forall i | 0 <= i < |ids| ensures IsName(wide, ids[i]) {
      assert TakesFirstFree(Base(wide, stems[i]), ids, i);
      var k :| 0 <= k <= i && ids[i] == Candidate(Base(wide, stems[i]), k);
      CandidateIsAName(wide, stems[i], k);
    }
  }

  /** The names are a function of the files and their order: there is one way to hand them out. */
  lemma {:induction false} NamesAreDetermined(wide: char -> bool, stems: seq<string>, a: seq<string>, b: seq<string>)
    requires Names(wide, stems, a) && Names(wide, stems, b)
    ensures a == b
  {
    hide Base, Candidate;
    var n := |stems|;
    if n > 0 {
      NamesOfPrefix(wide, stems, a);
      NamesOfPrefix(wide, stems, b);
      NamesAreDetermined(wide, stems[..n - 1], a[..n - 1], b[..n - 1]);
      var base := Base(wide, stems[n - 1]);
      assert TakesFirstFree(base, a, n - 1) && TakesFirstFree(base, b, n - 1);
      assert a == a[..n - 1] + [a[n - 1]] && b == b[..n - 1] + [b[n - 1]];
    }
  }

  lemma NamesOfPrefix(wide: char -> bool, stems: seq<string>, ids: seq<string>)
    requires Names(wide, stems, ids) && |ids| > 0
    ensures Names(wide, stems[..|ids| - 1], ids[..|ids| - 1])
  {
    hide Base, Candidate;
    var (earlier, front) := (stems[..|ids| - 1], ids[..|ids| - 1]);
    forall i | 0 <= i < |front| ensures TakesFirstFree(Base(wide, earlier[i]), front, i) {
      assert TakesFirstFree(Base(wide, stems[i]), ids, i);
      assert front[..i] == ids[..i];
    }
  }

  /** The second file of one name is numbered two, and the tenth ten. */
  lemma NumbersStartAtTwo(base: string)
    ensures Candidate(base, 0) == base && Candidate(base, 1) == base + "-2" && Candidate(base, 9) == base + "-10"
  {
    assert Decimal(2) == "2";
    assert Decimal(10) == "10" by {
      assert Numeral(10, 1) == "1";
    }
  }

  /** Files that share a base are numbered without a gap: base, base-2, base-3 and so on. */
  lemma {:induction false} SharedBaseCountsUp(wide: char -> bool, stems: seq<string>, ids: seq<string>, base: string)
    requires Names(wide, stems, ids) && forall stem | stem in stems :: Base(wide, stem) == base
    ensures forall i | 0 <= i < |ids| :: ids[i] == Candidate(base, i)
  {
    hide Base, Candidate;
    if |ids| > 0 {
      var n := |ids| - 1;
      NamesOfPrefix(wide, stems, ids);
      SharedBaseCountsUp(wide, stems[..n], ids[..n], base);
      assert Base(wide, stems[n]) == base;
      assert TakesFirstFree(base, ids, n);
      var k :| 0 <= k <= n && ids[n] == Candidate(base, k) && FirstFree(base, Elements(ids[..n]), k);
      assert forall j | 0 <= j < n :: ids[..n][j] in Elements(ids[..n]) && ids[..n][j] == Candidate(base, j);
    }
  }
}
