/** The versions of each scene on disk: numbering, deleting, resolving and reading by range. */
module SceneVersions {
  import opened Options
  import opened SafeNames

  type Bytes = seq<bv8>

  const MAX_NUMBER: nat := 0xFFFF_FFFF

  /** What is on disk for one scene name. */
  datatype Files = Files(
    flat: Option<Bytes>,             // {name}.rvs from before there were versions
    numbered: map<nat, Bytes>,       // versions/{name}/{number}.rvs
    mark: Option<nat>,               // the number in versions/{name}/last, where one can be read there
    preview: bool)

  function NoFiles(): Files {
    Files(None, map[], None, false)
  }

  /** All versions by number; where a numbered file and the flat one claim the first, the numbered one has it. */
  function VersionsOf(f: Files): map<nat, Bytes> {
    (if f.flat.Some? then map[1 := f.flat.value] else map[]) + f.numbered
  }

  /** The largest of a finite set of numbers, zero for none. */
  function Largest(s: set<nat>): (m: nat)
    ensures forall n :: n in s ==> n <= m
    ensures if s == {} then m == 0 else m in s
  {
    if s == {} then 0
    else
      MaximumExists(s);
      var m :| m in s && forall n :: n in s ==> n <= m;
      m
  }

  lemma MaximumExists(s: set<nat>)
    requires s != {}
    ensures exists m :: m in s && forall n :: n in s ==> n <= m
  {
    var m := FindMaximum(s);
  }

  lemma {:induction false} FindMaximum(s: set<nat>) returns (m: nat)
    requires s != {}
    ensures m in s && forall n :: n in s ==> n <= m
  {
    var x :| x in s;
    m := x;
    if s - {x} != {} {
      var y := FindMaximum(s - {x});
      m := if x <= y then y else x;
    }
    forall n | n in s ensures n <= m {
      assert n == x || n in s - {x};
    }
  }

  function SaturatingNext(n: nat): nat {
    if n < MAX_NUMBER then n + 1 else MAX_NUMBER
  }

  function MarkOf(f: Files): nat {
    if f.mark.Some? then f.mark.value else 0
  }

  function HighWater(f: Files): nat {
    var (present, handed) := (Largest(VersionsOf(f).Keys), MarkOf(f));
    if present >= handed then present else handed
  }

  /** The number the next conversion is given. */
  function NextNumber(f: Files): nat {
    SaturatingNext(HighWater(f))
  }

  /** What becomes of a mark: written, not opened for writing, or opened - which empties it - and then not written. */
  datatype Marking = Written | Refused | Emptied

  function Marked(f: Files, number: nat, how: Marking): Files {
    match how
    case Written => f.(mark := Some(number))
    case Refused => f
    case Emptied => f.(mark := None)
  }

  /** One whole call for a number, with no other call in between. */
  function Numbering(f: Files, how: Marking): Files {
    Marked(f, NextNumber(f), how)
  }

  datatype Error = NotFound | OnlyVersion | NotSatisfiable(total: nat) | Overflow | Io

  datatype Result<+T> = Ok(value: T) | Err(error: Error)

  // ----- ranges -----

  /** A parsed `Range` header: first and last byte position, either of them left out. */
  datatype Wanted = Whole | Wanted(first: Option<nat>, last: Option<nat>)

  datatype Range = Range(start: nat, end: nat)

  /** None is a range that cannot be satisfied. */
  function ResolveRange(wanted: Wanted, total: nat): (r: Option<Range>)
    ensures r.Some? ==> r.value.start < total && r.value.end < total
  {
    if total == 0 then None
    else
      var last := total - 1;
      match wanted
      case Whole => Some(Range(0, last))
      case Wanted(None, Some(n)) =>
        var suffix := if n <= total then n else total;
        if suffix > 0 then Some(Range(total - suffix, last)) else None
      case Wanted(Some(start), end) =>
        if start > last then None
        else
          var wantedEnd := if end.Some? then end.value else last;
          Some(Range(start, if wantedEnd <= last then wantedEnd else last))
      case Wanted(None, None) => None
  }

  ghost predicate WellOrdered(r: Range, total: nat) {
    r.start <= r.end < total
  }

  /** An int-range whose last position is before its first, which section 14.1.2 of RFC 9110 calls invalid. */
  predicate EndsBeforeItStarts(wanted: Wanted) {
    wanted.Wanted? && wanted.first.Some? && wanted.last.Some? && wanted.last.value < wanted.first.value
  }

  /** A resolved range lies in the file, first to last, exactly when the request was not one of those. */
  lemma ResolvedRangeIsOrdered(wanted: Wanted, total: nat)
    requires ResolveRange(wanted, total).Some?
    ensures WellOrdered(ResolveRange(wanted, total).value, total) <==> !EndsBeforeItStarts(wanted)
  {
  }

  /** The request `bytes=5-3` of a ten-byte file is resolved rather than refused. */
  lemma BackwardRangeIsResolved()
    ensures ResolveRange(Wanted(Some(5), Some(3)), 10) == Some(Range(5, 3))
    ensures !WellOrdered(Range(5, 3), 10)
  {
  }

  datatype Served = Served(bytes: Bytes, range: Range, total: nat, version: nat)

  /** One range of a file; a range that ends before it starts has no length in unsigned arithmetic. */
  function ReadRange(bytes: Bytes, wanted: Wanted, version: nat): Result<Served> {
    var range := ResolveRange(wanted, |bytes|);
    if range.None? then Err(NotSatisfiable(|bytes|))
    else if range.value.end < range.value.start then Err(Overflow)
    else Ok(Served(bytes[range.value.start..range.value.end + 1], range.value, |bytes|, version))
  }

  /** The bytes a request asks for: all of them, the last n, those from a on, or those from a to b and both. */
  ghost predicate AsksFor(wanted: Wanted, bytes: Bytes, part: Bytes) {
    match wanted
    case Whole => part == bytes
    case Wanted(None, Some(n)) =>
      |part| == (if n < |bytes| then n else |bytes|) && exists front: Bytes :: bytes == front + part
    case Wanted(Some(a), None) =>
      a <= |bytes| && part == bytes[a..]
    case Wanted(Some(a), Some(b)) =>
      a <= |bytes| && a <= b && part == if b < |bytes| then bytes[a..b + 1] else bytes[a..]
    case Wanted(None, None) => false
  }

  /** A file with nothing in it, a start past the end, the last no bytes, and no position at all have no answer. */
  predicate HasNoAnswer(wanted: Wanted, total: nat) {
    || total == 0
    || wanted == Wanted(None, Some(0))
    || wanted == Wanted(None, None)
    || (wanted.Wanted? && wanted.first.Some? && wanted.first.value >= total)
  }

  /**
   What is served is what was asked for, with the positions it has in the file; it is refused as past the end exactly
   where it has no answer, and fails exactly where it ends before it starts.
   */
  lemma ServesWhatWasAsked(bytes: Bytes, wanted: Wanted, version: nat)
    ensures var r := ReadRange(bytes, wanted, version);
            && (r == Err(NotSatisfiable(|bytes|)) <==> HasNoAnswer(wanted, |bytes|))
            && (r == Err(Overflow) <==> !HasNoAnswer(wanted, |bytes|) && EndsBeforeItStarts(wanted))
            && (r.Ok? <==> !HasNoAnswer(wanted, |bytes|) && !EndsBeforeItStarts(wanted))
            && (r.Ok? ==>
                  && AsksFor(wanted, bytes, r.value.bytes) && r.value.bytes != []
                  && r.value.range.start <= r.value.range.end < |bytes|
                  && r.value.bytes == bytes[r.value.range.start..r.value.range.end + 1]
                  && r.value.total == |bytes| && r.value.version == version)
  {
    var r := ReadRange(bytes, wanted, version);
    if r.Ok? && wanted.Wanted? && wanted.first.None? {
      var start := r.value.range.start;
      assert bytes == bytes[..start] + bytes[start..];
      assert bytes[start..] == r.value.bytes;
    }
    if r.Ok? {
      var range := r.value.range;
      if range.end + 1 == |bytes| {
        assert bytes[range.start..range.end + 1] == bytes[range.start..];
      }
      assert wanted.Whole? ==> bytes[range.start..] == bytes;
    }
  }

  /** The version asked for, or the newest. */
  function Resolve(f: Files, version: Option<nat>): Option<nat> {
    var held := VersionsOf(f);
    if version.Some? then (if version.value in held then version else None)
    else if held == map[] then None
    else Some(Largest(held.Keys))
  }

  function Read(f: Files, version: Option<nat>, wanted: Wanted): Result<Served> {
    var found := Resolve(f, version);
    if found.None? then Err(NotFound)
    else
      assert found.value in VersionsOf(f);
      ReadRange(VersionsOf(f)[found.value], wanted, found.value)
  }

  /** The file a number resolves to is gone: its numbered file where there is one, and the flat one otherwise. */
  function Deleting(f: Files, version: nat): Files {
    if version in f.numbered then f.(numbered := f.numbered - {version}) else f.(flat := None)
  }

  function RemovingVersion(f: Files, version: nat): Result<Files> {
    var held := VersionsOf(f);
    if version !in held then Err(NotFound)
    else if |held| == 1 then Err(OnlyVersion)
    else Ok(Deleting(f, version).(preview := f.preview && version != Largest(held.Keys)))
  }

  /** Forgetting a scene takes the files its versions resolve to, the mark and the preview. */
  function Removing(f: Files): Files {
    Files(if 1 in f.numbered then f.flat else None, map[], None, false)
  }

  /** Every version below k is gone, and nothing else. */
  function RemovingBelow(f: Files, k: nat): Files {
    f.(numbered := map n | n in f.numbered && n >= k :: f.numbered[n],
       flat := if 1 < k && 1 !in f.numbered then None else f.flat)
  }

  predicate IsLeast(k: nat, s: set<nat>) {
    k in s && forall n :: n in s ==> k <= n
  }

  lemma {:induction false} LeastExists(s: set<nat>)
    requires s != {}
    ensures exists k :: k in s && IsLeast(k, s)
  {
    var x :| x in s;
    var rest := s - {x};
    if rest == {} {
      assert s == {x} && IsLeast(x, s);
    } else {
      LeastExists(rest);
      var y :| y in rest && IsLeast(y, rest);
      var least := if x <= y then x else y;
      forall n | n in s ensures least <= n {
        assert n == x || n in rest;
      }
      assert IsLeast(least, s);
    }
  }

  function Least(s: set<nat>): (k: nat)
    requires s != {}
    ensures IsLeast(k, s)
  {
    LeastExists(s);
    var k :| k in s && IsLeast(k, s);
    k
  }

  /** The versions from `below` on are what is left, and the next of them is the one to go. */
  ghost predicate RemovalStands(f: Files, below: nat, left: set<nat>) {
    forall n :: n in left <==> n in VersionsOf(f) && n >= below
  }

  lemma RemovesNext(f: Files, below: nat, left: set<nat>, version: nat)
    requires RemovalStands(f, below, left) && IsLeast(version, left)
    ensures Deleting(RemovingBelow(f, below), version) == RemovingBelow(f, version + 1)
    ensures RemovingBelow(f, below) == RemovingBelow(f, version)
    ensures RemovalStands(f, version + 1, left - {version})
  {
    forall n | n in f.numbered && n >= below ensures n >= version {
      assert n in VersionsOf(f) && n in left;
    }
    if f.flat.Some? && below <= 1 {
      assert 1 in VersionsOf(f) && 1 in left;
    }
    assert RemovingBelow(f, below).numbered == RemovingBelow(f, version).numbered;
    assert RemovingBelow(f, version).numbered - {version} == RemovingBelow(f, version + 1).numbered;
  }

  lemma RemovalStarts(f: Files)
    ensures RemovingBelow(f, 0) == f && RemovalStands(f, 0, VersionsOf(f).Keys)
  {
  }

  lemma RemovalEnds(f: Files)
    requires VersionsOf(f) != map[]
    ensures RemovingAll(f).(mark := None, preview := false) == Removing(f)
  {
  }

  /** Every file a version resolves to is gone. */
  function RemovingAll(f: Files): Files {
    f.(numbered := map[], flat := if 1 in f.numbered then f.flat else None)
  }

  lemma NoneAreLeft(f: Files, below: nat)
    requires RemovalStands(f, below, {})
    ensures RemovingBelow(f, below) == RemovingAll(f)
  {
    forall n ensures n !in RemovingBelow(f, below).numbered {
      assert n in f.numbered ==> n in VersionsOf(f);
    }
    assert RemovingBelow(f, below).numbered == map[];
    assert f.flat.Some? ==> 1 in VersionsOf(f);
  }

  /** Remove the files of all versions from the lowest up, as far as one that is stuck. */
  method RemoveFiles(was: Files, stuck: Option<nat>) returns (files: Files, removed: nat, done: bool)
    ensures done <==> !(stuck.Some? && stuck.value in VersionsOf(was))
    ensures done ==> files == RemovingAll(was) && removed == |VersionsOf(was)|
    ensures !done ==> files == RemovingBelow(was, stuck.value)
  {
    hide VersionsOf, Deleting, RemovingAll, RemovingBelow, RemovalStands, Least;
    ghost var versions := VersionsOf(was);
    ghost var below: nat := 0;
    var left := VersionsOf(was).Keys;
    files, removed := was, 0;
    RemovalStarts(was);
    while left != {}
      invariant RemovalStands(was, below, left) && files == RemovingBelow(was, below)
      invariant |left| + removed == |versions.Keys| && left <= versions.Keys
      invariant stuck.Some? && stuck.value in versions ==> stuck.value in left
      decreases left
    {
      var version := Least(left);
      RemovesNext(was, below, left, version);
      if stuck == Some(version) {
        return files, removed, false;
      }
      files := Deleting(files, version);
      left, removed, below := left - {version}, removed + 1, version + 1;
    }
    NoneAreLeft(was, below);
    done := true;
  }

  /** What a whole read serves, version by version: the numbered file, and the flat one as the first where none is. */
  lemma ReadServes(f: Files, version: nat)
    ensures version in f.numbered && f.numbered[version] != [] ==>
              Read(f, Some(version), Whole).Ok? && Read(f, Some(version), Whole).value.bytes == f.numbered[version]
    ensures version !in f.numbered && version == 1 && f.flat.Some? && f.flat.value != [] ==>
              Read(f, Some(version), Whole).Ok? && Read(f, Some(version), Whole).value.bytes == f.flat.value
    ensures version !in f.numbered && (version != 1 || f.flat.None?) ==>
              Read(f, Some(version), Whole) == Err(NotFound)
    ensures (version in VersionsOf(f) && forall n :: n in VersionsOf(f) ==> n <= version) ==>
              Read(f, None, Whole) == Read(f, Some(version), Whole)
  {
    hide ReadRange, Largest;
    if version in VersionsOf(f) {
      ServesWhatWasAsked(VersionsOf(f)[version], Whole, version);
    }
  }

  // ----- the directory -----

  class Scenes {
    var held: map<string, Files>

    function FilesOf(name: string): Files
      reads this
    {
      if name in held then held[name] else NoFiles()
    }

    constructor ()
      ensures held == map[]
    {
      held := map[];
    }

    /** The version number the next conversion writes to, or None where the name or its directory is refused. */
    method NextVersionPath(name: string, hasDirectory: bool, how: Marking) returns (number: Option<nat>)
      modifies this
      ensures !(IsSafeName(name) && hasDirectory) ==> number == None && held == old(held)
      ensures IsSafeName(name) && hasDirectory ==>
                && number == Some(NextNumber(old(FilesOf(name))))
                && held == old(held)[name := Numbering(old(FilesOf(name)), how)]
    {
      if !IsSafeName(name) || !hasDirectory {
        return None;
      }
      var files := FilesOf(name);
      var present := Largest(VersionsOf(files).Keys);
      var handed := if files.mark.Some? then files.mark.value else 0;
      var next := SaturatingNext(if present >= handed then present else handed);
      match how {
        case Written => files := files.(mark := Some(next));
        case Refused =>
        case Emptied => files := files.(mark := None);
      }
      held := held[name := files];
      return Some(next);
    }

    /** Delete one version, leaving the other versions and the numbering alone; `removable` is whether its file goes. */
    method RemoveVersion(name: string, version: nat, removable: bool) returns (r: Result<()>)
      modifies this
      ensures var after := if IsSafeName(name) then RemovingVersion(old(FilesOf(name)), version) else Err(NotFound);
              && (after.Ok? && removable ==> r == Ok(()) && held == old(held)[name := after.value])
              && (after.Ok? && !removable ==> r == Err(Io) && held == old(held))
              && (after.Err? ==> r == Err(after.error) && held == old(held))
    {
      if !IsSafeName(name) {
        return Err(NotFound);
      }
      var files := FilesOf(name);
      var versions := VersionsOf(files);
      if version !in versions {
        return Err(NotFound);
      }
      if |versions| == 1 {
        return Err(OnlyVersion);
      }
      if !removable {
        return Err(Io);
      }
      var left := Deleting(files, version);
      if version == Largest(versions.Keys) {
        left := left.(preview := false);
      }
      held := held[name := left];
      return Ok(());
    }

    /**
     Forget a scene: every version, the preview, and the numbering with them. Versions go from the lowest up, and
     one whose file will not go - `stuck` - ends it there, with those below it gone and all else as it was.
     */
    method Remove(name: string, stuck: Option<nat>) returns (r: Result<nat>)
      modifies this
      ensures var (files, versions) := (old(FilesOf(name)), VersionsOf(old(FilesOf(name))));
              if !IsSafeName(name) || versions == map[] then r == Err(NotFound) && held == old(held)
              else if stuck.Some? && stuck.value in versions then
                r == Err(Io) && held == old(held)[name := RemovingBelow(files, stuck.value)]
              else r == Ok(|versions|) && held == old(held)[name := Removing(files)]
    {
      var files := FilesOf(name);
      if !IsSafeName(name) || VersionsOf(files) == map[] {
        return Err(NotFound);
      }
      var left, removed, done := RemoveFiles(files, stuck);
      if !done {
        held := held[name := left];
        return Err(Io);
      }
      RemovalEnds(files);
      held := held[name := left.(mark := None, preview := false)];
      return Ok(removed);
    }

    /** The converter's own write of the file it was pointed at. */
    method WriteVersion(name: string, number: nat, bytes: Bytes)
      modifies this
      ensures held == old(held)[name := old(FilesOf(name)).(numbered := old(FilesOf(name)).numbered[number := bytes])]
    {
      var files := FilesOf(name);
      held := held[name := files.(numbered := files.numbered[number := bytes])];
    }
  }

  // ----- one call or one deletion -----

  /** A conversion, then a deletion, behind a mark that would not write: the deleted number comes back. */
  lemma LostMarkReusesANumber()
    ensures var first := Files(None, map[1 := []], None, false);
            var second := Numbering(first, Refused).(numbered := map[1 := [], 2 := [1]]);
            && NextNumber(first) == 2
            && RemovingVersion(second, 2) == Ok(first)
  {
    var first := Files(None, map[1 := []], None, false);
    var second := first.(numbered := map[1 := [], 2 := [1]]);
    assert VersionsOf(first).Keys == {1} && VersionsOf(second).Keys == {1, 2};
    assert second.numbered - {2} == first.numbered;
    assert |VersionsOf(second)| == 2 by { assert |VersionsOf(second).Keys| == 2; }
  }

  /** One whole call after another gets another number, until they run out. */
  lemma CallsInTurnDiffer(f: Files)
    ensures NextNumber(Numbering(f, Written)) != NextNumber(f) <==> HighWater(f) < 0xFFFF_FFFE
    ensures VersionsOf(Numbering(f, Written)) == VersionsOf(f)
  {
  }

  /** Forgetting a scene forgets every version, unless a numbered first version was hiding a flat file. */
  lemma RemovingForgetsUnlessHidden(f: Files)
    ensures VersionsOf(Removing(f)) == map[] <==> !(f.flat.Some? && 1 in f.numbered)
    ensures MarkOf(Removing(f)) == 0 && !Removing(f).preview
  {
    assert f.flat.Some? && 1 in f.numbered ==> 1 in VersionsOf(Removing(f));
  }

  /** Forgetting a scene with its numbering starts the numbers over. */
  lemma RemovingStartsOver(f: Files)
    requires f.flat.None?
    ensures NextNumber(Removing(f)) == 1
  {
  }

  lemma DeletingKeepsOthers(f: Files, version: nat)
    requires version in VersionsOf(f)
    ensures var after := VersionsOf(Deleting(f, version));
            && (forall n :: n != version ==> (n in after <==> n in VersionsOf(f)))
            && (forall n :: n != version && n in VersionsOf(f) ==> after[n] == VersionsOf(f)[n])
            && (version in after <==> version == 1 && 1 in f.numbered && f.flat.Some?)
  {
  }

  lemma PreviewIsNoVersion(f: Files, preview: bool)
    ensures VersionsOf(f.(preview := preview)) == VersionsOf(f)
  {
  }

  lemma DeletionKeepsOthers(f: Files, version: nat)
    requires RemovingVersion(f, version).Ok?
    ensures var after := RemovingVersion(f, version).value;
            && (forall n :: n != version ==> (n in VersionsOf(after) <==> n in VersionsOf(f)))
            && (forall n :: n != version && n in VersionsOf(f) ==> VersionsOf(after)[n] == VersionsOf(f)[n])
            && (version in VersionsOf(after) <==> version == 1 && 1 in f.numbered && f.flat.Some?)
            && after.mark == f.mark && (f.flat.None? ==> after.flat.None?)
  {
    hide Largest, VersionsOf;
    DeletingKeepsOthers(f, version);
    PreviewIsNoVersion(Deleting(f, version), f.preview && version != Largest(VersionsOf(f).Keys));
  }

  /** The picture of the newest version goes with it, and with no other. */
  lemma PreviewGoesWithTheNewest(f: Files, version: nat)
    requires RemovingVersion(f, version).Ok?
    ensures RemovingVersion(f, version).value.preview
       <==> f.preview && exists n :: n in VersionsOf(f) && n > version
  {
  }

  /** A version is deleted exactly where it is there and another is; otherwise it is the only one, or not found. */
  lemma DeletedExactly(f: Files, version: nat)
    ensures RemovingVersion(f, version).Ok?
       <==> version in VersionsOf(f) && exists other :: other in VersionsOf(f) && other != version
    ensures RemovingVersion(f, version) == Err(NotFound) <==> version !in VersionsOf(f)
    ensures RemovingVersion(f, version) == Err(OnlyVersion) <==> VersionsOf(f).Keys == {version}
  {
    hide Largest, VersionsOf, Deleting;
    var keys := VersionsOf(f).Keys;
    assert |keys| == |VersionsOf(f)|;
    if version in keys {
      var rest := keys - {version};
      assert keys == rest + {version} && |keys| == |rest| + 1;
      if rest != {} {
        var other :| other in rest;
      }
    }
  }

  /** A removal that gets stuck leaves the version it is stuck at and those above, and of those below none but one. */
  lemma LeftWhenStuck(f: Files, stuck: nat, n: nat)
    requires stuck in VersionsOf(f)
    ensures var left := VersionsOf(RemovingBelow(f, stuck));
            && (n >= stuck ==> (n in left <==> n in VersionsOf(f)) && (n in left ==> left[n] == VersionsOf(f)[n]))
            && (n < stuck ==> (n in left <==> n == 1 && 1 in f.numbered && f.flat.Some?))
            && RemovingBelow(f, stuck).mark == f.mark && RemovingBelow(f, stuck).preview == f.preview
  {
  }

  /** Deleting a version of several brings back the one before it, keeps the others and never frees the number. */
  lemma DeletedNewestGoesBack(f: Files, version: nat)
    requires RemovingVersion(f, version).Ok? && !(version == 1 && 1 in f.numbered && f.flat.Some?)
    ensures var after := RemovingVersion(f, version).value;
            && VersionsOf(after) == VersionsOf(f) - {version}
            && VersionsOf(f).Keys - {version} != {}
            && Resolve(after, None) == Some(Largest(VersionsOf(f).Keys - {version}))
            && MarkOf(after) == MarkOf(f)
  {
    hide Largest, RemovingVersion;
    var (held, after) := (VersionsOf(f), RemovingVersion(f, version).value);
    DeletionKeepsOthers(f, version);
    SeveralAreLeft(f, version);
    assert VersionsOf(after) == held - {version};
    assert VersionsOf(after).Keys == held.Keys - {version};
  }

  lemma SeveralAreLeft(f: Files, version: nat)
    requires RemovingVersion(f, version).Ok?
    ensures VersionsOf(f).Keys - {version} != {}
  {
    hide Largest;
    var keys := VersionsOf(f).Keys;
    assert keys == (keys - {version}) + {version};
    assert |keys| == |keys - {version}| + 1 && |keys| == |VersionsOf(f)|;
  }
}
