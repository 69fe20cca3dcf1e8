/** What the files of one scene hold, and what a name and a pinned version resolve to, along any life of the scene. */
module SceneReads {
  import opened Options
  import opened SceneVersions
  import opened SceneLives

  // ----- what is on disk -----

  datatype Touch = Wrote(call: Call, bytes: Bytes) | Gone

  /** What an act does to the numbered file n. */
  function TouchOf(s: Scene, act: Act, n: nat): Option<Touch>
    requires Possible(s, act)
  {
    match act
    case WriteTo(call, bytes) => if s.calls[call].number == n then Some(Wrote(call, bytes)) else None
    case End(call, _, removed) => if removed && s.calls[call].number == n then Some(Gone) else None
    case Delete(version) => if version == n && RemovingVersion(s.files, n).Ok? then Some(Gone) else None
    case Forget => if VersionsOf(s.files) == map[] then None else Some(Gone)
    case _ => None
  }

  /** The last that was done to it. */
  function LastTouch(s: Scene, acts: seq<Act>, n: nat): Option<Touch>
    decreases acts
  {
    if acts == [] || !Possible(s, acts[0]) then None
    else
      var later := LastTouch(After(s, acts[0]), acts[1..], n);
      if later.Some? then later else TouchOf(s, acts[0], n)
  }

  function Touched(touch: Option<Touch>, file: Option<Bytes>): Option<Bytes> {
    match touch
    case None => file
    case Some(Wrote(_, bytes)) => Some(bytes)
    case Some(Gone) => None
  }

  function FileAt(f: Files, n: nat): Option<Bytes> {
    if n in f.numbered then Some(f.numbered[n]) else None
  }

  lemma OneTouch(s: Scene, act: Act, n: nat)
    requires Possible(s, act)
    ensures FileAt(FilesAfter(s, act), n) == Touched(TouchOf(s, act, n), FileAt(s.files, n))
  {
    hide RemovingVersion, VersionsOf, NextNumber;
    if act.Delete? && RemovingVersion(s.files, act.version).Ok? {
      DeletionTouches(s.files, act.version, n);
    }
  }

  lemma DeletionTouches(f: Files, version: nat, n: nat)
    requires RemovingVersion(f, version).Ok?
    ensures FileAt(RemovingVersion(f, version).value, n) == if n == version then None else FileAt(f, n)
  {
    hide Largest, VersionsOf;
  }

  /** The file a number has at the end is the one last written there, unless it is gone since. */
  lemma {:induction false} FilesFollowTouches(s: Scene, acts: seq<Act>, t: Scene, n: nat)
    requires Life(s, acts, t)
    ensures FileAt(t.files, n) == Touched(LastTouch(s, acts, n), FileAt(s.files, n))
    decreases acts
  {
    hide FilesAfter, CallsAfter, Possible, NextNumber, TouchOf, FileAt;
    if acts != [] {
      OneTouch(s, acts[0], n);
      FilesFollowTouches(After(s, acts[0]), acts[1..], t, n);
    }
  }

  // ----- the preview -----

  /** The version is the newest of several. */
  ghost predicate IsNewestOfSeveral(f: Files, version: nat) {
    && version in VersionsOf(f) && (forall n :: n in VersionsOf(f) ==> n <= version)
    && exists n :: n in VersionsOf(f) && n != version
  }

  /** A picture is stored for a scene that is there. */
  ghost predicate Draws(s: Scene, act: Act) {
    act.Draw? && VersionsOf(s.files) != map[]
  }

  /** It goes when a conversion is done, when the newest of several versions is deleted, and with the scene. */
  ghost predicate Drops(s: Scene, act: Act) {
    || (act.End? && act.outcome == Done)
    || (act.Delete? && IsNewestOfSeveral(s.files, act.version))
    || (act.Forget? && VersionsOf(s.files) != map[])
  }

  /** Of what happened to the preview, the last was that one was drawn; or nothing did, and there was one before. */
  ghost predicate IsPictured(s: Scene, acts: seq<Act>, before: bool)
    decreases acts
  {
    if acts == [] || !Possible(s, acts[0]) then before
    else IsPictured(After(s, acts[0]), acts[1..], Draws(s, acts[0]) || (before && !Drops(s, acts[0])))
  }

  lemma PreviewStep(s: Scene, act: Act)
    requires Possible(s, act)
    ensures FilesAfter(s, act).preview <==> Draws(s, act) || (s.files.preview && !Drops(s, act))
  {
    hide VersionsOf, RemovingVersion, NextNumber;
    if act.Delete? {
      DeletedExactly(s.files, act.version);
      if RemovingVersion(s.files, act.version).Ok? {
        PreviewGoesWithTheNewest(s.files, act.version);
      }
    }
  }

  /** Along every life there is a preview exactly when the last thing that happened to it was that it was drawn. */
  lemma {:induction false} PreviewFollowsDrawing(s: Scene, acts: seq<Act>, t: Scene)
    requires Life(s, acts, t)
    ensures t.files.preview <==> IsPictured(s, acts, s.files.preview)
    decreases acts
  {
    hide FilesAfter, CallsAfter, Possible, NextNumber, Draws, Drops;
    if acts != [] {
      PreviewStep(s, acts[0]);
      PreviewFollowsDrawing(After(s, acts[0]), acts[1..], t);
    }
  }

  /** A conversion's number is taken, and is no number a flat file has. */
  ghost predicate CallsAreTaken(s: Scene) {
    && (forall c :: c in s.calls ==> s.calls[c].number in s.taken)
    && (forall i :: 0 <= i < |s.taken| ==> s.taken[i] > if s.files.flat.Some? then 1 else 0)
  }

  lemma StepKeepsCallsTaken(s: Scene, act: Act)
    requires CallsAreTaken(s) && Possible(s, act)
    ensures CallsAreTaken(After(s, act))
  {
    hide FilesAfter, NextNumber;
    NextIsPositive(s.files);
    if FilesAfter(s, act).flat.Some? {
      NoFlatFileAppears(s, act);
    }
  }

  lemma NoFlatFileAppears(s: Scene, act: Act)
    requires Possible(s, act) && FilesAfter(s, act).flat.Some?
    ensures s.files.flat.Some?
  {
    hide Largest, VersionsOf, NextNumber;
  }

  lemma NextIsPositive(f: Files)
    ensures NextNumber(f) > if f.flat.Some? then 1 else 0
  {
    assert f.flat.Some? ==> 1 in VersionsOf(f).Keys;
  }

  lemma {:induction false} LifeKeepsCallsTaken(s: Scene, acts: seq<Act>, t: Scene)
    requires CallsAreTaken(s) && Life(s, acts, t)
    ensures CallsAreTaken(t)
    decreases acts
  {
    hide FilesAfter, CallsAfter, Possible, NextNumber, CallsAreTaken;
    if acts != [] {
      StepKeepsCallsTaken(s, acts[0]);
      LifeKeepsCallsTaken(After(s, acts[0]), acts[1..], t);
    }
  }

  /** What the name resolves to: the largest number whose file stands. */
  ghost predicate Stands(files: Files, acts: seq<Act>, n: nat) {
    Touched(LastTouch(Start(files), acts, n), FileAt(files, n)).Some?
  }

  /** A conversion's file is what the name resolves to exactly when it stands and no larger number's does. */
  lemma ResolvedExactly(files: Files, acts: seq<Act>, t: Scene, c: Call)
    requires Life(Start(files), acts, t) && c in t.calls
    ensures Resolve(t.files, None) == Some(t.calls[c].number)
       <==> Stands(files, acts, t.calls[c].number) && forall m :: m > t.calls[c].number ==> !Stands(files, acts, m)
  {
    hide HighWater, LastTouch, Touched, Largest;
    var n := t.calls[c].number;
    LifeKeepsCallsTaken(Start(files), acts, t);
    forall m ensures Stands(files, acts, m) <==> m in t.files.numbered {
      FilesFollowTouches(Start(files), acts, t, m);
    }
    var held := VersionsOf(t.files);
    assert forall m :: m >= n ==> (m in held <==> m in t.files.numbered);
    LargestIs(held.Keys, n);
  }

  lemma LargestIs(keys: set<nat>, n: nat)
    requires n > 0
    ensures Largest(keys) == n <==> n in keys && forall m :: m in keys ==> m <= n
  {
  }

  lemma {:induction false} LastTouchIsOneOf(s: Scene, acts: seq<Act>, t: Scene, n: nat)
    requires Life(s, acts, t) && LastTouch(s, acts, n).Some? && LastTouch(s, acts, n).value.Wrote?
    ensures var c := LastTouch(s, acts, n).value.call; c in t.calls && t.calls[c].number == n
    ensures forall c :: c in s.calls ==> c in t.calls && t.calls[c].number == s.calls[c].number
    decreases acts
  {
    hide FilesAfter, NextNumber, RemovingVersion, VersionsOf;
    if acts != [] {
      var next := After(s, acts[0]);
      CallsKeepNumbers(next, acts[1..], t);
      if LastTouch(next, acts[1..], n).Some? {
        LastTouchIsOneOf(next, acts[1..], t, n);
      }
    }
  }

  lemma {:induction false} CallsKeepNumbers(s: Scene, acts: seq<Act>, t: Scene)
    requires Life(s, acts, t)
    ensures forall c :: c in s.calls ==> c in t.calls && t.calls[c].number == s.calls[c].number
    decreases acts
  {
    hide FilesAfter, NextNumber;
    if acts != [] {
      CallsKeepNumbers(After(s, acts[0]), acts[1..], t);
    }
  }

  ghost predicate OneCallANumber(s: Scene) {
    forall c, d :: c in s.calls && d in s.calls && s.calls[c].number == s.calls[d].number ==> c == d
  }

  /** A step towards a scene whose numbers are all new takes a number that no earlier call has. */
  lemma TakesANewOne(s: Scene, act: Act, t: Scene)
    requires Possible(s, act) && act.Take? && AllNew(t) && t.base == s.base && After(s, act).taken <= t.taken
    ensures NextNumber(s.files) !in s.taken && NextNumber(s.files) > s.base
  {
    hide NextNumber, FilesAfter, CallsAfter;
    var k := |s.taken|;
    assert t.taken[k] == After(s, act).taken[k] == NextNumber(s.files);
    forall i | 0 <= i < k ensures s.taken[i] != NextNumber(s.files) {
      assert s.taken[i] == After(s, act).taken[i] == t.taken[i];
    }
  }

  lemma {:induction false} EachNumberIsOneCalls(s: Scene, acts: seq<Act>, t: Scene)
    requires Life(s, acts, t) && AllNew(t) && CallsAreTaken(s) && OneCallANumber(s)
    ensures OneCallANumber(t)
    decreases acts
  {
    hide FilesAfter, NextNumber, AllNew;
    if acts != [] {
      var next := After(s, acts[0]);
      TakenGrows(next, acts[1..], t);
      StepKeepsCallsTaken(s, acts[0]);
      if acts[0].Take? {
        TakesANewOne(s, acts[0], t);
      }
      EachNumberIsOneCalls(next, acts[1..], t);
    }
  }

  /** A conversion wrote the file of number n, and nothing has removed it since. */
  ghost predicate LeftStanding(files: Files, acts: seq<Act>, n: nat) {
    var touch := LastTouch(Start(files), acts, n);
    touch.Some? && touch.value.Wrote?
  }

  /**
   Whatever became of a conversion - done, failed, or not ended - its file is what the name resolves to exactly
   when it wrote one that was not removed since, and no later number's conversion has left a file standing.
   */
  lemma ConversionIsResolvedExactly(files: Files, acts: seq<Act>, t: Scene, c: Call)
    requires Life(Start(files), acts, t) && AllNew(t) && c in t.calls
    ensures Resolve(t.files, None) == Some(t.calls[c].number)
       <==> && LeftStanding(files, acts, t.calls[c].number)
            && forall d :: d in t.calls && LeftStanding(files, acts, t.calls[d].number) ==>
                 t.calls[d].number <= t.calls[c].number
    ensures LeftStanding(files, acts, t.calls[c].number) ==>
              var touch := LastTouch(Start(files), acts, t.calls[c].number).value;
              touch.call == c && FileAt(t.files, t.calls[c].number) == Some(touch.bytes)
  {
    hide Resolve, LastTouch, Life, HighWater, FileAt, OneCallANumber;
    var n := t.calls[c].number;
    ResolvedExactly(files, acts, t, c);
    LifeKeepsCallsTaken(Start(files), acts, t);
    TakenGrows(Start(files), acts, t);
    forall m | m > HighWater(files) ensures Stands(files, acts, m) <==> LeftStanding(files, acts, m) {
      NoFileThere(files, m);
    }
    forall m | LeftStanding(files, acts, m) ensures exists d :: d in t.calls && t.calls[d].number == m {
      LastTouchIsOneOf(Start(files), acts, t, m);
    }
    assert n > HighWater(files);
    FilesFollowTouches(Start(files), acts, t, n);
    OneOwner(files, acts, t, c);
  }

  lemma NoFileThere(files: Files, n: nat)
    requires n > HighWater(files)
    ensures FileAt(files, n) == None
  {
    assert n in files.numbered ==> n in VersionsOf(files).Keys;
  }

  lemma OneOwner(files: Files, acts: seq<Act>, t: Scene, c: Call)
    requires Life(Start(files), acts, t) && AllNew(t) && c in t.calls
    ensures LeftStanding(files, acts, t.calls[c].number) ==>
              LastTouch(Start(files), acts, t.calls[c].number).value.call == c
  {
    hide Life, AllNew, LastTouch, HighWater;
    EachNumberIsOneCalls(Start(files), acts, t);
    if LeftStanding(files, acts, t.calls[c].number) {
      LastTouchIsOneOf(Start(files), acts, t, t.calls[c].number);
    }
  }

  /** A conversion that writes its file and fails. */
  function FailedConversion(how: Marking, bytes: Bytes): seq<Act> {
    [Take(0), Mark(0, how), WriteTo(0, bytes), End(0, Failed, false)]
  }

  /** From every directory with a number left, the file of a failed conversion is what the name then resolves to. */
  lemma PartialFileIsResolved(files: Files, how: Marking, bytes: Bytes) returns (t: Scene)
    requires HighWater(files) < MAX_NUMBER
    ensures Life(Start(files), FailedConversion(how, bytes), t) && 0 in t.calls && t.calls[0].phase == Ended(Failed)
    ensures Resolve(t.files, None) == Some(t.calls[0].number)
    ensures FileAt(t.files, t.calls[0].number) == Some(bytes)
  {
    hide HighWater, VersionsOf, Largest;
    var acts := FailedConversion(how, bytes);
    var s1 := After(Start(files), acts[0]);
    var s2 := After(s1, acts[1]);
    var s3 := After(s2, acts[2]);
    t := After(s3, acts[3]);
    LifeEnds(acts, t);
    LifeFrom(s3, acts, 3, t);
    LifeFrom(s2, acts, 2, t);
    LifeFrom(s1, acts, 1, t);
    LifeFrom(Start(files), acts, 0, t);
    assert acts[0..] == acts;
    NewestIsResolved(files, t.files, NextNumber(files), bytes);
  }

  lemma NewestIsResolved(f: Files, h: Files, n: nat, bytes: Bytes)
    requires n > HighWater(f) && h.flat == f.flat && h.numbered == f.numbered[n := bytes]
    ensures Resolve(h, None) == Some(n)
  {
    hide Largest;
    assert forall m :: m in VersionsOf(f) ==> m in VersionsOf(f).Keys;
    assert VersionsOf(h).Keys == VersionsOf(f).Keys + {n};
    LargestIs(VersionsOf(h).Keys, n);
    NoneAboveHighWater(f);
  }

  lemma NoneAboveHighWater(f: Files)
    ensures forall m :: m in VersionsOf(f) ==> m <= HighWater(f)
  {
    assert forall m :: m in VersionsOf(f) ==> m in VersionsOf(f).Keys;
  }

  // ----- pinned reads -----

  /** No conversion that could still write has the number v. */
  ghost predicate Settled(s: Scene, v: nat) {
    forall c :: c in s.calls && s.calls[c].number == v ==> s.calls[c].phase.Ended?
  }

  ghost predicate Spent(s: Scene, v: nat) {
    v <= s.base || v in s.taken
  }

  /** A flat file that the numbered first version hides; deleting that version brings it to light as version 1. */
  predicate HidesFlat(f: Files, v: nat) {
    v == 1 && 1 in f.numbered && f.flat.Some?
  }

  lemma ActKeepsPinned(s: Scene, act: Act, v: nat)
    requires Possible(s, act) && Settled(s, v) && !HidesFlat(s.files, v) && (act.Take? ==> NextNumber(s.files) != v)
    ensures Settled(After(s, act), v) && !HidesFlat(FilesAfter(s, act), v)
    ensures var (before, after) := (VersionsOf(s.files), VersionsOf(FilesAfter(s, act)));
      && (v in after ==> v in before && after[v] == before[v])
      && (v in before && act != Delete(v) && act != Forget ==> v in after)
  {
    hide Largest, RemovingVersion, NextNumber;
    if act.Delete? && RemovingVersion(s.files, act.version).Ok? {
      DeletionKeepsOthers(s.files, act.version);
      DeletionTouches(s.files, act.version, 1);
      DeletionBringsNoFlat(s.files, act.version);
    }
  }

  lemma DeletionBringsNoFlat(f: Files, version: nat)
    requires RemovingVersion(f, version).Ok?
    ensures RemovingVersion(f, version).value.flat.Some? ==> f.flat.Some?
  {
    hide Largest, VersionsOf;
  }

  /** A version whose conversion has ended never turns into another model: later it is the same bytes, or gone. */
  lemma {:induction false} PinnedVersionNeverChanges(s: Scene, acts: seq<Act>, t: Scene, v: nat)
    requires Life(s, acts, t) && AllNew(t)
    requires Spent(s, v) && Settled(s, v) && !HidesFlat(s.files, v)
    ensures Settled(t, v)
    ensures v in VersionsOf(t.files) ==> v in VersionsOf(s.files) && VersionsOf(t.files)[v] == VersionsOf(s.files)[v]
    decreases acts
  {
    hide FilesAfter, CallsAfter, NextNumber, AllNew, Settled, VersionsOf, HidesFlat;
    if acts != [] {
      OnePinnedStep(s, acts, t, v);
      PinnedVersionNeverChanges(After(s, acts[0]), acts[1..], t, v);
    }
  }

  lemma OnePinnedStep(s: Scene, acts: seq<Act>, t: Scene, v: nat)
    requires acts != [] && Life(s, acts, t) && AllNew(t) && Spent(s, v) && Settled(s, v) && !HidesFlat(s.files, v)
    ensures var (next, before) := (After(s, acts[0]), VersionsOf(s.files));
      && Spent(next, v) && Settled(next, v) && !HidesFlat(next.files, v)
      && (v in VersionsOf(next.files) ==> v in before && VersionsOf(next.files)[v] == before[v])
      && (v in before && acts[0] != Delete(v) && acts[0] != Forget ==> v in VersionsOf(next.files))
  {
    hide FilesAfter, CallsAfter, NextNumber, AllNew, Settled, VersionsOf, HidesFlat;
    TakenGrows(After(s, acts[0]), acts[1..], t);
    if acts[0].Take? {
      TakesANewOne(s, acts[0], t);
    }
    ActKeepsPinned(s, acts[0], v);
  }

  /** A version nobody writes, deletes or forgets stays as it is, however many conversions and other deletions land. */
  lemma {:induction false} KeptVersionStays(s: Scene, acts: seq<Act>, t: Scene, v: nat)
    requires Life(s, acts, t) && AllNew(t)
    requires Spent(s, v) && Settled(s, v) && !HidesFlat(s.files, v)
    requires v in VersionsOf(s.files) && Delete(v) !in acts && Forget !in acts
    ensures v in VersionsOf(t.files) && VersionsOf(t.files)[v] == VersionsOf(s.files)[v]
    decreases acts
  {
    hide FilesAfter, CallsAfter, NextNumber, AllNew, Settled, VersionsOf, HidesFlat;
    if acts != [] {
      OnePinnedStep(s, acts, t, v);
      assert acts[0] in acts;
      KeptVersionStays(After(s, acts[0]), acts[1..], t, v);
    }
  }

  /** The file a cancelled conversion removed is gone for good: no later request resolves to its number. */
  lemma CancelledFileStaysGone(s: Scene, c: Call, acts: seq<Act>, t: Scene)
    requires CallsAreTaken(s) && OneCallANumber(s) && Possible(s, End(c, Cancelled, true))
    requires Life(After(s, End(c, Cancelled, true)), acts, t) && AllNew(t)
    ensures s.calls[c].number !in VersionsOf(t.files)
  {
    hide Largest, NextNumber, AllNew, Life;
    var (next, n) := (After(s, End(c, Cancelled, true)), s.calls[c].number);
    assert n !in VersionsOf(next.files) && Settled(next, n) && Spent(next, n);
    PinnedVersionNeverChanges(next, acts, t, n);
  }

  /** `t` comes after `s`, with new numbers and v left alone. */
  ghost predicate LaterWith(s: Scene, v: nat, t: Scene) {
    AllNew(t) && exists acts :: Life(s, acts, t) && Delete(v) !in acts && Forget !in acts
  }

  predicate CutBefore(cuts: seq<nat>, i: nat, total: nat)
    requires i + 1 < |cuts|
  {
    cuts[i] < cuts[i + 1] <= total
  }

  /** A reader's positions: from the start of the file to its end, each past the one before. */
  ghost predicate CutsUp(cuts: seq<nat>, total: nat) {
    && |cuts| > 0 && cuts[0] == 0 && cuts[|cuts| - 1] == total
    && forall i :: 0 <= i < |cuts| - 1 ==> cuts[i] < cuts[i + 1]
  }

  /** The bytes a reader of version v collects, one range from each of the moments it asks at. */
  function Collected(moments: seq<Scene>, v: nat, cuts: seq<nat>): Option<Bytes>
    requires |cuts| == |moments| + 1
  {
    if moments == [] then Some([])
    else
      var n := |moments| - 1;
      var before := Collected(moments[..n], v, cuts[..n + 1]);
      if cuts[n + 1] == 0 then None
      else
        var piece := Read(moments[n].files, Some(v), Wanted(Some(cuts[n]), Some(cuts[n + 1] - 1)));
        if before.None? || piece.Err? then None else Some(before.value + piece.value.bytes)
  }

  lemma {:induction false} CutsAscend(cuts: seq<nat>, total: nat, i: nat)
    requires CutsUp(cuts, total) && i < |cuts|
    ensures cuts[i] <= total
    decreases |cuts| - i
  {
    if i + 1 < |cuts| {
      CutsAscend(cuts, total, i + 1);
    }
  }

  /** A version that a reader may pin: spent, there, and with no conversion left that could write it. */
  ghost predicate Pinnable(s: Scene, v: nat) {
    Spent(s, v) && Settled(s, v) && !HidesFlat(s.files, v) && v in VersionsOf(s.files)
  }

  lemma {:induction false} CollectedSoFar(s: Scene, moments: seq<Scene>, v: nat, cuts: seq<nat>)
    requires Pinnable(s, v) && |cuts| == |moments| + 1
    requires forall i :: 0 <= i < |moments| ==> LaterWith(s, v, moments[i])
    requires cuts[0] == 0 && forall i :: 0 <= i < |moments| ==> CutBefore(cuts, i, |VersionsOf(s.files)[v]|)
    ensures cuts[|moments|] <= |VersionsOf(s.files)[v]|
    ensures Collected(moments, v, cuts) == Some(VersionsOf(s.files)[v][..cuts[|moments|]])
  {
    hide Spent, Settled, HidesFlat, VersionsOf, Life, Largest, AllNew;
    var bytes := VersionsOf(s.files)[v];
    if moments != [] {
      var n := |moments| - 1;
      var (front, upto) := (moments[..n], cuts[..n + 1]);
      forall i | 0 <= i < n ensures CutBefore(upto, i, |bytes|) {
        assert CutBefore(cuts, i, |bytes|);
      }
      CollectedSoFar(s, front, v, upto);
      assert LaterWith(s, v, moments[n]) && CutBefore(cuts, n, |bytes|);
      var acts :| Life(s, acts, moments[n]) && Delete(v) !in acts && Forget !in acts;
      KeptVersionStays(s, acts, moments[n], v);
      assert bytes[..cuts[n]] + bytes[cuts[n]..cuts[n + 1]] == bytes[..cuts[n + 1]];
    }
  }

  /** Ranges of one finished version, read end to end at whatever moments, are one file's bytes. */
  lemma PinnedReadsAreOneFile(s: Scene, moments: seq<Scene>, v: nat, cuts: seq<nat>)
    requires Pinnable(s, v) && |cuts| == |moments| + 1
    requires forall i :: 0 <= i < |moments| ==> LaterWith(s, v, moments[i])
    requires CutsUp(cuts, |VersionsOf(s.files)[v]|)
    ensures Collected(moments, v, cuts) == Some(VersionsOf(s.files)[v])
  {
    hide Spent, Settled, HidesFlat, LaterWith, VersionsOf;
    var bytes := VersionsOf(s.files)[v];
    forall i | 0 <= i < |moments| ensures CutBefore(cuts, i, |bytes|) {
      CutsAscend(cuts, |bytes|, i + 1);
    }
    CollectedSoFar(s, moments, v, cuts);
    assert bytes[..cuts[|moments|]] == bytes;
  }
}
