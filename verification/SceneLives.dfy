/**
 One scene's files under everything the server does to them, step by step. Taking a number and writing the mark
 are two steps, for no lock keeps one request's call apart from another's; conversions write, end and are
 cleaned up, and versions are deleted, in any interleaving.
 */
module SceneLives {
  import opened Options
  import opened SceneVersions

  type Call = nat

  datatype Outcome = Done | Failed | Cancelled

  datatype Phase = Numbered | Converting | Ended(outcome: Outcome)

  /** A call that has taken a number, and then the conversion it was taken for. */
  datatype Conversion = Conversion(number: nat, phase: Phase)

  datatype Act =
    | Take(call: Call)                                   // read the directory and the mark
    | Mark(call: Call, how: Marking)                     // write the mark, or fail to
    | WriteTo(call: Call, bytes: Bytes)                  // the converter writes its file
    | End(call: Call, outcome: Outcome, removed: bool)   // `removed`: a cancelled product was deleted
    | Delete(version: nat)
    | Forget
    | Draw                                               // a viewer stores a preview of the scene, if there is one

  /** Numbers up to `base` are spent before this life begins; `taken` are those taken in it, in order. */
  datatype Scene = Scene(files: Files, base: nat, taken: seq<nat>, calls: map<Call, Conversion>)

  function Start(files: Files): Scene {
    Scene(files, HighWater(files), [], map[])
  }

  predicate Possible(s: Scene, act: Act) {
    match act
    case Take(call) => call !in s.calls
    case Mark(call, _) => call in s.calls && s.calls[call].phase == Numbered
    case WriteTo(call, _) => call in s.calls && s.calls[call].phase == Converting
    case End(call, outcome, removed) =>
      call in s.calls && s.calls[call].phase == Converting && (removed ==> outcome == Cancelled)
    case Delete(_) => true
    case Forget => true
    case Draw => true
  }

  function FilesAfter(s: Scene, act: Act): Files
    requires Possible(s, act)
  {
    match act
    case Take(_) => s.files
    case Mark(call, how) => Marked(s.files, s.calls[call].number, how)
    case WriteTo(call, bytes) => s.files.(numbered := s.files.numbered[s.calls[call].number := bytes])
    case End(call, outcome, removed) =>
      // A removal takes the conversion's own file; a conversion that is done drops the preview.
      var left := if removed then s.files.numbered - {s.calls[call].number} else s.files.numbered;
      s.files.(numbered := left, preview := s.files.preview && outcome != Done)
    case Delete(version) =>
      var after := RemovingVersion(s.files, version);
      if after.Ok? then after.value else s.files
    case Forget => if VersionsOf(s.files) == map[] then s.files else Removing(s.files)
    case Draw => if VersionsOf(s.files) == map[] then s.files else s.files.(preview := true)
  }

  function CallsAfter(s: Scene, act: Act): map<Call, Conversion>
    requires Possible(s, act)
  {
    match act
    case Take(call) => s.calls[call := Conversion(NextNumber(s.files), Numbered)]
    case Mark(call, _) => s.calls[call := s.calls[call].(phase := Converting)]
    case End(call, outcome, _) => s.calls[call := s.calls[call].(phase := Ended(outcome))]
    case _ => s.calls
  }

  function After(s: Scene, act: Act): Scene
    requires Possible(s, act)
  {
    Scene(FilesAfter(s, act), s.base, s.taken + if act.Take? then [NextNumber(s.files)] else [], CallsAfter(s, act))
  }

  ghost predicate Life(s: Scene, acts: seq<Act>, t: Scene)
    decreases acts
  {
    if acts == [] then s == t
    else Possible(s, acts[0]) && Life(After(s, acts[0]), acts[1..], t)
  }

  // ----- when every number is new -----

  /** Every number taken is past those spent before, and none was taken twice. */
  ghost predicate AllNew(s: Scene) {
    && (forall i :: 0 <= i < |s.taken| ==> s.base < s.taken[i])
    && AllDistinct(s)
  }

  ghost predicate AllDistinct(s: Scene) {
    forall i, j :: 0 <= i < j < |s.taken| ==> s.taken[i] != s.taken[j]
  }

  /** The number spent last. */
  function LastSpent(s: Scene): nat {
    if s.taken == [] then s.base else s.taken[|s.taken| - 1]
  }

  /** The directory shows the last number: it is in the mark, or a version by that number is there. */
  predicate ShowsTheLast(s: Scene) {
    LastSpent(s) == 0 || MarkOf(s.files) == LastSpent(s) || LastSpent(s) in VersionsOf(s.files)
  }

  /** At every taking of a number the directory shows the last one, and the numbers have not run out. */
  ghost predicate TakesWhereShown(s: Scene, acts: seq<Act>)
    decreases acts
  {
    acts == [] || !Possible(s, acts[0])
    || ((acts[0].Take? ==> ShowsTheLast(s) && LastSpent(s) < MAX_NUMBER)
        && TakesWhereShown(After(s, acts[0]), acts[1..]))
  }

  /** While every number is new they follow one another, and nothing on disk states a larger one. */
  ghost predicate InSequence(s: Scene) {
    && (forall i :: 0 <= i < |s.taken| ==> s.taken[i] == s.base + 1 + i)
    && (forall n :: n in VersionsOf(s.files) ==> n <= LastSpent(s))
    && MarkOf(s.files) <= LastSpent(s)
    && (forall c :: c in s.calls ==> s.calls[c].number <= LastSpent(s))
  }

  lemma StartsInSequence(files: Files)
    ensures InSequence(Start(files))
  {
    forall n | n in VersionsOf(files) ensures n <= HighWater(files) {
      assert n in VersionsOf(files).Keys;
    }
  }

  lemma HighWaterBound(f: Files, bound: nat)
    requires MarkOf(f) <= bound && forall n :: n in VersionsOf(f) ==> n <= bound
    ensures HighWater(f) <= bound
    ensures HighWater(f) == bound <==> bound == 0 || MarkOf(f) == bound || bound in VersionsOf(f)
  {
    var keys := VersionsOf(f).Keys;
    assert keys != {} ==> Largest(keys) in VersionsOf(f);
    assert bound in VersionsOf(f) ==> bound in keys;
  }

  /**
   The next number is the one after the last exactly when the directory shows the last; otherwise it is a spent one.
   */
  lemma NextInSequence(s: Scene)
    requires InSequence(s)
    ensures NextNumber(s.files) == LastSpent(s) + 1 <==> ShowsTheLast(s) && LastSpent(s) < MAX_NUMBER
    ensures NextNumber(s.files) != LastSpent(s) + 1 ==> NextNumber(s.files) <= LastSpent(s)
    ensures LastSpent(s) == s.base + |s.taken|
  {
    hide HighWater, VersionsOf, MarkOf;
    HighWaterBound(s.files, LastSpent(s));
  }

  lemma VersionsAfter(s: Scene, act: Act, n: nat)
    requires Possible(s, act) && n in VersionsOf(FilesAfter(s, act))
    ensures n in VersionsOf(s.files) || (act.WriteTo? && n == s.calls[act.call].number)
  {
    hide Largest, HighWater;
    if act.Delete? && RemovingVersion(s.files, act.version).Ok? {
      hide RemovingVersion;
      DeletionKeepsOthers(s.files, act.version);
    }
  }

  lemma MarkAfter(s: Scene, act: Act)
    requires Possible(s, act)
    ensures MarkOf(FilesAfter(s, act)) == MarkOf(s.files)
         || (act.Mark? && act.how == Written && MarkOf(FilesAfter(s, act)) == s.calls[act.call].number)
         || ((act.Mark? || act.Forget?) && MarkOf(FilesAfter(s, act)) == 0)
  {
    hide Largest, HighWater, VersionsOf;
    if act.Delete? && RemovingVersion(s.files, act.version).Ok? {
      MarkSurvivesDeletion(s.files, act.version);
    }
  }

  lemma MarkSurvivesDeletion(f: Files, version: nat)
    requires RemovingVersion(f, version).Ok?
    ensures RemovingVersion(f, version).value.mark == f.mark
  {
    hide Largest, VersionsOf;
  }

  /** A step that takes no number, or takes the next in sequence, leaves the numbers in sequence. */
  lemma StepKeepsSequence(s: Scene, act: Act)
    requires InSequence(s) && Possible(s, act)
    requires act.Take? ==> NextNumber(s.files) == LastSpent(s) + 1
    ensures InSequence(After(s, act))
  {
    hide NextNumber, FilesAfter, VersionsOf, MarkOf;
    var t := After(s, act);
    forall n | n in VersionsOf(t.files) ensures n <= LastSpent(t) {
      VersionsAfter(s, act, n);
    }
    MarkAfter(s, act);
  }

  /** The taken numbers of a later scene begin with those of an earlier one. */
  lemma {:induction false} TakenGrows(s: Scene, acts: seq<Act>, t: Scene)
    requires Life(s, acts, t)
    ensures t.base == s.base && s.taken <= t.taken
    decreases acts
  {
    hide FilesAfter, CallsAfter, Possible, NextNumber;
    if acts != [] {
      TakenGrows(After(s, acts[0]), acts[1..], t);
    }
  }

  lemma SequenceIsNew(s: Scene)
    requires InSequence(s)
    ensures AllNew(s)
  {
  }

  /** A number that does not continue the sequence is one of those before. */
  lemma OutOfSequenceIsOld(s: Scene, act: Act, t: Scene)
    requires InSequence(s) && Possible(s, act) && act.Take? && NextNumber(s.files) <= LastSpent(s)
    requires t.base == s.base && After(s, act).taken <= t.taken
    ensures !AllNew(t)
    ensures s.base < NextNumber(s.files) ==> !AllDistinct(t)
  {
    hide NextNumber, FilesAfter, CallsAfter, VersionsOf, MarkOf;
    var (k, n) := (|s.taken|, NextNumber(s.files));
    assert t.taken[k] == After(s, act).taken[k] == n;
    if s.base < n {
      var i := n - s.base - 1;
      assert t.taken[i] == After(s, act).taken[i] == s.taken[i];
    }
  }

  lemma {:induction false} NewFromHere(s: Scene, acts: seq<Act>, t: Scene)
    requires InSequence(s) && Life(s, acts, t)
    ensures AllNew(t) <==> TakesWhereShown(s, acts)
    ensures TakesWhereShown(s, acts) ==> InSequence(t)
    decreases acts
  {
    hide InSequence, AllNew, FilesAfter, CallsAfter, Possible, NextNumber, ShowsTheLast, LastSpent;
    if acts == [] {
      SequenceIsNew(s);
    } else {
      var (act, next) := (acts[0], After(s, acts[0]));
      NextInSequence(s);
      if act.Take? && !(ShowsTheLast(s) && LastSpent(s) < MAX_NUMBER) {
        TakenGrows(next, acts[1..], t);
        OutOfSequenceIsOld(s, act, t);
      } else {
        StepKeepsSequence(s, act);
        NewFromHere(next, acts[1..], t);
      }
    }
  }

  /**
   In every interleaving of any number of calls, conversions and deletions, from any directory, with marks that
   are written, refused or emptied: every number is new exactly when each is taken while the directory shows
   the number taken before it, and they do not run out.
   */
  lemma NumbersAreNewExactly(files: Files, acts: seq<Act>, t: Scene)
    requires Life(Start(files), acts, t)
    ensures AllNew(t) <==> TakesWhereShown(Start(files), acts)
  {
    StartsInSequence(files);
    NewFromHere(Start(files), acts, t);
  }

  // ----- calls in turn -----

  /** No call takes a number between another call's taking and its mark; `pending` are between the two already. */
  predicate InTurn(pending: set<Call>, acts: seq<Act>)
    decreases |acts|
  {
    acts == []
    || match acts[0]
       case Take(call) => pending == {} && InTurn({call}, acts[1..])
       case Mark(call, _) => InTurn(pending - {call}, acts[1..])
       case _ => InTurn(pending, acts[1..])
  }

  /** Every mark is written, and the scene is not forgotten. */
  predicate MarksAreWritten(acts: seq<Act>) {
    forall i :: 0 <= i < |acts| ==> acts[i] != Forget && (acts[i].Mark? ==> acts[i].how == Written)
  }

  /** The numbers spent before this life are in the mark, or the version by the last of them is there. */
  predicate Covers(s: Scene) {
    s.base <= MarkOf(s.files) || s.base in VersionsOf(s.files)
  }

  /** That is so whenever a number is taken. */
  ghost predicate TakesWhereCovered(s: Scene, acts: seq<Act>)
    decreases acts
  {
    acts == [] || !Possible(s, acts[0])
    || ((acts[0].Take? ==> Covers(s)) && TakesWhereCovered(After(s, acts[0]), acts[1..]))
  }

  /** The last number marked, in this life or before. */
  function LastMarked(s: Scene): nat {
    if s.base <= MarkOf(s.files) then MarkOf(s.files) else s.base
  }

  /** Between calls the last number marked is the last one spent, and within one call it is the number before. */
  ghost predicate MarkKeepsUp(s: Scene, pending: set<Call>) {
    var mark := LastMarked(s);
    && InSequence(s)
    && (forall n :: n in VersionsOf(s.files) ==> n <= mark)
    && (forall c :: c in s.calls && s.calls[c].phase != Numbered ==> s.calls[c].number <= mark)
    && (forall c :: c in s.calls && s.calls[c].phase == Numbered ==> c in pending && s.calls[c].number == mark + 1)
    && LastSpent(s) == (if pending == {} then mark else mark + 1)
    && (pending != {} ==> LastSpent(s) <= MAX_NUMBER)
    && forall c, d :: c in pending && d in pending ==> c == d
  }

  function PendingAfter(pending: set<Call>, act: Act): set<Call> {
    match act
    case Take(call) => {call}
    case Mark(call, _) => pending - {call}
    case _ => pending
  }

  lemma StepKeepsUp(s: Scene, pending: set<Call>, act: Act)
    requires MarkKeepsUp(s, pending) && Possible(s, act) && MarksAreWritten([act])
    requires act.Take? ==> pending == {} && LastSpent(s) < MAX_NUMBER && Covers(s)
    ensures MarkKeepsUp(After(s, act), PendingAfter(pending, act))
  {
    hide NextNumber, FilesAfter, VersionsOf, MarkOf;
    var t := After(s, act);
    assert [act][0] == act;
    NextInSequence(s);
    StepKeepsSequence(s, act);
    MarkAfter(s, act);
    if act.Mark? {
      MarkWritten(s, act);
    }
    forall n | n in VersionsOf(t.files) ensures n <= LastMarked(t) {
      VersionsAfter(s, act, n);
    }
  }

  lemma MarkWritten(s: Scene, act: Act)
    requires Possible(s, act) && act.Mark? && act.how == Written
    ensures MarkOf(FilesAfter(s, act)) == s.calls[act.call].number
  {
  }

  /** The numbers taken from here on do not run past the largest there is. */
  predicate HasRoom(s: Scene, t: Scene) {
    |t.taken| == |s.taken| || t.base + |t.taken| <= MAX_NUMBER
  }

  lemma OutOfTurnIsOld(s: Scene, pending: set<Call>, act: Act, t: Scene)
    requires MarkKeepsUp(s, pending) && Possible(s, act) && act.Take? && pending != {}
    requires Covers(s)
    requires t.base == s.base && After(s, act).taken <= t.taken
    ensures !AllNew(t) && !AllDistinct(t)
  {
    hide NextNumber, FilesAfter, CallsAfter, HighWater;
    NextInSequence(s);
    assert LastSpent(s) !in VersionsOf(s.files);
    NextIsPast(s.files, LastMarked(s));
    OutOfSequenceIsOld(s, act, t);
  }

  lemma NextIsPast(f: Files, n: nat)
    requires n <= MarkOf(f) || n in VersionsOf(f)
    ensures n < MAX_NUMBER ==> n < NextNumber(f)
    ensures n >= MAX_NUMBER ==> NextNumber(f) == MAX_NUMBER
  {
    assert n in VersionsOf(f) ==> n in VersionsOf(f).Keys;
  }

  /** Without it the next number is a spent one. */
  lemma UncoveredIsOld(s: Scene, pending: set<Call>, act: Act, t: Scene)
    requires MarkKeepsUp(s, pending) && Possible(s, act) && act.Take? && !Covers(s)
    requires t.base == s.base && After(s, act).taken <= t.taken
    ensures !AllNew(t)
  {
    hide NextNumber, FilesAfter, CallsAfter, HighWater, VersionsOf, MarkOf;
    NextInSequence(s);
    OutOfSequenceIsOld(s, act, t);
  }

  lemma NoRoomIsOld(s: Scene, pending: set<Call>, act: Act, t: Scene)
    requires MarkKeepsUp(s, pending) && Possible(s, act) && act.Take? && LastSpent(s) >= MAX_NUMBER
    requires t.base == s.base && After(s, act).taken <= t.taken
    ensures !AllNew(t) && !HasRoom(s, t)
  {
    hide NextNumber, FilesAfter, CallsAfter, VersionsOf, MarkOf;
    NextInSequence(s);
    OutOfSequenceIsOld(s, act, t);
  }

  lemma {:induction false} NewFromHereInTurn(s: Scene, pending: set<Call>, acts: seq<Act>, t: Scene)
    requires MarkKeepsUp(s, pending) && Life(s, acts, t) && MarksAreWritten(acts)
    ensures AllNew(t) <==> InTurn(pending, acts) && HasRoom(s, t) && TakesWhereCovered(s, acts)
    ensures HasRoom(s, t) && TakesWhereCovered(s, acts) ==> (AllDistinct(t) <==> InTurn(pending, acts))
    decreases acts
  {
    hide MarkKeepsUp, AllNew, AllDistinct, FilesAfter, CallsAfter, Possible, NextNumber, LastSpent, Covers;
    if acts == [] {
      KeepingUpIsNew(s, pending);
    } else {
      var (act, next) := (acts[0], After(s, acts[0]));
      TakenGrows(next, acts[1..], t);
      MarksOfRest(acts);
      if act.Take? && !Covers(s) {
        UncoveredIsOld(s, pending, act, t);
      } else if act.Take? && pending != {} {
        OutOfTurnIsOld(s, pending, act, t);
      } else if act.Take? && LastSpent(s) >= MAX_NUMBER {
        NoRoomIsOld(s, pending, act, t);
      } else {
        StepKeepsUp(s, pending, act);
        NewFromHereInTurn(next, PendingAfter(pending, act), acts[1..], t);
        RoomForOne(s, pending, act, t);
      }
    }
  }

  lemma KeepingUpIsNew(s: Scene, pending: set<Call>)
    requires MarkKeepsUp(s, pending)
    ensures AllNew(s)
  {
    SequenceIsNew(s);
  }

  lemma MarksOfRest(acts: seq<Act>)
    requires MarksAreWritten(acts) && acts != []
    ensures MarksAreWritten([acts[0]]) && MarksAreWritten(acts[1..])
  {
  }

  lemma RoomForOne(s: Scene, pending: set<Call>, act: Act, t: Scene)
    requires MarkKeepsUp(s, pending) && Possible(s, act) && (act.Take? ==> LastSpent(s) < MAX_NUMBER)
    requires t.base == s.base && After(s, act).taken <= t.taken
    ensures HasRoom(s, t) <==> HasRoom(After(s, act), t)
  {
    hide NextNumber, FilesAfter, CallsAfter, VersionsOf, MarkOf;
    NextInSequence(s);
  }

  /**
   With every mark written, from any directory, and whatever is written, cleaned up and deleted in between: the
   numbers are new exactly when no call takes one between another's taking and mark, they do not run out, and a
   newest version that the mark did not cover at the start is not deleted before a number is taken and marked.
   But for these two, out of turn is exactly when two calls get one number.
   */
  lemma NumbersAreDistinctExactlyInTurn(files: Files, acts: seq<Act>, t: Scene)
    requires Life(Start(files), acts, t) && MarksAreWritten(acts)
    ensures AllNew(t)
       <==> InTurn({}, acts) && HasRoom(Start(files), t) && TakesWhereCovered(Start(files), acts)
    ensures HasRoom(Start(files), t) && TakesWhereCovered(Start(files), acts)
        ==> (AllDistinct(t) <==> InTurn({}, acts))
  {
    StartsInSequence(files);
    NewFromHereInTurn(Start(files), {}, acts, t);
  }

  /** The mark covers the numbers spent before, or nothing has been marked yet and there is only the one version. */
  ghost predicate CoveredForGood(s: Scene) {
    && (forall c :: c in s.calls ==> s.base <= s.calls[c].number)
    && (s.base <= MarkOf(s.files)
        || (VersionsOf(s.files).Keys == {s.base} && forall c :: c in s.calls ==> s.calls[c].phase == Numbered))
  }

  lemma OnlyVersionStays(f: Files, version: nat, n: nat)
    requires VersionsOf(f).Keys == {n}
    ensures RemovingVersion(f, version).Err?
  {
    assert |VersionsOf(f)| == |VersionsOf(f).Keys| == 1;
  }

  lemma OneVersionAfter(s: Scene, act: Act)
    requires Possible(s, act) && act != Forget && !act.Mark? && VersionsOf(s.files).Keys == {s.base}
    requires forall c :: c in s.calls ==> s.calls[c].phase == Numbered
    ensures VersionsOf(FilesAfter(s, act)) == VersionsOf(s.files)
  {
    if act.Delete? {
      OnlyVersionStays(s.files, act.version, s.base);
    }
  }

  lemma StepKeepsCovered(s: Scene, act: Act)
    requires CoveredForGood(s) && Possible(s, act) && MarksAreWritten([act]) && s.base <= MAX_NUMBER
    ensures CoveredForGood(After(s, act))
  {
    hide NextNumber, FilesAfter, VersionsOf, MarkOf;
    assert [act][0] == act;
    MarkAfter(s, act);
    if act.Take? {
      NextIsPast(s.files, s.base);
    }
    if act.Mark? {
      MarkWritten(s, act);
    } else if s.base > MarkOf(s.files) {
      OneVersionAfter(s, act);
    }
  }

  lemma {:induction false} StaysCovered(s: Scene, acts: seq<Act>, t: Scene)
    requires CoveredForGood(s) && Life(s, acts, t) && MarksAreWritten(acts) && s.base <= MAX_NUMBER
    ensures TakesWhereCovered(s, acts)
    decreases acts
  {
    hide CoveredForGood, FilesAfter, CallsAfter, Possible, NextNumber;
    if acts != [] {
      MarksOfRest(acts);
      CoveredNow(s);
      StepKeepsCovered(s, acts[0]);
      StaysCovered(After(s, acts[0]), acts[1..], t);
    }
  }

  lemma CoveredNow(s: Scene)
    requires CoveredForGood(s)
    ensures Covers(s)
  {
    assert VersionsOf(s.files).Keys == {s.base} ==> s.base in VersionsOf(s.files);
  }

  /**
   It never is deleted that early where the mark covers the versions, and where there is just one version, as in
   a directory from before there were numbers: then the numbers are new exactly in turn, until they run out.
   */
  lemma NumbersAreNewExactlyInTurn(files: Files, acts: seq<Act>, t: Scene)
    requires HighWater(files) <= MAX_NUMBER && (MarkOf(files) == HighWater(files) || |VersionsOf(files)| == 1)
    requires Life(Start(files), acts, t) && MarksAreWritten(acts)
    ensures AllNew(t) <==> InTurn({}, acts) && HasRoom(Start(files), t)
    ensures HasRoom(Start(files), t) ==> (AllDistinct(t) <==> InTurn({}, acts))
  {
    NumbersAreDistinctExactlyInTurn(files, acts, t);
    StartsCovered(files);
    StaysCovered(Start(files), acts, t);
  }

  lemma StartsCovered(files: Files)
    requires MarkOf(files) == HighWater(files) || |VersionsOf(files)| == 1
    ensures CoveredForGood(Start(files))
  {
    if HighWater(files) > MarkOf(files) {
      var keys := VersionsOf(files).Keys;
      assert |keys| == |VersionsOf(files)|;
      assert HighWater(files) == Largest(keys) && Largest(keys) in keys;
      OnlyOne(keys, HighWater(files));
    }
  }

  lemma OnlyOne(s: set<nat>, n: nat)
    requires |s| == 1 && n in s
    ensures s == {n}
  {
    assert |s - {n}| == 0;
  }

  /**
   The next number is past every number spent and every version there is, exactly when the directory shows the last.
   */
  lemma NumbersAreNeverReused(files: Files, acts: seq<Act>, t: Scene)
    requires Life(Start(files), acts, t) && AllNew(t)
    ensures (forall n :: n <= t.base || n in t.taken || n in VersionsOf(t.files) ==> n < NextNumber(t.files))
       <==> ShowsTheLast(t) && LastSpent(t) < MAX_NUMBER
  {
    hide AllNew, NextNumber, HighWater, VersionsOf, MarkOf;
    StartsInSequence(files);
    NewFromHere(Start(files), acts, t);
    NextInSequence(t);
    assert LastSpent(t) <= t.base || LastSpent(t) in t.taken;
  }

  /** A slow call that writes its mark after two others. */
  function LateMarks(): seq<Act> {
    [Take(0), Take(1), Mark(1, Written), Take(2), Mark(2, Written), Mark(0, Written), Take(3)]
  }

  /**
   What overlapping costs outlasts it: the last call here is in turn, and gets the number of one that was in turn too.
   */
  lemma LateMarkReusesANumber(files: Files) returns (t: Scene)
    requires HighWater(files) < MAX_NUMBER - 1
    ensures Life(Start(files), LateMarks(), t)
    ensures var h := HighWater(files); t.taken == [h + 1, h + 1, h + 2, h + 2]
  {
    hide HighWater, VersionsOf, NextNumber, FilesAfter, CallsAfter, After, Possible, Life;
    var h := HighWater(files);
    var (one, two) := (files.(mark := Some(h + 1)), files.(mark := Some(h + 2)));
    MarkedNext(files, h + 1);
    MarkedNext(files, h + 2);
    var s1 := TakeStep(Start(files), 0, h + 1);
    var s2 := TakeStep(s1, 1, h + 1);
    var s3 := MarkStep(s2, 1, h + 1);
    var s4 := TakeStep(s3, 2, h + 2);
    var s5 := MarkStep(s4, 2, h + 2);
    var s6 := MarkStep(s5, 0, h + 1);
    assert s6.files == one;
    t := TakeStep(s6, 3, h + 2);
    SevenSteps(Start(files), s1, s2, s3, s4, s5, s6, t);
  }

  lemma SevenSteps(s0: Scene, s1: Scene, s2: Scene, s3: Scene, s4: Scene, s5: Scene, s6: Scene, t: Scene)
    requires Possible(s0, Take(0)) && s1 == After(s0, Take(0)) && Possible(s1, Take(1)) && s2 == After(s1, Take(1))
    requires Possible(s2, Mark(1, Written)) && s3 == After(s2, Mark(1, Written))
    requires Possible(s3, Take(2)) && s4 == After(s3, Take(2))
    requires Possible(s4, Mark(2, Written)) && s5 == After(s4, Mark(2, Written))
    requires Possible(s5, Mark(0, Written)) && s6 == After(s5, Mark(0, Written))
    requires Possible(s6, Take(3)) && t == After(s6, Take(3))
    ensures Life(s0, LateMarks(), t)
  {
    hide After, Possible, Life, LateMarks;
    var acts := LateMarks();
    LateMarksAre();
    LifeEnds(acts, t);
    LifeFrom(s6, acts, 6, t);
    LifeFrom(s5, acts, 5, t);
    LifeFrom(s4, acts, 4, t);
    LifeFrom(s3, acts, 3, t);
    LifeFrom(s2, acts, 2, t);
    LifeFrom(s1, acts, 1, t);
    LifeFrom(s0, acts, 0, t);
    assert acts[0..] == acts;
  }

  lemma LateMarksAre()
    ensures var acts := LateMarks();
      && |acts| == 7 && acts[0] == Take(0) && acts[1] == Take(1) && acts[2] == Mark(1, Written) && acts[3] == Take(2)
      && acts[4] == Mark(2, Written) && acts[5] == Mark(0, Written) && acts[6] == Take(3)
  {
  }

  lemma TakeStep(s: Scene, call: Call, n: nat) returns (t: Scene)
    requires call !in s.calls && NextNumber(s.files) == n
    ensures Possible(s, Take(call)) && t == After(s, Take(call))
    ensures t == Scene(s.files, s.base, s.taken + [n], s.calls[call := Conversion(n, Numbered)])
  {
    hide NextNumber;
    t := After(s, Take(call));
  }

  lemma MarkStep(s: Scene, call: Call, n: nat) returns (t: Scene)
    requires call in s.calls && s.calls[call] == Conversion(n, Numbered)
    ensures Possible(s, Mark(call, Written)) && t == After(s, Mark(call, Written))
    ensures t == Scene(s.files.(mark := Some(n)), s.base, s.taken, s.calls[call := Conversion(n, Converting)])
  {
    hide NextNumber;
    t := After(s, Mark(call, Written));
    assert s.taken + [] == s.taken;
  }

  /** Behind a mark as large as any version the next number is the one after the mark. */
  lemma MarkedNext(f: Files, number: nat)
    requires HighWater(f) <= number <= MAX_NUMBER
    ensures NextNumber(f.(mark := Some(number))) == if number < MAX_NUMBER then number + 1 else MAX_NUMBER
    ensures HighWater(f) < MAX_NUMBER ==> NextNumber(f) == HighWater(f) + 1
  {
    assert VersionsOf(f.(mark := Some(number))) == VersionsOf(f);
  }

  lemma LifeEnds(acts: seq<Act>, s: Scene)
    ensures Life(s, acts[|acts|..], s)
  {
  }

  lemma LifeFrom(s: Scene, acts: seq<Act>, k: nat, t: Scene)
    requires k < |acts| && Possible(s, acts[k]) && Life(After(s, acts[k]), acts[k + 1..], t)
    ensures Life(s, acts[k..], t)
  {
    assert acts[k..][1..] == acts[k + 1..];
  }
}
