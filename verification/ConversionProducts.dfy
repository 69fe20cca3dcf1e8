/**
 What conversions leave on disk. Scenes are written to paths of their own, but all exports of one name share a
 path, so what a job reported as done can be written over, or removed by the follower of a cancelled one.
 */
module ConversionProducts {
  import opened Options
  import opened ConversionJob
  import opened ConversionService

  datatype Touch = Wrote(length: nat) | Removed

  /** What a step does to the file at a path: a converter writes it, or a cancelled conversion's follower removes it. */
  function TouchOf(s: Service, e: Event, path: string): Option<Touch>
    requires Enabled(s, e)
  {
    if e.Announce? || s.all[e.id].path != path then None
    else if e.Write? then Some(Wrote(e.length))
    else if e.Settle? && e.removes && s.all[e.id].record.state == Cancelled then Some(Removed)
    else None
  }

  /** The last of these along a run. */
  function LastTouch(s: Service, events: seq<Event>, path: string): Option<Touch>
    decreases events
  {
    if events == [] || !Enabled(s, events[0]) then None
    else
      var later := LastTouch(Apply(s, events[0]), events[1..], path);
      if later.Some? then later else TouchOf(s, events[0], path)
  }

  function Touched(touch: Option<Touch>, length: Option<nat>): Option<nat> {
    match touch
    case None => length
    case Some(Wrote(n)) => Some(n)
    case Some(Removed) => None
  }

  lemma OneTouch(s: Service, e: Event, path: string)
    requires Enabled(s, e)
    ensures LengthOf(Apply(s, e).files, path) == Touched(TouchOf(s, e, path), LengthOf(s.files, path))
  {
    hide Move, EnabledFor;
  }

  /** The file at a path is the one last written there, unless it has been removed since. */
  lemma {:induction false} FilesFollowTouches(s: Service, events: seq<Event>, t: Service, path: string)
    requires Run(s, events, t)
    ensures LengthOf(t.files, path) == Touched(LastTouch(s, events, path), LengthOf(s.files, path))
    decreases events
  {
    hide Apply, Enabled, TouchOf, LengthOf;
    if events != [] {
      OneTouch(s, events[0], path);
      FilesFollowTouches(Apply(s, events[0]), events[1..], t, path);
    }
  }

  /** The last touch of a path after conversion `id` was settled. */
  function TouchSinceSettled(s: Service, events: seq<Event>, id: Id, path: string): Option<Touch>
    decreases events
  {
    if events == [] || !Enabled(s, events[0]) then None
    else
      var next := Apply(s, events[0]);
      if events[0].Settle? && events[0].id == id then LastTouch(next, events[1..], path)
      else TouchSinceSettled(next, events[1..], id, path)
  }

  predicate NotSettled(s: Service, id: Id) {
    id in s.all ==> !Ran(s.all[id].phase)
  }

  lemma OnlySettlingSettles(s: Service, e: Event, id: Id)
    requires Enabled(s, e) && NotSettled(s, id) && !(e.Settle? && e.id == id)
    ensures NotSettled(Apply(s, e), id)
  {
  }

  lemma PathsStay(s: Service, e: Event, id: Id)
    requires Enabled(s, e) && id in s.all
    ensures id in Apply(s, e).all && Apply(s, e).all[id].path == s.all[id].path
  {
    hide EnabledFor, FilesAfter;
  }

  lemma {:induction false} PathsStayAlong(s: Service, events: seq<Event>, t: Service, id: Id)
    requires Run(s, events, t) && id in s.all
    ensures id in t.all && t.all[id].path == s.all[id].path
    decreases events
  {
    hide Apply, Enabled;
    if events != [] {
      PathsStay(s, events[0], id);
      PathsStayAlong(Apply(s, events[0]), events[1..], t, id);
    }
  }

  /** What the last critical section leaves behind: a done job measured, a cancelled one's product removed or not. */
  lemma SettledAt(s: Service, e: Event)
    requires Inv(s) && Enabled(s, e) && e.Settle?
    ensures var (before, c, path) := (s.all[e.id].record.state, Apply(s, e).all[e.id], s.all[e.id].path);
      && c.record.state != Running
      && (before == Cancelled <==> c.record.state == Cancelled)
      && (c.record.state == Done ==> c.record.produced == LengthOf(Apply(s, e).files, path))
      && (c.record.state == Cancelled && !c.leftBehind ==> LengthOf(Apply(s, e).files, path) == None)
  {
    assert Sound(s.all[e.id], e.id);
  }

  lemma MoveKeepsLeavings(s: Service, e: Event, c: Conversion, length: Option<nat>)
    requires Sound(c, e.id) && !e.Announce? && EnabledFor(s, e, c) && Ran(c.phase)
    ensures Ran(Move(c, e, length).phase) && Move(c, e, length).leftBehind == c.leftBehind
  {
  }

  lemma LeavingsStay(s: Service, e: Event, id: Id)
    requires Inv(s) && Enabled(s, e) && id in s.all && Ran(s.all[id].phase)
    ensures id in Apply(s, e).all
    ensures Ran(Apply(s, e).all[id].phase) && Apply(s, e).all[id].leftBehind == s.all[id].leftBehind
  {
    hide FilesAfter, Move, EnabledFor, Sound;
    if e.id == id {
      MoveKeepsLeavings(s, e, s.all[id], LengthOf(s.files, s.all[id].path));
    }
  }

  lemma {:induction false} LeavingsStayAlong(s: Service, events: seq<Event>, t: Service, id: Id)
    requires Inv(s) && Run(s, events, t) && id in s.all && Ran(s.all[id].phase)
    ensures id in t.all && t.all[id].leftBehind == s.all[id].leftBehind
    decreases events
  {
    hide Apply, Enabled, Inv;
    if events != [] {
      LeavingsStay(s, events[0], id);
      StepKeepsInv(s, events[0]);
      LeavingsStayAlong(Apply(s, events[0]), events[1..], t, id);
    }
  }

  lemma SettledHasRun(s: Service, e: Event)
    requires Enabled(s, e) && e.Settle?
    ensures Ran(Apply(s, e).all[e.id].phase)
  {
  }

  /** The file at the path of a settled conversion, told from what its own settling left there. */
  lemma {:induction false} FileSinceSettled(s: Service, events: seq<Event>, t: Service, id: Id)
    requires Inv(s) && Run(s, events, t) && NotSettled(s, id) && id in t.all && Ran(t.all[id].phase)
    ensures var (c, touch) := (t.all[id], TouchSinceSettled(s, events, id, t.all[id].path));
      && (c.record.state == Done ==> LengthOf(t.files, c.path) == Touched(touch, c.record.produced))
      && (c.record.state == Cancelled && !c.leftBehind ==> LengthOf(t.files, c.path) == Touched(touch, None))
    decreases events
  {
    hide Apply, Enabled, Inv, LengthOf, LastTouch;
    if events != [] {
      var (e, next) := (events[0], Apply(s, events[0]));
      StepKeepsInv(s, e);
      if e.Settle? && e.id == id {
        StepDomain(s, e);
        SettledAt(s, e);
        SettledHasRun(s, e);
        PathsStay(s, e, id);
        PathsStayAlong(next, events[1..], t, id);
        TerminalForever(next, events[1..], t, id);
        LeavingsStayAlong(next, events[1..], t, id);
        FilesFollowTouches(next, events[1..], t, t.all[id].path);
      } else {
        OnlySettlingSettles(s, e, id);
        FileSinceSettled(next, events[1..], t, id);
      }
    }
  }

  lemma StepDomain(s: Service, e: Event)
    requires Enabled(s, e)
    ensures Apply(s, e).all.Keys == s.all.Keys + {e.id}
    ensures e.Announce? || e.id in s.all
  {
  }

  /**
   On every run, a done job reports the length of the file that is there exactly when, since it was settled,
   nothing has touched its path, or the last write there had that length, or a removal came last and it reported none.
   */
  lemma DoneIsMeasured(files: map<string, nat>, events: seq<Event>, t: Service, id: Id)
    requires Run(Start0(files), events, t) && id in t.all && t.all[id].record.state == Done
    ensures var touch := TouchSinceSettled(Start0(files), events, id, t.all[id].path);
      t.all[id].record.produced == LengthOf(t.files, t.all[id].path)
      <==> touch.None? || (if touch.value.Wrote? then t.all[id].record.produced == Some(touch.value.length)
                           else t.all[id].record.produced == None)
    ensures t.all[id].child == Exited(true) && !t.all[id].killed
  {
    hide Inv, LengthOf, TouchSinceSettled;
    StartIsSound(files);
    ReachableIsSound(files, events, t);
    SoundAt(t, id);
    FileSinceSettled(Start0(files), events, t, id);
  }

  lemma SoundAt(s: Service, id: Id)
    requires Inv(s) && id in s.all
    ensures Sound(s.all[id], id)
  {
  }

  lemma StartIsSound(files: map<string, nat>)
    ensures Inv(Start0(files))
  {
  }

  /**
   On every run, where a cancelled job's follower is finished and its removal did not fail, there is a file at
   its path exactly when a write came last there since, whoever's it was.
   */
  lemma CancelledProductIsRemoved(files: map<string, nat>, events: seq<Event>, t: Service, id: Id)
    requires Run(Start0(files), events, t) && id in t.all
    requires t.all[id].record.state == Cancelled && Ran(t.all[id].phase) && !t.all[id].leftBehind
    ensures var touch := TouchSinceSettled(Start0(files), events, id, t.all[id].path);
      t.all[id].path in t.files <==> touch.Some? && touch.value.Wrote?
  {
    hide Inv, TouchSinceSettled;
    StartIsSound(files);
    FileSinceSettled(Start0(files), events, t, id);
  }

  /** The conversion was cancelled, and its follower took its product away. */
  ghost predicate TookAway(t: Service, id: Id, path: string) {
    id in t.all && t.all[id].path == path && t.all[id].record.state == Cancelled && !t.all[id].leftBehind
  }

  lemma {:induction false} RemovedByOne(s: Service, events: seq<Event>, t: Service, path: string) returns (id: Id)
    requires Inv(s) && Run(s, events, t) && LastTouch(s, events, path) == Some(Removed)
    ensures TookAway(t, id, path)
    decreases events
  {
    hide Apply, Enabled, Inv, Touched;
    var (e, next) := (events[0], Apply(s, events[0]));
    StepKeepsInv(s, e);
    if LastTouch(next, events[1..], path).Some? {
      id := RemovedByOne(next, events[1..], t, path);
    } else {
      id := e.id;
      StepDomain(s, e);
      SettledAt(s, e);
      SettledHasRun(s, e);
      RemovesWhole(s, e);
      PathsStay(s, e, id);
      PathsStayAlong(next, events[1..], t, id);
      TerminalForever(next, events[1..], t, id);
      LeavingsStayAlong(next, events[1..], t, id);
    }
  }

  lemma RemovesWhole(s: Service, e: Event)
    requires Enabled(s, e) && e.Settle? && e.removes
    ensures !Apply(s, e).all[e.id].leftBehind
  {
  }

  /**
   Nothing is removed but by the follower of a conversion that was cancelled: on every run, where none of those that
   share a path was, what was there or was written there is there still.
   */
  lemma OnlyTheCancelledAreRemoved(files: map<string, nat>, events: seq<Event>, t: Service, path: string)
    requires Run(Start0(files), events, t)
    requires forall id :: id in t.all && t.all[id].path == path ==> t.all[id].record.state != Cancelled
    ensures path in t.files <==> path in files || LastTouch(Start0(files), events, path).Some?
  {
    hide LastTouch;
    StartIsSound(files);
    FilesFollowTouches(Start0(files), events, t, path);
    if LastTouch(Start0(files), events, path) == Some(Removed) {
      var id := RemovedByOne(Start0(files), events, t, path);
    }
  }

  /** No other conversion writes to this one's path. */
  ghost predicate Sole(s: Service, id: Id)
    requires id in s.all
  {
    forall other :: other in s.all && other != id ==> s.all[other].path != s.all[id].path
  }

  lemma SettledTouchesNothing(s: Service, e: Event, id: Id)
    requires Inv(s) && Enabled(s, e) && id in s.all && Ran(s.all[id].phase) && Sole(s, id)
    ensures TouchOf(s, e, s.all[id].path) == None
  {
    hide Move, FilesAfter;
    assert Sound(s.all[id], id);
  }

  lemma SoleBefore(s: Service, e: Event, id: Id)
    requires Enabled(s, e) && id in s.all && id in Apply(s, e).all && Sole(Apply(s, e), id)
    ensures Sole(s, id)
  {
    hide Apply, Enabled;
    PathsStay(s, e, id);
    forall other | other in s.all && other != id ensures s.all[other].path != s.all[id].path {
      PathsStay(s, e, other);
    }
  }

  lemma {:induction false} SoleThroughout(s: Service, events: seq<Event>, t: Service, id: Id)
    requires Run(s, events, t) && id in s.all && id in t.all && Sole(t, id)
    ensures Sole(s, id)
    decreases events
  {
    hide Apply, Enabled, Sole;
    if events != [] {
      StepDomain(s, events[0]);
      SoleThroughout(Apply(s, events[0]), events[1..], t, id);
      SoleBefore(s, events[0], id);
    }
  }

  lemma {:induction false} NothingTouchesSince(s: Service, events: seq<Event>, t: Service, id: Id)
    requires Inv(s) && Run(s, events, t) && id in s.all && Ran(s.all[id].phase) && id in t.all && Sole(t, id)
    ensures LastTouch(s, events, s.all[id].path) == None
    decreases events
  {
    hide Apply, Enabled, Sole, Inv, TouchOf;
    if events != [] {
      SoleThroughout(s, events, t, id);
      SettledTouchesNothing(s, events[0], id);
      StepKeepsInv(s, events[0]);
      LeavingsStay(s, events[0], id);
      PathsStay(s, events[0], id);
      NothingTouchesSince(Apply(s, events[0]), events[1..], t, id);
    }
  }

  /** A conversion alone at its path is never touched there once it has settled. */
  lemma {:induction false} AloneNothingTouches(s: Service, events: seq<Event>, t: Service, id: Id)
    requires Inv(s) && Run(s, events, t) && NotSettled(s, id) && id in t.all && Sole(t, id)
    ensures TouchSinceSettled(s, events, id, t.all[id].path) == None
    decreases events
  {
    hide Apply, Enabled, Sole, Inv, LastTouch;
    if events != [] {
      var (e, next) := (events[0], Apply(s, events[0]));
      StepKeepsInv(s, e);
      StepDomain(s, e);
      if e.Settle? && e.id == id {
        SettledHasRun(s, e);
        PathsStayAlong(next, events[1..], t, id);
        NothingTouchesSince(next, events[1..], t, id);
      } else {
        OnlySettlingSettles(s, e, id);
        AloneNothingTouches(next, events[1..], t, id);
      }
    }
  }

  /**
   So alone at its path a done job is always measured, and a cancelled one's product gone unless its removal failed.
   */
  lemma AloneIsAccounted(files: map<string, nat>, events: seq<Event>, t: Service, id: Id)
    requires Run(Start0(files), events, t) && id in t.all && Sole(t, id) && Ran(t.all[id].phase)
    ensures t.all[id].record.state == Done ==> t.all[id].record.produced == LengthOf(t.files, t.all[id].path)
    ensures t.all[id].record.state == Cancelled && !t.all[id].leftBehind ==> t.all[id].path !in t.files
  {
    hide Inv, TouchSinceSettled;
    StartIsSound(files);
    FileSinceSettled(Start0(files), events, t, id);
    AloneNothingTouches(Start0(files), events, t, id);
  }

  // ----- two exports of one name -----

  /** One export from start to finish, and the start of another of the same name. */
  function OneDone(path: string, length: nat): seq<Event> {
    [Announce(0, Ifc, "", path), Announce(1, Ifc, "", path),
     Acquire(0), Check(0), Start(0, true, ""), Publish(0), Write(0, length), Exit(0, true), Reap(0),
     Settle(0, true, ""),
     Leave(0)]
  }

  /** The other is cancelled while its converter runs. */
  function OtherCancelled(): seq<Event> {
    [Acquire(1), Check(1), Start(1, true, ""), Publish(1), Cancel(1), HolderKills(1), Exit(1, false), Reap(1),
     Settle(1, true, "")]
  }

  lemma {:induction false} RunsOn(start: Service, run: seq<Event>, s: Service, e: Event)
    requires Run(start, run, s) && Enabled(s, e)
    ensures Run(start, run + [e], Apply(s, e))
    decreases run
  {
    hide Apply, Enabled;
    if run == [] {
      assert (run + [e])[1..] == [];
    } else {
      RunsOn(Apply(start, run[0]), run[1..], s, e);
      assert (run + [e])[1..] == run[1..] + [e];
    }
  }

  /** One more step of conversion `e.id`, from one state of it given outright to the next. */
  lemma Steps(start: Service, run: seq<Event>, all: map<Id, Conversion>, was: Conversion, s: Service, e: Event,
              c: Conversion, files: map<string, nat>)
    returns (t: Service)
    requires Run(start, run, s) && s.all == all[e.id := was] && !e.Announce? && EnabledFor(s, e, was)
    requires Move(was, e, LengthOf(s.files, was.path)) == c && FilesAfter(s.files, e, was) == files
    ensures Run(start, run + [e], t) && t == Service(LockAfter(s.lock, e), all[e.id := c], files)
  {
    hide Run, Move, EnabledFor, FilesAfter, LockAfter;
    t := Apply(s, e);
    assert s.all[e.id] == was;
    assert s.all[e.id := c] == all[e.id := c];
    RunsOn(start, run, s, e);
  }

  function Queueing(path: string): Conversion {
    Conversion(NewRecord(), Queued, NotStarted, 0, false, false, Ifc, "", path)
  }

  /** Acquire, check, start and publish. */
  lemma GetsUnderWay(start: Service, run: seq<Event>, all: map<Id, Conversion>, s: Service, id: Id, path: string)
    returns (t: Service)
    requires Run(start, run, s) && s.lock == None && s.all == all[id := Queueing(path)]
    ensures Run(start, run + [Acquire(id), Check(id), Start(id, true, ""), Publish(id)], t)
    ensures t == Service(Some(id), all[id := UnderWay(id, path)], s.files)
  {
    hide Run;
    var c0 := Queueing(path);
    var c1 := c0.(phase := Checking);
    var c2 := c0.(phase := Starting);
    var c3 := c0.(phase := Phase.Publishing, child := Alive);
    var s1 := Steps(start, run, all, c0, s, Acquire(id), c1, s.files);
    var s2 := Steps(start, run + [Acquire(id)], all, c1, s1, Check(id), c2, s.files);
    var s3 := Steps(start, run + [Acquire(id)] + [Check(id)], all, c2, s2, Start(id, true, ""), c3, s.files);
    t := Steps(start, run + [Acquire(id)] + [Check(id)] + [Start(id, true, "")], all, c3, s3, Publish(id),
               UnderWay(id, path), s.files);
    assert run + [Acquire(id)] + [Check(id)] + [Start(id, true, "")] + [Publish(id)]
        == run + [Acquire(id), Check(id), Start(id, true, ""), Publish(id)];
  }

  function UnderWay(id: Id, path: string): Conversion {
    Queueing(path).(record := NewRecord().(process := Some(id)), phase := Following, child := Alive)
  }

  function FinishedAs(id: Id, path: string, length: nat): Conversion {
    UnderWay(id, path).(record := NewRecord().(state := Done, produced := Some(length), ifc := Some("")),
                        phase := Gone(true), child := Exited(true))
  }

  /** Write the product, exit well, and be reaped. */
  lemma Exits(start: Service, run: seq<Event>, all: map<Id, Conversion>, s: Service, id: Id, path: string, length: nat)
    returns (t: Service)
    requires Run(start, run, s) && s == Service(Some(id), all[id := UnderWay(id, path)], map[])
    ensures Run(start, run + [Write(id, length), Exit(id, true), Reap(id)], t)
    ensures t == Service(Some(id), all[id := ReapedAs(id, path)], map[path := length])
  {
    hide Run;
    var (c, files) := (UnderWay(id, path), map[path := length]);
    var c1 := c.(child := Exited(true));
    var run1 := run + [Write(id, length)];
    var run2 := run1 + [Exit(id, true)];
    var s1 := Steps(start, run, all, c, s, Write(id, length), c, files);
    var s2 := Steps(start, run1, all, c, s1, Exit(id, true), c1, files);
    t := Steps(start, run2, all, c1, s2, Reap(id), ReapedAs(id, path), files);
    assert run2 + [Reap(id)] == run + [Write(id, length), Exit(id, true), Reap(id)];
  }

  function ReapedAs(id: Id, path: string): Conversion {
    UnderWay(id, path).(phase := Reaped(true), child := Exited(true))
  }

  /** Be settled as done, and leave. */
  lemma Finishes(start: Service, run: seq<Event>, all: map<Id, Conversion>, s: Service, id: Id, path: string,
      length: nat)
    returns (t: Service)
    requires Run(start, run, s) && s == Service(Some(id), all[id := ReapedAs(id, path)], map[path := length])
    ensures Run(start, run + [Settle(id, true, ""), Leave(id)], t)
    ensures t == Service(None, all[id := FinishedAs(id, path, length)], map[path := length])
  {
    hide Run;
    var c1 := FinishedAs(id, path, length).(phase := Leaving(true));
    var run1 := run + [Settle(id, true, "")];
    var s1 := Steps(start, run, all, ReapedAs(id, path), s, Settle(id, true, ""), c1, s.files);
    t := Steps(start, run1, all, c1, s1, Leave(id), FinishedAs(id, path, length), s.files);
    assert run1 + [Leave(id)] == run + [Settle(id, true, ""), Leave(id)];
  }

  function KilledAs(id: Id, path: string): Conversion {
    UnderWay(id, path).(record := NewRecord().(state := Cancelled, process := Some(id)), killed := true)
  }

  /** Be cancelled, and killed by the request that was handed the process. */
  lemma IsKilled(start: Service, run: seq<Event>, all: map<Id, Conversion>, s: Service, id: Id, path: string)
    returns (t: Service)
    requires Run(start, run, s) && s.lock == Some(id) && s.all == all[id := UnderWay(id, path)]
    ensures Run(start, run + [Cancel(id), HolderKills(id)], t)
    ensures t == Service(Some(id), all[id := KilledAs(id, path)], s.files)
  {
    hide Run;
    var c1 := KilledAs(id, path).(holders := 1, killed := false);
    var s1 := Steps(start, run, all, UnderWay(id, path), s, Cancel(id), c1, s.files);
    t := Steps(start, run + [Cancel(id)], all, c1, s1, HolderKills(id), KilledAs(id, path), s.files);
    assert run + [Cancel(id)] + [HolderKills(id)] == run + [Cancel(id), HolderKills(id)];
  }

  function AwayAs(id: Id, path: string): Conversion {
    KilledAs(id, path).(record := NewRecord().(state := Cancelled), phase := Leaving(true), child := Exited(false))
  }

  /** Exit badly, and be settled with the product removed. */
  lemma IsClearedAway(start: Service, run: seq<Event>, all: map<Id, Conversion>, s: Service, id: Id, path: string)
    returns (t: Service)
    requires Run(start, run, s) && s.lock == Some(id) && s.all == all[id := KilledAs(id, path)]
    ensures Run(start, run + [Exit(id, false), Reap(id), Settle(id, true, "")], t)
    ensures t == Service(Some(id), all[id := AwayAs(id, path)], s.files - {path})
  {
    hide Run;
    var c1 := KilledAs(id, path).(child := Exited(false));
    var c2 := c1.(phase := Reaped(false));
    var run1 := run + [Exit(id, false)];
    var run2 := run1 + [Reap(id)];
    var s1 := Steps(start, run, all, KilledAs(id, path), s, Exit(id, false), c1, s.files);
    var s2 := Steps(start, run1, all, c1, s1, Reap(id), c2, s.files);
    t := Steps(start, run2, all, c2, s2, Settle(id, true, ""), AwayAs(id, path), s.files - {path});
    assert run2 + [Settle(id, true, "")] == run + [Exit(id, false), Reap(id), Settle(id, true, "")];
  }

  /**
   From an empty directory: of two exports of one name the first is done and reports its length, the second is
   cancelled, and then the first is still done, still reports that length, and its file is gone.
   */
  lemma SharedPathLosesTheProduct(path: string, length: nat) returns (t: Service)
    ensures Run(Start0(map[]), OneDone(path, length) + OtherCancelled(), t)
    ensures 0 in t.all && t.all[0].record.state == Done && t.all[0].path == path
    ensures t.all[0].record.produced == Some(length) && LengthOf(t.files, path) == None
  {
    hide Run, Apply, Enabled;
    var start := Start0(map[]);
    var run0 := [Announce(0, Ifc, "", path), Announce(1, Ifc, "", path)];
    var s0 := BothAnnounced(path);
    var run1 := run0 + [Acquire(0), Check(0), Start(0, true, ""), Publish(0)];
    var other := map[1 := Queueing(path)];
    var s1 := GetsUnderWay(start, run0, other, s0, 0, path);
    var reaped := Exits(start, run1, other, s1, 0, path, length);
    var run2 := run1 + [Write(0, length), Exit(0, true), Reap(0)] + [Settle(0, true, ""), Leave(0)];
    var s2 := Finishes(start, run1 + [Write(0, length), Exit(0, true), Reap(0)], other, reaped, 0, path, length);
    var one := map[0 := FinishedAs(0, path, length)];
    assert s2.all == one[1 := Queueing(path)];
    var run3 := run2 + [Acquire(1), Check(1), Start(1, true, ""), Publish(1)];
    var s3 := GetsUnderWay(start, run2, one, s2, 1, path);
    var run4 := run3 + [Cancel(1), HolderKills(1)];
    var s4 := IsKilled(start, run3, one, s3, 1, path);
    t := IsClearedAway(start, run4, one, s4, 1, path);
    assert run2 == OneDone(path, length);
    assert run4 + [Exit(1, false), Reap(1), Settle(1, true, "")]
        == OneDone(path, length) + OtherCancelled();
  }

  lemma BothAnnounced(path: string) returns (s: Service)
    ensures Run(Start0(map[]), [Announce(0, Ifc, "", path), Announce(1, Ifc, "", path)], s)
    ensures s == Service(None, map[1 := Queueing(path)][0 := Queueing(path)], map[])
  {
    var s1 := Apply(Start0(map[]), Announce(0, Ifc, "", path));
    s := Apply(s1, Announce(1, Ifc, "", path));
    assert s.all == map[1 := Queueing(path)][0 := Queueing(path)];
    assert Run(s1, [Announce(1, Ifc, "", path)], s);
    assert [Announce(0, Ifc, "", path), Announce(1, Ifc, "", path)][1..] == [Announce(1, Ifc, "", path)];
  }
}
