/**
 Loading a model once, however many requests ask for it: Store::get of apps/groma-api/src/main.rs.
 A step of a call is one section under a lock, or the work between two of them.
 A model is the number of the load that made it, so two calls share a model when their numbers agree.
 */
module ModelLoading {
  import opened Options
  import opened SafeNames

  datatype Phase =
    | Asked                          // before the read without the loading lock
    | Missed                         // that read found nothing
    | Waiting                        // a file is there; the loading lock is next
    | Holding                        // under the loading lock, before the second read
    | Loading                        // the second read found nothing either
    | Loaded(model: nat)             // loaded, not yet in the map
    | Leaving(answer: Option<nat>)   // about to return, and to let the lock go
    | Answered(answer: Option<nat>)
    | Crashed                        // loading panicked under the lock

  datatype Call = Call(name: string, phase: Phase)

  datatype Outcome = Read | Unreadable | Panicked

  /** `loads` names the models loaded, in order; `poisoned` is what a panic leaves behind in the lock. */
  datatype State = State(loaded: map<string, nat>, holder: Option<nat>, poisoned: bool, calls: seq<Call>,
                         loads: seq<string>)

  datatype Event = Ask(name: string) | Step(call: nat, isFile: bool, outcome: Outcome)

  const Initial := State(map[], None, false, [], [])

  predicate IsOver(p: Phase) {
    p.Answered? || p.Crashed?
  }

  predicate HoldsTheLock(p: Phase) {
    p.Holding? || p.Loading? || p.Loaded? || p.Leaving?
  }

  predicate Enabled(s: State, e: Event) {
    match e
    case Ask(_) => true
    case Step(t, _, _) =>
      t < |s.calls| && !IsOver(s.calls[t].phase) && (s.calls[t].phase.Waiting? ==> s.holder.None?)
  }

  function Moved(s: State, t: nat, p: Phase): State
    requires t < |s.calls|
  {
    s.(calls := s.calls[t := s.calls[t].(phase := p)])
  }

  function Apply(s: State, e: Event): State
    requires Enabled(s, e)
  {
    match e
    case Ask(name) => s.(calls := s.calls + [Call(name, Asked)])
    case Step(t, isFile, outcome) =>
      var name := s.calls[t].name;
      match s.calls[t].phase
      case Asked => Moved(s, t, if name in s.loaded then Answered(Some(s.loaded[name])) else Missed)
      case Missed => Moved(s, t, if IsSafeName(name) && isFile then Waiting else Answered(None))
      case Waiting => if s.poisoned then Moved(s, t, Answered(None)) else Moved(s, t, Holding).(holder := Some(t))
      case Holding => Moved(s, t, if name in s.loaded then Leaving(Some(s.loaded[name])) else Loading)
      case Loading => (
        match outcome
        case Read => Moved(s, t, Loaded(|s.loads|)).(loads := s.loads + [name])
        case Unreadable => Moved(s, t, Leaving(None))
        case Panicked => Moved(s, t, Crashed).(holder := None, poisoned := true))
      case Loaded(model) => Moved(s, t, Leaving(Some(model))).(loaded := s.loaded[name := model])
      case Leaving(answer) => Moved(s, t, Answered(answer)).(holder := None)
      case Answered(_) => s
      case Crashed => s
  }

  predicate CanRun(s: State, events: seq<Event>)
    decreases |events|
  {
    events == [] || (Enabled(s, events[0]) && CanRun(Apply(s, events[0]), events[1..]))
  }

  function Run(s: State, events: seq<Event>): State
    requires CanRun(s, events)
    decreases |events|
  {
    if events == [] then s else Run(Apply(s, events[0]), events[1..])
  }

  /** What a call knows in its phase. */
  predicate CallIsSound(s: State, c: Call) {
    match c.phase
    case Asked => true
    case Missed => true
    case Waiting => IsSafeName(c.name)
    case Holding => IsSafeName(c.name)
    case Loading => IsSafeName(c.name) && c.name !in s.loaded
    case Loaded(model) =>
      IsSafeName(c.name) && c.name !in s.loaded && model < |s.loads| && s.loads[model] == c.name
    case Leaving(answer) => answer.Some? ==> c.name in s.loaded && s.loaded[c.name] == answer.value
    case Answered(answer) => answer.Some? ==> c.name in s.loaded && s.loaded[c.name] == answer.value
    case Crashed => true
  }

  ghost predicate LockIsSound(s: State) {
    forall t | 0 <= t < |s.calls| :: HoldsTheLock(s.calls[t].phase) <==> s.holder == Some(t)
  }

  predicate Carries(s: State, t: nat, m: nat) {
    t < |s.calls| && s.calls[t].phase == Loaded(m)
  }

  /** A model loaded is in the map under its name, or in the hands of the call that holds the lock. */
  ghost predicate LoadIsSound(s: State, m: nat)
    requires m < |s.loads|
  {
    || (s.loads[m] in s.loaded && s.loaded[s.loads[m]] == m)
    || (s.holder.Some? && Carries(s, s.holder.value, m))
  }

  ghost predicate CallsAreSound(s: State) {
    forall t | 0 <= t < |s.calls| :: CallIsSound(s, s.calls[t])
  }

  ghost predicate MapIsSound(s: State) {
    forall name | name in s.loaded :: s.loaded[name] < |s.loads| && s.loads[s.loaded[name]] == name
  }

  ghost predicate LoadsAreSound(s: State) {
    forall m | 0 <= m < |s.loads| :: LoadIsSound(s, m) && IsSafeName(s.loads[m])
  }

  ghost predicate Sound(s: State) {
    && LockIsSound(s) && (s.holder.Some? ==> s.holder.value < |s.calls|)
    && CallsAreSound(s) && MapIsSound(s) && LoadsAreSound(s)
  }

  lemma StepKeepsLock(s: State, e: Event)
    requires Sound(s) && Enabled(s, e)
    ensures var after := Apply(s, e); LockIsSound(after) && (after.holder.Some? ==> after.holder.value < |after.calls|)
  {
    hide IsSafeName, CallsAreSound, MapIsSound, LoadsAreSound;
  }

  lemma OwnStepKeepsCall(s: State, e: Event)
    requires Enabled(s, e) && e.Step? && CallIsSound(s, s.calls[e.call])
    ensures CallIsSound(Apply(s, e), Apply(s, e).calls[e.call])
  {
    hide IsSafeName;
  }

  lemma OtherStepKeepsCall(s: State, e: Event, t: nat)
    requires Enabled(s, e) && e.Step? && t < |s.calls| && t != e.call
    requires CallIsSound(s, s.calls[t]) && CallIsSound(s, s.calls[e.call])
    requires !(HoldsTheLock(s.calls[t].phase) && HoldsTheLock(s.calls[e.call].phase))
    ensures CallIsSound(Apply(s, e), Apply(s, e).calls[t])
  {
    hide IsSafeName;
  }

  lemma CallStaysSound(s: State, e: Event, t: nat)
    requires Sound(s) && Enabled(s, e) && t < |Apply(s, e).calls|
    ensures CallIsSound(Apply(s, e), Apply(s, e).calls[t])
  {
    hide IsSafeName, MapIsSound, LoadsAreSound;
    if e.Step? {
      StepAddsNoCall(s, e);
      hide CallIsSound, Apply;
      if t == e.call {
        OwnStepKeepsCall(s, e);
      } else {
        OtherStepKeepsCall(s, e, t);
      }
    } else if t < |s.calls| {
      assert CallIsSound(s, s.calls[t]);
    }
  }

  lemma StepAddsNoCall(s: State, e: Event)
    requires Enabled(s, e) && e.Step?
    ensures |Apply(s, e).calls| == |s.calls|
  {
  }

  lemma StepKeepsCalls(s: State, e: Event)
    requires Sound(s) && Enabled(s, e)
    ensures CallsAreSound(Apply(s, e))
  {
    hide Sound, Apply, Enabled, CallIsSound;
    forall t | 0 <= t < |Apply(s, e).calls| ensures CallIsSound(Apply(s, e), Apply(s, e).calls[t]) {
      CallStaysSound(s, e, t);
    }
  }

  lemma StepKeepsMap(s: State, e: Event)
    requires Sound(s) && Enabled(s, e)
    ensures MapIsSound(Apply(s, e))
  {
    hide IsSafeName, LockIsSound, LoadsAreSound;
    if e.Step? {
      assert CallIsSound(s, s.calls[e.call]);
    }
  }

  lemma StepKeepsLoads(s: State, e: Event)
    requires Sound(s) && Enabled(s, e)
    ensures LoadsAreSound(Apply(s, e))
  {
    hide IsSafeName, MapIsSound;
    var after := Apply(s, e);
    if e.Step? {
      assert CallIsSound(s, s.calls[e.call]);
    }
    forall m | 0 <= m < |after.loads| ensures LoadIsSound(after, m) && IsSafeName(after.loads[m]) {
      if m < |s.loads| {
        assert LoadIsSound(s, m);
      }
    }
  }

  lemma StepKeepsSound(s: State, e: Event)
    requires Sound(s) && Enabled(s, e)
    ensures Sound(Apply(s, e))
  {
    hide Apply, Enabled, LockIsSound, CallsAreSound, MapIsSound, LoadsAreSound;
    StepKeepsLock(s, e);
    StepKeepsCalls(s, e);
    StepKeepsMap(s, e);
    StepKeepsLoads(s, e);
  }

  lemma {:induction false} RunKeepsSound(s: State, events: seq<Event>)
    requires Sound(s) && CanRun(s, events)
    ensures Sound(Run(s, events))
    decreases |events|
  {
    hide Sound, Apply, Enabled;
    if events != [] {
      StepKeepsSound(s, events[0]);
      RunKeepsSound(Apply(s, events[0]), events[1..]);
    }
  }

  /** On every run no name is loaded twice, and only names that stay inside the directory are loaded at all. */
  lemma LoadedAtMostOnce(events: seq<Event>)
    requires CanRun(Initial, events)
    ensures var s := Run(Initial, events);
      && (forall i, j | 0 <= i < j < |s.loads| :: s.loads[i] != s.loads[j])
      && (forall m | 0 <= m < |s.loads| :: IsSafeName(s.loads[m]))
  {
    hide IsSafeName, Apply, Enabled, CanRun, Run;
    RunKeepsSound(Initial, events);
    var s := Run(Initial, events);
    forall i, j | 0 <= i < j < |s.loads| ensures s.loads[i] != s.loads[j] {
      assert LoadIsSound(s, i) && LoadIsSound(s, j);
      if s.holder.Some? {
        assert CallIsSound(s, s.calls[s.holder.value]);
      }
    }
  }

  /** On every run all calls answered for one name hold one model, loaded from that name. */
  lemma AnswersShareOneModel(events: seq<Event>, a: nat, b: nat)
    requires CanRun(Initial, events)
    requires var s := Run(Initial, events);
      && a < |s.calls| && s.calls[a].phase.Answered? && s.calls[a].phase.answer.Some?
      && b < |s.calls| && s.calls[b].phase.Answered? && s.calls[b].phase.answer.Some?
    ensures var s := Run(Initial, events);
      && (s.calls[a].name == s.calls[b].name <==> s.calls[a].phase.answer == s.calls[b].phase.answer)
      && s.calls[a].phase.answer.value < |s.loads|
      && s.loads[s.calls[a].phase.answer.value] == s.calls[a].name
  {
    hide IsSafeName, Apply, Enabled, CanRun, Run;
    RunKeepsSound(Initial, events);
    var s := Run(Initial, events);
    assert CallIsSound(s, s.calls[a]) && CallIsSound(s, s.calls[b]);
  }

  /** On every run at most one call is inside the loading lock. */
  lemma OneLoaderAtATime(events: seq<Event>, a: nat, b: nat)
    requires CanRun(Initial, events)
    requires var s := Run(Initial, events);
      && a < |s.calls| && HoldsTheLock(s.calls[a].phase)
      && b < |s.calls| && HoldsTheLock(s.calls[b].phase)
    ensures a == b
  {
    hide IsSafeName, Apply, Enabled, CanRun, Run;
    RunKeepsSound(Initial, events);
  }

  /** A model in the map stays there, so a later call for its name is answered without the lock. */
  lemma {:induction false} ModelsStay(s: State, events: seq<Event>, name: string)
    requires Sound(s) && CanRun(s, events) && name in s.loaded
    ensures name in Run(s, events).loaded && Run(s, events).loaded[name] == s.loaded[name]
    decreases |events|
  {
    hide Sound, CallIsSound, IsSafeName;
    if events != [] {
      OneStepKeepsModel(s, events[0], name);
      StepKeepsSound(s, events[0]);
      ModelsStay(Apply(s, events[0]), events[1..], name);
    }
  }

  lemma OneStepKeepsModel(s: State, e: Event, name: string)
    requires Sound(s) && Enabled(s, e) && name in s.loaded
    ensures var after := Apply(s, e); name in after.loaded && after.loaded[name] == s.loaded[name]
  {
    if e.Step? {
      assert CallIsSound(s, s.calls[e.call]);
    }
  }

  function Rank(p: Phase): nat {
    match p
    case Asked => 7
    case Missed => 6
    case Waiting => 5
    case Holding => 4
    case Loading => 3
    case Loaded(_) => 2
    case Leaving(_) => 1
    case Answered(_) => 0
    case Crashed => 0
  }

  function Remaining(calls: seq<Call>): nat {
    if calls == [] then 0 else Rank(calls[0].phase) + Remaining(calls[1..])
  }

  lemma {:induction false} RemainingAfter(calls: seq<Call>, t: nat, c: Call)
    requires t < |calls|
    ensures Remaining(calls[t := c]) == Remaining(calls) - Rank(calls[t].phase) + Rank(c.phase)
  {
    hide Rank;
    if t == 0 {
      assert calls[t := c][1..] == calls[1..];
    } else {
      RemainingAfter(calls[1..], t - 1, c);
      assert calls[t := c][1..] == calls[1..][t - 1 := c];
    }
  }

  /** A call takes at most seven steps, so without new calls every run ends. */
  lemma {:induction false} RunsEnd(s: State, events: seq<Event>)
    requires CanRun(s, events) && forall e | e in events :: e.Step?
    ensures |events| + Remaining(Run(s, events).calls) <= Remaining(s.calls)
    decreases |events|
  {
    hide Remaining;
    if events != [] {
      var (t, after) := (events[0].call, Apply(s, events[0]));
      RemainingAfter(s.calls, t, after.calls[t]);
      RunsEnd(after, events[1..]);
    }
  }

  /** No call waits for ever: while one is not over, some call can step. */
  lemma SomeCallCanStep(events: seq<Event>, t: nat)
    requires CanRun(Initial, events)
    requires t < |Run(Initial, events).calls| && !IsOver(Run(Initial, events).calls[t].phase)
    ensures exists u :: Enabled(Run(Initial, events), Step(u, true, Read))
  {
    hide IsSafeName, Apply, CanRun, Run;
    RunKeepsSound(Initial, events);
    var s := Run(Initial, events);
    var u := if s.calls[t].phase.Waiting? && s.holder.Some? then s.holder.value else t;
    assert Enabled(s, Step(u, true, Read));
  }

  /** When every call is over, the map holds exactly the models loaded, each once. */
  lemma QuietStoreHoldsEveryLoad(events: seq<Event>)
    requires CanRun(Initial, events)
    requires var s := Run(Initial, events); forall t | 0 <= t < |s.calls| :: IsOver(s.calls[t].phase)
    ensures var s := Run(Initial, events);
      && s.holder.None?
      && forall m | 0 <= m < |s.loads| :: s.loads[m] in s.loaded && s.loaded[s.loads[m]] == m
  {
    hide IsSafeName, Apply, Enabled, CanRun, Run;
    RunKeepsSound(Initial, events);
    var s := Run(Initial, events);
    forall m | 0 <= m < |s.loads| ensures s.loads[m] in s.loaded && s.loaded[s.loads[m]] == m {
      assert LoadIsSound(s, m);
    }
  }

  // ----- who goes away with nothing -----

  /** The step turns its own call away: a name or a file it will not read, a poisoned lock, or a file it cannot. */
  predicate TurnsAway(s: State, e: Event, t: nat)
    requires Enabled(s, e)
  {
    e.Step? && e.call == t &&
    match s.calls[t].phase
    case Missed => !(IsSafeName(s.calls[t].name) && e.isFile)
    case Waiting => s.poisoned
    case Loading => e.outcome == Unreadable
    case _ => false
  }

  ghost predicate WasTurnedAway(s: State, events: seq<Event>, t: nat)
    requires CanRun(s, events)
    decreases |events|
  {
    events != [] && (TurnsAway(s, events[0], t) || WasTurnedAway(Apply(s, events[0]), events[1..], t))
  }

  predicate HasNothing(s: State, t: nat) {
    t < |s.calls| && (s.calls[t].phase == Leaving(None) || s.calls[t].phase == Answered(None))
  }

  lemma NothingByTurning(s: State, e: Event, t: nat)
    requires Enabled(s, e)
    ensures HasNothing(Apply(s, e), t) <==> HasNothing(s, t) || TurnsAway(s, e, t)
  {
    hide IsSafeName;
  }

  lemma {:induction false} NothingAlong(s: State, events: seq<Event>, t: nat)
    requires CanRun(s, events)
    ensures HasNothing(Run(s, events), t) <==> HasNothing(s, t) || WasTurnedAway(s, events, t)
    decreases |events|
  {
    hide HasNothing, TurnsAway, Apply;
    if events != [] {
      NothingByTurning(s, events[0], t);
      NothingAlong(Apply(s, events[0]), events[1..], t);
    }
  }

  /** On every run a call goes away with nothing exactly when one of its own steps turned it away. */
  lemma NothingExactlyWhenTurnedAway(events: seq<Event>, t: nat)
    requires CanRun(Initial, events)
    ensures HasNothing(Run(Initial, events), t) <==> WasTurnedAway(Initial, events, t)
  {
    NothingAlong(Initial, events, t);
  }

  ghost predicate SomeCrashed(s: State) {
    exists t :: 0 <= t < |s.calls| && s.calls[t].phase.Crashed?
  }

  lemma PoisonStep(s: State, e: Event)
    requires Enabled(s, e) && (s.poisoned <==> SomeCrashed(s))
    ensures Apply(s, e).poisoned <==> SomeCrashed(Apply(s, e))
  {
    hide IsSafeName;
    var after := Apply(s, e);
    if t :| 0 <= t < |s.calls| && s.calls[t].phase.Crashed? {
      assert after.calls[t].phase.Crashed?;
    } else if e.Step? {
      assert s.calls[e.call].phase == Loading && e.outcome == Panicked ==> after.calls[e.call].phase.Crashed?;
    }
  }

  /** The loading lock is poisoned exactly when some call has panicked under it. */
  lemma {:induction false} PoisonedByACrash(s: State, events: seq<Event>)
    requires CanRun(s, events) && (s.poisoned <==> SomeCrashed(s))
    ensures Run(s, events).poisoned <==> SomeCrashed(Run(s, events))
    decreases |events|
  {
    hide Apply, SomeCrashed;
    if events != [] {
      PoisonStep(s, events[0]);
      PoisonedByACrash(Apply(s, events[0]), events[1..]);
    }
  }

  /** The store's own field, and what one call does to it. */
  class Store {
    var loaded: map<string, nat>

    constructor ()
      ensures loaded == map[]
    {
      loaded := map[];
    }

    /**
     `arrived` is what other calls put into the map while this one waited for the loading lock, `poisoned` whether
     one of them panicked under it, and `load` what reading the file would give: a model, or nothing.
     */
    method Get(name: string, isFile: bool, arrived: map<string, nat>, poisoned: bool, load: Option<nat>)
      returns (answer: Option<nat>)
      modifies this
      ensures name in old(loaded) ==> answer == Some(old(loaded)[name]) && loaded == old(loaded)
      ensures name !in old(loaded) && !(IsSafeName(name) && isFile) ==> answer == None && loaded == old(loaded)
      ensures name !in old(loaded) && IsSafeName(name) && isFile ==>
                if poisoned then answer == None && loaded == old(loaded) + arrived
                else if name in arrived then answer == Some(arrived[name]) && loaded == old(loaded) + arrived
                else if load.None? then answer == None && loaded == old(loaded) + arrived
                else answer == load && loaded == (old(loaded) + arrived)[name := load.value]
    {
      if name in loaded {
        return Some(loaded[name]);
      }
      if !IsSafeName(name) || !isFile {
        return None;
      }
      loaded := loaded + arrived;
      if poisoned {
        return None;
      }
      if name in loaded {
        return Some(loaded[name]);
      }
      match load {
        case None => return None;
        case Some(model) =>
          loaded := loaded[name := model];
          return Some(model);
      }
    }
  }
}
