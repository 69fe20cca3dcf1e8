/**
 The conversion service as a state machine: queue workers, the converters they start, the threads that
 follow them, and the requests that cancel. One step is one critical section, one system call, or one act
 of a child process; any number of conversions interleave.
 */
module ConversionService {
  import opened Options
  import opened ConversionJob

  type Id = nat

  /** Where a conversion's worker is. It holds the one-at-a-time lock from Checking to Leaving. */
  datatype Phase =
    | Queued
    | Checking
    | Starting
    | Publishing
    | Killing
    | Following
    | Reaped(succeeded: bool)
    | Leaving(ran: bool)
    | Gone(ran: bool)

  datatype Child = NotStarted | Alive | Exited(success: bool)

  /** `holders` counts the cancel requests that were handed the process and have still to kill it. */
  datatype Conversion = Conversion(
    record: Record,
    phase: Phase,
    child: Child,
    holders: nat,
    killed: bool,
    leftBehind: bool,
    product: Product,
    name: string,
    path: string)

  datatype Service = Service(lock: Option<Id>, all: map<Id, Conversion>, files: map<string, nat>)

  datatype Line = Begin(stage: string, total: real) | End(stage: string, spent: real, total: real) | Prose(text: string)

  datatype Event =
    | Announce(id: Id, product: Product, name: string, path: string)
    | Cancel(id: Id)
    | HolderKills(id: Id)
    | Acquire(id: Id)
    | Check(id: Id)
    | Start(id: Id, started: bool, reason: string)
    | Publish(id: Id)
    | KillNow(id: Id)
    | Write(id: Id, length: nat)
    | Exit(id: Id, success: bool)
    | Report(id: Id, line: Line)
    | Reap(id: Id)
    | WaitFails(id: Id)
    | Settle(id: Id, removes: bool, reason: string)
    | Leave(id: Id)

  function Start0(files: map<string, nat>): Service {
    Service(None, map[], files)
  }

  predicate Enabled(s: Service, e: Event) {
    if e.Announce? then e.id !in s.all
    else e.id in s.all && EnabledFor(s, e, s.all[e.id])
  }

  predicate EnabledFor(s: Service, e: Event, c: Conversion) {
    match e
    case Announce(_, _, _, _) => false
    case Cancel(_) => true
    case HolderKills(_) => c.holders > 0
    case Acquire(_) => c.phase == Queued && s.lock == None
    case Check(_) => c.phase == Checking
    case Start(_, _, _) => c.phase == Starting
    case Publish(_) => c.phase == Publishing
    case KillNow(_) => c.phase == Killing
    case Write(_, _) => c.child == Alive
    // A child killed while it lived did not succeed.
    case Exit(_, success) => c.child == Alive && (c.killed ==> !success)
    case Report(_, _) => c.phase == Following || c.phase.Reaped?
    case Reap(_) => c.phase == Following && c.child.Exited?
    case WaitFails(_) => c.phase == Following
    // The output threads are joined first, and they end when the child does.
    case Settle(_, _, _) => c.phase.Reaped? && c.child.Exited?
    case Leave(_) => c.phase.Leaving?
  }

  function Reporting(r: Record, line: Line): Record {
    match line
    case Begin(stage, total) => Beginning(r, stage, total)
    case End(stage, spent, total) => Ending(r, stage, spent, total)
    case Prose(text) => Noting(r, text)
  }

  /** What a step does to its own conversion; `length` is that of the product on disk, where there is one. */
  function Move(c: Conversion, e: Event, length: Option<nat>): Conversion {
    var r := c.record;
    match e
    case Announce(_, _, _, _) => c
    case Cancel(_) =>
      var (accepted, process) := CancelAnswer(r);
      c.(record := Cancelling(r), holders := c.holders + if process.Some? then 1 else 0)
    case HolderKills(_) => if c.holders == 0 then c else c.(holders := c.holders - 1, killed := true)
    case Acquire(_) => c.(phase := Checking)
    case Check(_) => c.(phase := if r.state == Cancelled then Leaving(false) else Starting)
    case Start(_, started, reason) =>
      if started then c.(phase := Publishing, child := Alive)
      else c.(phase := Leaving(false), record := NotStarting(r, reason))
    case Publish(id) =>
      c.(record := ConversionJob.Publishing(r, id), phase := if r.state == Cancelled then Killing else Following)
    case KillNow(_) => c.(phase := Following, killed := true)
    case Write(_, _) => c
    case Exit(_, success) => c.(child := Exited(success))
    case Report(_, line) => c.(record := Reporting(r, line))
    case Reap(_) => c.(phase := Reaped(c.child.Exited? && c.child.success))
    case WaitFails(_) => c.(phase := Reaped(false))
    case Settle(_, removes, reason) =>
      c.(record := Settling(r, c.phase.Reaped? && c.phase.succeeded, c.product, c.name, length, reason),
         phase := Leaving(true), leftBehind := r.state == Cancelled && !removes)
    case Leave(_) => c.(phase := Gone(c.phase.Leaving? && c.phase.ran))
  }

  function LengthOf(files: map<string, nat>, path: string): Option<nat> {
    if path in files then Some(files[path]) else None
  }

  function FilesAfter(files: map<string, nat>, e: Event, c: Conversion): map<string, nat> {
    match e
    case Write(_, length) => files[c.path := length]
    case Settle(_, removes, _) => if c.record.state == Cancelled && removes then files - {c.path} else files
    case _ => files
  }

  function LockAfter(lock: Option<Id>, e: Event): Option<Id> {
    match e
    case Acquire(id) => Some(id)
    case Leave(_) => None
    case _ => lock
  }

  function Apply(s: Service, e: Event): Service
    requires Enabled(s, e)
  {
    if e.Announce? then
      s.(all := s.all[e.id := Conversion(NewRecord(), Queued, NotStarted, 0, false, false, e.product, e.name, e.path)])
    else
      var c := s.all[e.id];
      Service(LockAfter(s.lock, e), s.all[e.id := Move(c, e, LengthOf(s.files, c.path))], FilesAfter(s.files, e, c))
  }

  /** `t` is where the events take `s`, each enabled in its turn. */
  ghost predicate Run(s: Service, events: seq<Event>, t: Service)
    decreases events
  {
    if events == [] then s == t
    else Enabled(s, events[0]) && Run(Apply(s, events[0]), events[1..], t)
  }

  // ----- what every step keeps -----

  predicate Holds(p: Phase) {
    !p.Queued? && !p.Gone?
  }

  predicate Published(c: Conversion) {
    match c.phase
    case Killing => true
    case Following => true
    case Reaped(_) => true
    case Leaving(ran) => ran
    case Gone(ran) => ran
    case _ => false
  }

  predicate Over(p: Phase) {
    p.Leaving? || p.Gone?
  }

  predicate Ran(p: Phase) {
    (p.Leaving? && p.ran) || (p.Gone? && p.ran)
  }

  predicate KillPending(c: Conversion) {
    c.holders > 0 || c.phase == Killing
  }

  ghost predicate Sound(c: Conversion, id: Id) {
    var r := c.record;
    // The child and the published process follow the phase.
    && (c.phase in {Queued, Checking, Starting} ==> c.child == NotStarted && !c.killed)
    && (Over(c.phase) && !Ran(c.phase) ==> c.child == NotStarted && !c.killed)
    && (c.phase == Publishing ==> c.child != NotStarted && !c.killed)
    && (Published(c) ==> c.child != NotStarted)
    && (Ran(c.phase) ==> c.child.Exited?)
    && (r.process == if Published(c) && !Over(c.phase) then Some(id) else None)
    && (!Published(c) ==> c.holders == 0 && r.running == None)
    // The outcome follows what happened.
    && (Over(c.phase) ==> r.state != Running)
    && (!Over(c.phase) ==> r.state in {Running, Cancelled})
    && (c.phase == Killing ==> r.state == Cancelled)
    && (r.state != Cancelled ==> c.holders == 0 && !c.killed)
    && (r.state != Running ==> r.running == None)
    && (r.state == Done ==> c.child == Exited(true) && Ran(c.phase))
    && (r.state == Failed ==> r.error.Some?)
    && (c.phase == Reaped(true) ==> c.child == Exited(true))
    && c.holders <= 1
    // No lost cancel.
    && (r.state == Cancelled && Published(c) ==> c.killed || KillPending(c))
  }

  ghost predicate Inv(s: Service) {
    && (forall id :: id in s.all ==> Sound(s.all[id], id))
    && (forall id :: id in s.all ==> (Holds(s.all[id].phase) <==> s.lock == Some(id)))
    && (s.lock.Some? ==> s.lock.value in s.all)
  }

  predicate IsWorkersStep(e: Event) {
    e.Acquire? || e.Check? || e.Start? || e.Publish? || e.KillNow?
  }

  lemma WorkersMoveIsSound(s: Service, e: Event, c: Conversion, length: Option<nat>)
    requires Sound(c, e.id) && IsWorkersStep(e) && EnabledFor(s, e, c)
    ensures Sound(Move(c, e, length), e.id)
  {
  }

  lemma OtherMoveIsSound(s: Service, e: Event, c: Conversion, length: Option<nat>)
    requires Sound(c, e.id) && !IsWorkersStep(e) && !e.Announce? && EnabledFor(s, e, c)
    ensures Sound(Move(c, e, length), e.id)
  {
  }

  lemma MoveIsSound(s: Service, e: Event, c: Conversion, length: Option<nat>)
    requires Sound(c, e.id) && !e.Announce? && EnabledFor(s, e, c)
    ensures Sound(Move(c, e, length), e.id)
  {
    hide Sound, Move, EnabledFor, IsWorkersStep;
    if IsWorkersStep(e) {
      WorkersMoveIsSound(s, e, c, length);
    } else {
      OtherMoveIsSound(s, e, c, length);
    }
  }

  lemma MoveHolds(s: Service, e: Event, c: Conversion, length: Option<nat>)
    requires Sound(c, e.id) && !e.Announce? && EnabledFor(s, e, c)
    ensures e.Acquire? ==> !Holds(c.phase) && Holds(Move(c, e, length).phase)
    ensures e.Leave? ==> Holds(c.phase) && !Holds(Move(c, e, length).phase)
    ensures !e.Acquire? && !e.Leave? ==> (Holds(Move(c, e, length).phase) <==> Holds(c.phase))
  {
  }

  lemma StepKeepsInv(s: Service, e: Event)
    requires Inv(s) && Enabled(s, e)
    ensures Inv(Apply(s, e))
  {
    hide Sound, Move;
    if e.Announce? {
      AnnouncedIsSound(e);
    } else {
      var c := s.all[e.id];
      MoveIsSound(s, e, c, LengthOf(s.files, c.path));
      MoveHolds(s, e, c, LengthOf(s.files, c.path));
    }
  }

  lemma AnnouncedIsSound(e: Event)
    requires e.Announce?
    ensures Sound(Conversion(NewRecord(), Queued, NotStarted, 0, false, false, e.product, e.name, e.path), e.id)
  {
  }

  /** Every state of every run keeps the invariant. */
  lemma {:induction false} RunKeepsInv(s: Service, events: seq<Event>, t: Service)
    requires Inv(s) && Run(s, events, t)
    ensures Inv(t)
    decreases events
  {
    if events != [] {
      StepKeepsInv(s, events[0]);
      RunKeepsInv(Apply(s, events[0]), events[1..], t);
    }
  }

  lemma ReachableIsSound(files: map<string, nat>, events: seq<Event>, t: Service)
    requires Run(Start0(files), events, t)
    ensures Inv(t)
  {
    RunKeepsInv(Start0(files), events, t);
  }

  // ----- what the service promises -----

  /**
   No lost cancel: once a cancelled job's child has been published, the kill was issued or somebody holds
   the process to issue it; and when the worker is gone with nobody holding it, the kill was issued.
   */
  lemma NoLostCancel(files: map<string, nat>, events: seq<Event>, t: Service, id: Id)
    requires Run(Start0(files), events, t) && id in t.all && t.all[id].record.state == Cancelled
    ensures Published(t.all[id]) ==> t.all[id].killed || KillPending(t.all[id])
    ensures Ran(t.all[id].phase) && t.all[id].holders == 0 ==> t.all[id].killed
    ensures !Published(t.all[id]) && Over(t.all[id].phase) ==> t.all[id].child == NotStarted
  {
    ReachableIsSound(files, events, t);
  }

  lemma MoveKeepsTerminal(s: Service, e: Event, c: Conversion, length: Option<nat>)
    requires Sound(c, e.id) && !e.Announce? && EnabledFor(s, e, c) && c.record.state != Running
    ensures Move(c, e, length).record == c.record.(process := Move(c, e, length).record.process)
  {
  }

  /** A job that is over stays as it ended: its state, its stages, its notes, its error and what it produced. */
  lemma TerminalIsAbsorbing(s: Service, e: Event, id: Id)
    requires Inv(s) && Enabled(s, e) && id in s.all && s.all[id].record.state != Running
    ensures id in Apply(s, e).all
    ensures Apply(s, e).all[id].record == s.all[id].record.(process := Apply(s, e).all[id].record.process)
  {
    hide Move, EnabledFor, Sound;
    if e.id == id {
      MoveKeepsTerminal(s, e, s.all[id], LengthOf(s.files, s.all[id].path));
    }
  }

  lemma {:induction false} TerminalForever(s: Service, events: seq<Event>, t: Service, id: Id)
    requires Inv(s) && Run(s, events, t) && id in s.all && s.all[id].record.state != Running
    ensures id in t.all && t.all[id].record == s.all[id].record.(process := t.all[id].record.process)
    decreases events
  {
    hide Apply, Enabled, Inv;
    if events != [] {
      var next := Apply(s, events[0]);
      TerminalIsAbsorbing(s, events[0], id);
      StepKeepsInv(s, events[0]);
      TerminalForever(next, events[1..], t, id);
    }
  }

  /** Cancelled while it waited its turn, or turned away for that. */
  predicate IsTurnedAway(c: Conversion) {
    && c.record.state == Cancelled && c.child == NotStarted && !Published(c)
    && (c.phase.Queued? || c.phase.Checking? || (Over(c.phase) && !Ran(c.phase)))
  }

  lemma MoveTurnsAway(s: Service, e: Event, c: Conversion, length: Option<nat>)
    requires Sound(c, e.id) && !e.Announce? && EnabledFor(s, e, c) && IsTurnedAway(c)
    ensures IsTurnedAway(Move(c, e, length))
  {
  }

  /** A job cancelled before its turn comes never starts a converter, whatever happens next. */
  lemma {:induction false} CancelledInTheQueueNeverStarts(s: Service, events: seq<Event>, t: Service, id: Id)
    requires Inv(s) && Run(s, events, t) && id in s.all && s.all[id].record.state == Cancelled
    requires s.all[id].phase == Queued || IsTurnedAway(s.all[id])
    ensures id in t.all && t.all[id].child == NotStarted && t.all[id].record.state == Cancelled
    decreases events
  {
    hide Move, EnabledFor, Inv;
    SoundIn(s, id);
    if events != [] {
      var (e, next) := (events[0], Apply(s, events[0]));
      StepKeepsInv(s, e);
      if !e.Announce? && e.id == id {
        MoveTurnsAway(s, e, s.all[id], LengthOf(s.files, s.all[id].path));
      }
      CancelledInTheQueueNeverStarts(next, events[1..], t, id);
    }
  }

  lemma SoundIn(s: Service, id: Id)
    requires Inv(s) && id in s.all
    ensures Sound(s.all[id], id)
  {
  }

  /** How many cancel requests for `id` were accepted along a run. */
  function Accepted(s: Service, events: seq<Event>, id: Id): nat
    decreases events
  {
    if events == [] || !Enabled(s, events[0]) then 0
    else
      (if events[0] == Cancel(id) && CancelAnswer(s.all[id].record).0 then 1 else 0)
      + Accepted(Apply(s, events[0]), events[1..], id)
  }

  predicate IsCancelled(s: Service, id: Id) {
    id in s.all && s.all[id].record.state == Cancelled
  }

  lemma MoveCancels(s: Service, e: Event, c: Conversion, length: Option<nat>)
    requires Sound(c, e.id) && !e.Announce? && EnabledFor(s, e, c)
    ensures Move(c, e, length).record.state == Cancelled
       <==> c.record.state == Cancelled || (e.Cancel? && CancelAnswer(c.record).0)
  {
  }

  lemma CancelledBy(s: Service, e: Event, id: Id)
    requires Inv(s) && Enabled(s, e)
    ensures IsCancelled(Apply(s, e), id)
       <==> IsCancelled(s, id) || (e == Cancel(id) && CancelAnswer(s.all[id].record).0)
    ensures IsCancelled(s, id) ==> !(e == Cancel(id) && CancelAnswer(s.all[id].record).0)
  {
    hide Sound, Move, EnabledFor;
    if !e.Announce? {
      MoveCancels(s, e, s.all[e.id], LengthOf(s.files, s.all[e.id].path));
    }
  }

  lemma {:induction false} AcceptedCounts(s: Service, events: seq<Event>, t: Service, id: Id)
    requires Inv(s) && Run(s, events, t)
    ensures Accepted(s, events, id) + (if IsCancelled(s, id) then 1 else 0) == if IsCancelled(t, id) then 1 else 0
    decreases events
  {
    hide Apply, Enabled, Inv, IsCancelled;
    if events != [] {
      CancelledBy(s, events[0], id);
      StepKeepsInv(s, events[0]);
      AcceptedCounts(Apply(s, events[0]), events[1..], t, id);
    }
  }

  /** Among all the requests to cancel a job, one is accepted if it ends up cancelled and none otherwise. */
  lemma OneCancelIsAccepted(files: map<string, nat>, events: seq<Event>, t: Service, id: Id)
    requires Run(Start0(files), events, t)
    ensures Accepted(Start0(files), events, id) == if IsCancelled(t, id) then 1 else 0
  {
    AcceptedCounts(Start0(files), events, t, id);
  }

  /** Two tabs never convert two models at once: at most one converter is alive. */
  lemma OneChildAtATime(files: map<string, nat>, events: seq<Event>, t: Service, i: Id, j: Id)
    requires Run(Start0(files), events, t) && i in t.all && j in t.all
    requires t.all[i].child == Alive && t.all[j].child == Alive
    ensures i == j
  {
    ReachableIsSound(files, events, t);
    assert Sound(t.all[i], i) && Sound(t.all[j], j);
  }

  // ----- nothing gets stuck -----

  /** The step that is due for a conversion whose worker is under way. */
  function Due(c: Conversion, id: Id): Event {
    match c.phase
    case Queued => Acquire(id)
    case Checking => Check(id)
    case Starting => Start(id, true, "")
    case Publishing => Publish(id)
    case Killing => KillNow(id)
    case Following => if c.child == Alive then Exit(id, false) else Reap(id)
    case Reaped(_) => if c.child == Alive then Exit(id, false) else Settle(id, true, "")
    case Leaving(_) => Leave(id)
    case Gone(_) => HolderKills(id)
  }

  /** While any conversion is unfinished, some worker or converter can move on: the lock blocks nobody for good. */
  lemma SomethingIsDue(s: Service, id: Id) returns (mover: Id)
    requires Inv(s) && id in s.all && !s.all[id].phase.Gone?
    ensures mover in s.all && !s.all[mover].phase.Gone? && Enabled(s, Due(s.all[mover], mover))
  {
    mover := if s.lock.Some? then s.lock.value else id;
    assert Sound(s.all[mover], mover);
  }

  /** How far a conversion still has to go; each step its worker or converter takes brings it nearer. */
  function StepsLeft(c: Conversion): nat {
    (match c.phase
     case Queued => 9
     case Checking => 8
     case Starting => 7
     case Publishing => 5
     case Killing => 4
     case Following => 3
     case Reaped(_) => 2
     case Leaving(_) => 1
     case Gone(_) => 0)
    + if c.child == Alive then 1 else 0
  }

  predicate IsOwnStep(e: Event) {
    || e.Acquire? || e.Check? || e.Start? || e.Publish? || e.KillNow?
    || e.Exit? || e.Reap? || e.WaitFails? || e.Settle? || e.Leave?
  }

  lemma MoveApproaches(s: Service, e: Event, c: Conversion, length: Option<nat>)
    requires Sound(c, e.id) && IsOwnStep(e) && EnabledFor(s, e, c)
    ensures StepsLeft(Move(c, e, length)) < StepsLeft(c)
  {
  }

  lemma OwnStepsApproachTheEnd(s: Service, e: Event)
    requires Inv(s) && Enabled(s, e) && IsOwnStep(e)
    ensures StepsLeft(Apply(s, e).all[e.id]) < StepsLeft(s.all[e.id])
    ensures forall other :: other in s.all && other != e.id ==> Apply(s, e).all[other] == s.all[other]
  {
    hide Sound, Move, StepsLeft;
    var c := s.all[e.id];
    MoveApproaches(s, e, c, LengthOf(s.files, c.path));
  }
}
