/** One conversion's job: what its mutex guards, and every critical section on it. */
module ConversionJob {
  import opened Options

  datatype JobState = Running | Done | Failed | Cancelled

  datatype Product = Scene | Ifc | Json

  /** A handle on a child process, as the job publishes it. */
  type Process = nat

  datatype Stage = Stage(name: string, seconds: real)

  /** What the mutex guards, as a value. */
  datatype Record = Record(
    state: JobState,
    process: Option<Process>,
    finished: seq<Stage>,
    running: Option<string>,
    seconds: real,
    scene: Option<string>,
    ifc: Option<string>,
    json: Option<string>,
    error: Option<string>,
    notes: seq<string>,
    produced: Option<nat>)

  function NewRecord(): Record {
    Record(Running, None, [], None, 0.0, None, None, None, None, [], None)
  }

  // ----- the critical sections, as functions of the record -----

  function Cancelling(r: Record): Record {
    if r.state != Running then r else r.(state := Cancelled, running := None)
  }

  /** What `cancel` answers: whether it was accepted, and the process to kill, if one was published. */
  function CancelAnswer(r: Record): (bool, Option<Process>) {
    if r.state != Running then (false, None) else (true, r.process)
  }

  function Publishing(r: Record, process: Process): Record {
    r.(process := Some(process))
  }

  function Beginning(r: Record, stage: string, total: real): Record {
    if r.state != Running then r else r.(running := Some(stage), seconds := total)
  }

  /** A stage reported again is summed into the row it already has; a new one gets a row at the end. */
  function FoldStage(finished: seq<Stage>, stage: string, seconds: real): (r: seq<Stage>)
    ensures |finished| <= |r| <= |finished| + 1
  {
    if finished == [] then [Stage(stage, seconds)]
    else if finished[0].name == stage then [Stage(stage, finished[0].seconds + seconds)] + finished[1..]
    else [finished[0]] + FoldStage(finished[1..], stage, seconds)
  }

  /** The row folded into is the first of that name. */
  lemma {:induction false} FoldStageAt(finished: seq<Stage>, i: nat, stage: string, seconds: real)
    requires i <= |finished| && forall j :: 0 <= j < i ==> finished[j].name != stage
    requires i < |finished| ==> finished[i].name == stage
    ensures FoldStage(finished, stage, seconds)
         == if i < |finished| then finished[i := Stage(stage, finished[i].seconds + seconds)]
            else finished + [Stage(stage, seconds)]
  {
    if i > 0 {
      FoldStageAt(finished[1..], i - 1, stage, seconds);
    }
  }

  function Ending(r: Record, stage: string, seconds: real, total: real): Record {
    if r.state != Running then r
    else r.(finished := FoldStage(r.finished, stage, seconds), running := None, seconds := total)
  }

  function Noting(r: Record, line: string): Record {
    if r.state != Running then r else r.(notes := r.notes + [line])
  }

  /** The last critical section: the child is reaped and its output has been read to the end. */
  function Settling(r: Record, succeeded: bool, product: Product, name: string, length: Option<nat>,
      reason: string): Record {
    var quiet := r.(process := None, running := None);
    if r.state == Cancelled then quiet
    else if succeeded then
      var done := quiet.(state := Done, produced := length);
      match product
      case Scene => done.(scene := Some(name))
      case Ifc => done.(ifc := Some(name))
      case Json => done.(json := Some(name))
    else quiet.(state := Failed, error := Some(reason))
  }

  function NotStarting(r: Record, reason: string): Record {
    if r.state == Cancelled then r else r.(state := Failed, error := Some(reason))
  }

  // ----- the job itself -----

  class Job {
    var state: JobState
    var process: Option<Process>
    var finished: seq<Stage>
    var running: Option<string>
    var seconds: real
    var scene: Option<string>
    var ifc: Option<string>
    var json: Option<string>
    var error: Option<string>
    var notes: seq<string>
    var produced: Option<nat>

    function Value(): Record
      reads this
    {
      Record(state, process, finished, running, seconds, scene, ifc, json, error, notes, produced)
    }

    constructor ()
      ensures Value() == NewRecord()
    {
      state, process, finished, running, seconds := Running, None, [], None, 0.0;
      scene, ifc, json, error, notes, produced := None, None, None, None, [], None;
    }

    /** Mark this job cancelled and hand back its process, when it has one. */
    method Cancel() returns (accepted: bool, held: Option<Process>)
      modifies this
      ensures Value() == Cancelling(old(Value()))
      ensures (accepted, held) == CancelAnswer(old(Value()))
    {
      if state != Running {
        return false, None;
      }
      state := Cancelled;
      running := None;
      return true, process;
    }

    /** Publish the started child and say whether the job was cancelled meanwhile, so that it has to be killed now. */
    method Publish(child: Process) returns (killNow: bool)
      modifies this
      ensures Value() == Publishing(old(Value()), child)
      ensures killNow <==> old(state) == Cancelled
    {
      process := Some(child);
      killNow := state == Cancelled;
    }

    method BeginStage(stage: string, total: real)
      modifies this
      ensures Value() == Beginning(old(Value()), stage, total)
    {
      if state == Running {
        running := Some(stage);
        seconds := total;
      }
    }

    method EndStage(stage: string, spent: real, total: real)
      modifies this
      ensures Value() == Ending(old(Value()), stage, spent, total)
    {
      if state == Running {
        var i := 0;
        while i < |finished| && finished[i].name != stage
          invariant 0 <= i <= |finished|
          invariant forall j :: 0 <= j < i ==> finished[j].name != stage
        {
          i := i + 1;
        }
        FoldStageAt(finished, i, stage, spent);
        if i < |finished| {
          finished := finished[i := Stage(stage, finished[i].seconds + spent)];
        } else {
          finished := finished + [Stage(stage, spent)];
        }
        running := None;
        seconds := total;
      }
    }

    method Note(line: string)
      modifies this
      ensures Value() == Noting(old(Value()), line)
    {
      if state == Running {
        notes := notes + [line];
      }
    }

    /** Settle the job once its child is reaped; the caller removes the product where the answer is true. */
    method Settle(succeeded: bool, product: Product, name: string, length: Option<nat>, reason: string)
      returns (removeProduct: bool)
      modifies this
      ensures Value() == Settling(old(Value()), succeeded, product, name, length, reason)
      ensures removeProduct <==> old(state) == Cancelled
    {
      process := None;
      running := None;
      removeProduct := state == Cancelled;
      if !removeProduct {
        if succeeded {
          state := Done;
          produced := length;
          match product {
            case Scene => scene := Some(name);
            case Ifc => ifc := Some(name);
            case Json => json := Some(name);
          }
        } else {
          state := Failed;
          error := Some(reason);
        }
      }
    }

    method CouldNotStart(reason: string)
      modifies this
      ensures Value() == NotStarting(old(Value()), reason)
    {
      if state != Cancelled {
        state := Failed;
        error := Some(reason);
      }
    }
  }

  // ----- what the folded stages say -----

  ghost predicate DistinctNames(finished: seq<Stage>) {
    forall i, j :: 0 <= i < j < |finished| ==> finished[i].name != finished[j].name
  }

  function SecondsOf(finished: seq<Stage>, name: string): real {
    if finished == [] then 0.0
    else (if finished[0].name == name then finished[0].seconds else 0.0) + SecondsOf(finished[1..], name)
  }

  function NamesOf(finished: seq<Stage>): (r: seq<string>)
    ensures |r| == |finished| && forall i :: 0 <= i < |r| ==> r[i] == finished[i].name
  {
    seq(|finished|, i requires 0 <= i < |finished| => finished[i].name)
  }

  /** The stages reported, folded one after another. */
  function FoldAll(reports: seq<Stage>): seq<Stage> {
    if reports == [] then []
    else FoldStage(FoldAll(reports[..|reports| - 1]), reports[|reports| - 1].name, reports[|reports| - 1].seconds)
  }

  /** The names reported, each where it first appears. */
  function FirstAppearances(reports: seq<Stage>): seq<string> {
    if reports == [] then []
    else
      AddName(FirstAppearances(reports[..|reports| - 1]), reports[|reports| - 1].name)
  }

  lemma {:induction false} FoldStageSeconds(finished: seq<Stage>, stage: string, seconds: real, name: string)
    ensures SecondsOf(FoldStage(finished, stage, seconds), name)
         == SecondsOf(finished, name) + (if name == stage then seconds else 0.0)
  {
    if finished == [] {
      assert [Stage(stage, seconds)][1..] == [];
    } else {
      var (head, tail) := (finished[0], finished[1..]);
      if head.name == stage {
        assert ([Stage(stage, head.seconds + seconds)] + tail)[1..] == tail;
      } else {
        FoldStageSeconds(tail, stage, seconds, name);
        assert ([head] + FoldStage(tail, stage, seconds))[1..] == FoldStage(tail, stage, seconds);
      }
    }
  }

  lemma NamesOfCons(head: Stage, tail: seq<Stage>)
    ensures NamesOf([head] + tail) == [head.name] + NamesOf(tail)
  {
  }

  /** `name` behind the names there are, unless it is one of them. */
  function AddName(names: seq<string>, name: string): seq<string> {
    if name in names then names else names + [name]
  }

  lemma AddNameCons(head: string, tail: seq<string>, name: string)
    requires head != name
    ensures AddName([head] + tail, name) == [head] + AddName(tail, name)
  {
  }

  lemma {:induction false} FoldStageNames(finished: seq<Stage>, stage: string, seconds: real)
    ensures NamesOf(FoldStage(finished, stage, seconds)) == AddName(NamesOf(finished), stage)
  {
    hide NamesOf;
    if finished == [] {
      assert NamesOf(finished) == [];
      assert NamesOf([Stage(stage, seconds)]) == [stage];
    } else {
      var (head, tail) := (finished[0], finished[1..]);
      assert finished == [head] + tail;
      NamesOfCons(head, tail);
      if head.name == stage {
        NamesOfCons(Stage(stage, head.seconds + seconds), tail);
      } else {
        FoldStageNames(tail, stage, seconds);
        NamesOfCons(head, FoldStage(tail, stage, seconds));
        AddNameCons(head.name, NamesOf(tail), stage);
      }
    }
  }

  function TotalReported(reports: seq<Stage>, name: string): real {
    if reports == [] then 0.0
    else TotalReported(reports[..|reports| - 1], name)
         + (if reports[|reports| - 1].name == name then reports[|reports| - 1].seconds else 0.0)
  }

  /** However often a federation reports: one row a name, in order of first appearance, with everything it took. */
  lemma {:induction false} FoldConserves(reports: seq<Stage>, name: string)
    ensures SecondsOf(FoldAll(reports), name) == TotalReported(reports, name)
    ensures NamesOf(FoldAll(reports)) == FirstAppearances(reports)
    ensures DistinctNames(FoldAll(reports))
  {
    if reports != [] {
      var (front, last) := (reports[..|reports| - 1], reports[|reports| - 1]);
      FoldConserves(front, name);
      FoldStageSeconds(FoldAll(front), last.name, last.seconds, name);
      FoldStageNames(FoldAll(front), last.name, last.seconds);
      var (before, after) := (FoldAll(front), FoldAll(reports));
      forall i, j | 0 <= i < j < |after| ensures after[i].name != after[j].name {
        assert after[i].name == NamesOf(after)[i] && after[j].name == NamesOf(after)[j];
        assert forall k :: 0 <= k < |before| ==> NamesOf(before)[k] == before[k].name;
      }
    }
  }
}
