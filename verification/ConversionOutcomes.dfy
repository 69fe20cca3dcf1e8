/** What a job tells of its conversion: the product it names, the reason it failed for, and the lines it was read. */
module ConversionOutcomes {
  import opened Options
  import opened ConversionJob
  import opened ConversionService

  // ----- the product and the reason -----

  /** The three fields that name a product, read as one. */
  function Named(r: Record, product: Product): Option<string> {
    match product
    case Scene => r.scene
    case Ifc => r.ifc
    case Json => r.json
  }

  /** Done names the product that was asked for, and nothing else is named. */
  ghost predicate NamesItsProduct(c: Conversion, product: Product, name: string) {
    forall p: Product :: Named(c.record, p) == if c.record.state == Done && p == product then Some(name) else None
  }

  /** A step that fails its conversion for this reason, if it fails it at all. */
  predicate GivesReason(e: Event, id: Id, reason: string) {
    || (e.Settle? && e.id == id && e.reason == reason)
    || (e.Start? && e.id == id && !e.started && e.reason == reason)
  }

  ghost predicate HasReason(events: seq<Event>, id: Id, error: Option<string>) {
    error.Some? && exists i :: 0 <= i < |events| && GivesReason(events[i], id, error.value)
  }

  /** An error is told exactly when the job has failed. */
  predicate TellsItsFailure(c: Conversion) {
    c.record.error.Some? <==> c.record.state == Failed
  }

  lemma MoveTellsOutcome(s: Service, e: Event, c: Conversion, length: Option<nat>)
    requires Sound(c, e.id) && !e.Announce? && EnabledFor(s, e, c)
    ensures var after := Move(c, e, length);
            && after.product == c.product && after.name == c.name
            && (NamesItsProduct(c, c.product, c.name) ==> NamesItsProduct(after, c.product, c.name))
            && (TellsItsFailure(c) ==> TellsItsFailure(after))
            && (after.record.error == c.record.error
                || (after.record.error.Some? && GivesReason(e, e.id, after.record.error.value)))
  {
    if NamesItsProduct(c, c.product, c.name) {
      assert forall p: Product :: Named(c.record, p) == if c.record.state == Done && p == c.product then Some(c.name)
                                                       else None;
      assert c.record.scene == Named(c.record, Scene) && c.record.ifc == Named(c.record, Ifc)
          && c.record.json == Named(c.record, Json);
    }
  }

  /** The conversion as it was announced, its product and its name. */
  function Announced(events: seq<Event>, id: Id): Option<(Product, string)> {
    if events == [] then None
    else if events[0].Announce? && events[0].id == id then Some((events[0].product, events[0].name))
    else Announced(events[1..], id)
  }

  /** What the service tells of a conversion that was under way already. */
  lemma {:induction false} OutcomeStays(s: Service, events: seq<Event>, t: Service, id: Id)
    requires Inv(s) && Run(s, events, t) && id in s.all
    requires NamesItsProduct(s.all[id], s.all[id].product, s.all[id].name) && TellsItsFailure(s.all[id])
    ensures id in t.all && NamesItsProduct(t.all[id], s.all[id].product, s.all[id].name) && TellsItsFailure(t.all[id])
    ensures t.all[id].record.error == s.all[id].record.error || HasReason(events, id, t.all[id].record.error)
    decreases events
  {
    hide Inv, Move, NamesItsProduct, Sound, EnabledFor;
    if events != [] {
      var (e, next) := (events[0], Apply(s, events[0]));
      StepKeepsInv(s, e);
      if !e.Announce? && e.id == id {
        SoundOf(s, id);
        MoveTellsOutcome(s, e, s.all[id], LengthOf(s.files, s.all[id].path));
      }
      OutcomeStays(next, events[1..], t, id);
      ReasonBefore(events, id, t.all[id].record.error);
    }
  }

  lemma SoundOf(s: Service, id: Id)
    requires Inv(s) && id in s.all
    ensures Sound(s.all[id], id)
  {
  }

  lemma ReasonBefore(events: seq<Event>, id: Id, error: Option<string>)
    requires events != []
    ensures HasReason(events[1..], id, error) ==> HasReason(events, id, error)
    ensures error.Some? && GivesReason(events[0], id, error.value) ==> HasReason(events, id, error)
  {
    if HasReason(events[1..], id, error) {
      var i :| 0 <= i < |events| - 1 && GivesReason(events[1..][i], id, error.value);
      assert GivesReason(events[i + 1], id, error.value);
    }
  }

  lemma {:induction false} OutcomeSinceAnnounced(s: Service, events: seq<Event>, t: Service, id: Id)
    requires Inv(s) && Run(s, events, t) && id !in s.all && id in t.all
    ensures Announced(events, id).Some? && TellsItsFailure(t.all[id])
    ensures NamesItsProduct(t.all[id], Announced(events, id).value.0, Announced(events, id).value.1)
    ensures t.all[id].record.error == None || HasReason(events, id, t.all[id].record.error)
    decreases events
  {
    hide Inv, Move, NamesItsProduct, EnabledFor;
    if events != [] {
      var (e, next) := (events[0], Apply(s, events[0]));
      StepKeepsInv(s, e);
      if e.Announce? && e.id == id {
        NothingNamed(next.all[id]);
        OutcomeStays(next, events[1..], t, id);
      } else {
        OutcomeSinceAnnounced(next, events[1..], t, id);
      }
      ReasonBefore(events, id, t.all[id].record.error);
    }
  }

  lemma NothingNamed(c: Conversion)
    requires c.record == NewRecord()
    ensures NamesItsProduct(c, c.product, c.name) && TellsItsFailure(c)
  {
  }

  /**
   On every run a done job names the product it was announced for by the name it was announced under, and no other
   product; a job that is not done names none. A failed job, and no other, tells an error: the reason given when it
   was settled or could not be started.
   */
  lemma JobTellsItsOutcome(files: map<string, nat>, events: seq<Event>, t: Service, id: Id)
    requires Run(Start0(files), events, t) && id in t.all
    ensures Announced(events, id).Some?
    ensures var ((product, name), r) := (Announced(events, id).value, t.all[id].record);
            && r.scene == (if r.state == Done && product == Scene then Some(name) else None)
            && r.ifc == (if r.state == Done && product == Ifc then Some(name) else None)
            && r.json == (if r.state == Done && product == Json then Some(name) else None)
            && (if r.state == Failed then HasReason(events, id, r.error) else r.error == None)
  {
    hide Run;
    OutcomeSinceAnnounced(Start0(files), events, t, id);
    var r := t.all[id].record;
    assert r.scene == Named(r, Scene) && r.ifc == Named(r, Ifc) && r.json == Named(r, Json);
  }

  // ----- the lines the converter was read -----

  /** The lines read for a conversion while its job was running; the later ones are dropped. */
  function Heard(s: Service, events: seq<Event>, id: Id): seq<Line>
    decreases events
  {
    if events == [] || !Enabled(s, events[0]) then []
    else
      (if events[0].Report? && events[0].id == id && s.all[id].record.state == Running then [events[0].line] else [])
      + Heard(Apply(s, events[0]), events[1..], id)
  }

  function Ended(lines: seq<Line>): seq<Stage> {
    if lines == [] then []
    else
      var last := lines[|lines| - 1];
      Ended(lines[..|lines| - 1]) + if last.End? then [Stage(last.stage, last.spent)] else []
  }

  function Prose(lines: seq<Line>): seq<string> {
    if lines == [] then []
    else
      var last := lines[|lines| - 1];
      Prose(lines[..|lines| - 1]) + if last.Prose? then [last.text] else []
  }

  /** The last line that was no prose. */
  function LastStage(lines: seq<Line>): (r: Option<Line>)
    ensures r.Some? ==> !r.value.Prose?
  {
    if lines == [] then None
    else if lines[|lines| - 1].Prose? then LastStage(lines[..|lines| - 1])
    else Some(lines[|lines| - 1])
  }

  /** A record says what the lines say. */
  ghost predicate Follows(r: Record, lines: seq<Line>) {
    var last := LastStage(lines);
    && r.finished == FoldAll(Ended(lines))
    && r.notes == Prose(lines)
    && r.seconds == (if last.None? then 0.0 else last.value.total)
    && r.running == if r.state == Running && last.Some? && last.value.Begin? then Some(last.value.stage) else None
  }

  lemma OneMoreLine(lines: seq<Line>, line: Line)
    ensures var more := lines + [line];
      && Ended(more) == Ended(lines) + (if line.End? then [Stage(line.stage, line.spent)] else [])
      && Prose(more) == Prose(lines) + (if line.Prose? then [line.text] else [])
      && LastStage(more) == if line.Prose? then LastStage(lines) else Some(line)
  {
    var more := lines + [line];
    assert more[..|lines|] == lines && more[|lines|] == line;
  }

  lemma OneMoreStage(stages: seq<Stage>, stage: Stage)
    ensures FoldAll(stages + [stage]) == FoldStage(FoldAll(stages), stage.name, stage.seconds)
  {
    assert (stages + [stage])[..|stages|] == stages;
  }

  lemma FollowsOneMore(r: Record, lines: seq<Line>, line: Line)
    requires Follows(r, lines) && r.state == Running
    ensures Follows(Reporting(r, line), lines + [line])
  {
    hide Ended, Prose, LastStage, FoldAll, FoldStage;
    OneMoreLine(lines, line);
    if line.End? {
      OneMoreStage(Ended(lines), Stage(line.stage, line.spent));
    } else {
      assert Ended(lines) + [] == Ended(lines);
    }
    assert Prose(lines) + [] == Prose(lines);
  }

  /** What any other step leaves as it was; a job that ends has no stage under way. */
  lemma MoveKeepsLines(s: Service, e: Event, c: Conversion, length: Option<nat>)
    requires Sound(c, e.id) && !e.Announce? && EnabledFor(s, e, c) && !(e.Report? && c.record.state == Running)
    ensures var (r, after) := (c.record, Move(c, e, length).record);
      && after.finished == r.finished && after.notes == r.notes && after.seconds == r.seconds
      && (if after.state == Running then r.state == Running && after.running == r.running else after.running == None)
  {
    hide FoldStage;
  }

  lemma MoveFollows(s: Service, e: Event, c: Conversion, length: Option<nat>, lines: seq<Line>)
    requires Sound(c, e.id) && !e.Announce? && EnabledFor(s, e, c) && Follows(c.record, lines)
    ensures Follows(Move(c, e, length).record,
                    lines + if e.Report? && c.record.state == Running then [e.line] else [])
  {
    if e.Report? && c.record.state == Running {
      hide Sound, EnabledFor, Follows, Reporting;
      FollowsOneMore(c.record, lines, e.line);
    } else {
      MoveKeepsLines(s, e, c, length);
      hide Sound, EnabledFor, Move, FoldAll, Ended, Prose;
      assert lines + [] == lines;
    }
  }

  lemma {:induction false} RecordFollows(s: Service, events: seq<Event>, t: Service, id: Id, lines: seq<Line>)
    requires Inv(s) && Run(s, events, t) && id in t.all
    requires if id in s.all then Follows(s.all[id].record, lines) else lines == []
    ensures Follows(t.all[id].record, lines + Heard(s, events, id))
    decreases events
  {
    hide Inv, Move, Follows, Sound, EnabledFor;
    if events == [] {
      assert lines + [] == lines;
    } else {
      var (e, next) := (events[0], Apply(s, events[0]));
      var heard := if e.Report? && e.id == id && s.all[id].record.state == Running then [e.line] else [];
      StepKeepsInv(s, e);
      if id in s.all && !e.Announce? && e.id == id {
        SoundOf(s, id);
        MoveFollows(s, e, s.all[id], LengthOf(s.files, s.all[id].path), lines);
      } else {
        assert lines + heard == lines;
        NothingHeard();
      }
      RecordFollows(next, events[1..], t, id, lines + heard);
      assert (lines + heard) + Heard(next, events[1..], id) == lines + Heard(s, events, id);
    }
  }

  lemma NothingHeard()
    ensures Follows(NewRecord(), [])
  {
  }

  /**
   On every run a job shows exactly what was read while it ran: its stages folded as FoldConserves says, its notes in
   the order they came, the time of the last stage line, and a stage under way only while it still is.
   */
  lemma JobShowsWhatWasHeard(files: map<string, nat>, events: seq<Event>, t: Service, id: Id)
    requires Run(Start0(files), events, t) && id in t.all
    ensures Follows(t.all[id].record, Heard(Start0(files), events, id))
  {
    hide Run, Follows;
    RecordFollows(Start0(files), events, t, id, []);
    assert [] + Heard(Start0(files), events, id) == Heard(Start0(files), events, id);
  }
}
