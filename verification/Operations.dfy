/**
 Runs in which commands on control definitions, evidence versions and control occurrences interleave:
 the three projections that refer to each other through foreign keys.
 */
module Operations {
  import opened Common
  import opened EventLog
  import opened Replay
  import opened VersionLifecycle
  import opened PolicyLifecycle
  import opened ControlDefinitions
  import opened Evidence
  import Occurrences
  import Cadence

  datatype World = World(
    defs: Db, captures: seq<CaptureEvent>, evidence: map<Id, EvidenceRow>, occs: Occurrences.Tables)

  const EMPTY_WORLD := World(EMPTY, [], map[], Occurrences.Tables([], map[]))

  datatype WorldCommand =
    | Define(definition: ControlCommand)
    | Capture(event: CaptureEvent)
    | Operate(operation: Occurrences.OccurrenceCommand)

  predicate IsEffectiveFor(versions: map<Id, VersionRow>, control: Id, v: Id) {
    v in versions && versions[v].owner == control && versions[v].lifecycle.status == Effective
  }

  /** control.effective_version. */
  ghost function EffectiveDefinition(versions: map<Id, VersionRow>, control: Id): (r: Option<Id>)
    ensures r.Some? ==> IsEffectiveFor(versions, control, r.value)
    ensures r.None? ==> forall v :: !IsEffectiveFor(versions, control, v)
  {
    if exists v :: IsEffectiveFor(versions, control, v)
    then var v :| IsEffectiveFor(versions, control, v); Some(v)
    else None
  }

  ghost function Reading(versions: map<Id, VersionRow>): Id -> Option<Id> {
    control => EffectiveDefinition(versions, control)
  }

  function RefsOf(w: World): Occurrences.Refs {
    Occurrences.Refs(w.defs.versions.Keys, w.evidence.Keys)
  }

  ghost function ExecWorld(w: World, c: WorldCommand): Result<World> {
    match c
    case Define(d) =>
      var r := ExecControl(w.defs, d);
      if r.Success? then Success(w.(defs := r.value)) else Failure(r.error)
    case Capture(e) =>
      if e.id in w.evidence || e.sequence != 1 || NumberTaken(w.captures, e.body.artifact, e.body.number)
      then Failure(IntegrityError)
      else Success(w.(captures := w.captures + [e], evidence := Project(ProjectCaptured, w.evidence, e)))
    case Operate(o) =>
      var r := Occurrences.ExecOccurrence(w.occs, RefsOf(w), Reading(w.defs.versions), o);
      if r.Success? then Success(w.(occs := r.value)) else Failure(r.error)
  }

  ghost function StepWorld(w: World, c: WorldCommand): World {
    var r := ExecWorld(w, c);
    if r.Success? then r.value else w
  }

  ghost function RunWorld(cmds: seq<WorldCommand>): World {
    if cmds == [] then EMPTY_WORLD
    else StepWorld(RunWorld(cmds[..|cmds| - 1]), cmds[|cmds| - 1])
  }

  /******* What every command keeps *******/

  ghost predicate NumbersApart(log: seq<CaptureEvent>, i: int)
    requires 0 <= i < |log|
  {
    !NumberTaken(log[..i], log[i].body.artifact, log[i].body.number)
  }

  ghost predicate EvidenceInv(captures: seq<CaptureEvent>, evidence: map<Id, EvidenceRow>) {
    && evidence == ProjectAll(ProjectCaptured, map[], captures)
    && (forall i {:trigger FirstUse(captures, i)} :: 0 <= i < |captures| ==> FirstUse(captures, i))
    && (forall i {:trigger NumbersApart(captures, i)} :: 0 <= i < |captures| ==> NumbersApart(captures, i))
  }

  ghost predicate WorldInv(w: World) {
    ControlInv(w.defs) && EvidenceInv(w.captures, w.evidence) && Occurrences.OccurrencesInv(w.occs, RefsOf(w))
  }

  /** No command ever removes a definition version. */
  lemma DefinitionsStay(db: Db, c: ControlCommand)
    requires ControlInv(db) && ExecControl(db, c).Success?
    ensures db.versions.Keys <= ExecControl(db, c).value.versions.Keys
  {
    if c.Transition? && c.cmd.MakeEffective? {
      var mid := AfterSupersede(db, c.cmd.id, c.cmd.actor, c.cmd.supersededAt);
      SupersedeKeepsKeys(db, c.cmd.id, c.cmd.actor, c.cmd.supersededAt);
      AppendRow(mid, NewEvent(mid.log, c.cmd.id, MadeEffective, None, c.cmd.actor, c.cmd.at));
    }
  }

  lemma SupersedeKeepsKeys(db: Db, id: Id, actor: Option<Id>, at: Time)
    requires id in db.versions
    ensures AfterSupersede(db, id, actor, at).versions.Keys == db.versions.Keys
  {
    var previous := PreviousEffective(db.versions, id);
    if previous.Some? {
      AppendRow(db, NewEvent(db.log, previous.value, SupersededBy(id), None, actor, at));
    }
  }

  lemma {:induction false} CapturedIds(log: seq<CaptureEvent>, v: Id)
    ensures v in ProjectAll(ProjectCaptured, map[], log) <==> exists i :: 0 <= i < |log| && log[i].id == v
  {
    if log != [] {
      var n := |log| - 1;
      CapturedIds(log[..n], v);
      if i :| 0 <= i < |log| && log[i].id == v {
        assert i < n ==> log[..n][i].id == v;
      }
      if i :| 0 <= i < n && log[..n][i].id == v {
        assert log[i].id == v;
      }
    }
  }

  lemma CaptureKeepsInv(captures: seq<CaptureEvent>, evidence: map<Id, EvidenceRow>, e: CaptureEvent)
    requires EvidenceInv(captures, evidence) && e.id !in evidence && e.sequence == 1
    requires !NumberTaken(captures, e.body.artifact, e.body.number)
    ensures EvidenceInv(captures + [e], Project(ProjectCaptured, evidence, e))
    ensures evidence.Keys <= Project(ProjectCaptured, evidence, e).Keys
  {
    var log := captures + [e];
    assert log[..|captures|] == captures;
    CapturedIds(captures, e.id);
    forall i | 0 <= i < |log| ensures FirstUse(log, i) && NumbersApart(log, i) {
      if i < |captures| {
        assert FirstUse(captures, i) && NumbersApart(captures, i);
        assert log[..i] == captures[..i];
      }
    }
  }

  lemma EvidencePrefix(captures: seq<CaptureEvent>, k: nat)
    requires EvidenceInv(captures, ProjectAll(ProjectCaptured, map[], captures)) && k <= |captures|
    ensures EvidenceInv(captures[..k], ProjectAll(ProjectCaptured, map[], captures[..k]))
  {
    forall i | 0 <= i < k ensures FirstUse(captures[..k], i) && NumbersApart(captures[..k], i) {
      assert FirstUse(captures, i) && NumbersApart(captures, i);
      assert captures[..k][..i] == captures[..i];
    }
  }

  /** Captures with distinct ids and numbers are what the capture commands leave. */
  lemma {:induction false} CapturesAreReached(captures: seq<CaptureEvent>) returns (cmds: seq<WorldCommand>)
    requires EvidenceInv(captures, ProjectAll(ProjectCaptured, map[], captures))
    ensures RunWorld(cmds).captures == captures
    ensures RunWorld(cmds).evidence == ProjectAll(ProjectCaptured, map[], captures)
  {
    if captures == [] {
      cmds := [];
    } else {
      var n := |captures| - 1;
      EvidencePrefix(captures, n);
      var front := CapturesAreReached(captures[..n]);
      cmds := front + [WorldCommand.Capture(captures[n])];
      assert cmds[..|front|] == front;
      assert FirstUse(captures, n) && NumbersApart(captures, n);
      CapturedIds(captures[..n], captures[n].id);
    }
  }

  /** What interleaved captures have committed is what some run of these commands leaves. */
  lemma EvidenceRunsAgree(moves: seq<Move>) returns (cmds: seq<WorldCommand>)
    ensures RunWorld(cmds).captures == RunMoves(moves).log && RunWorld(cmds).evidence == RunMoves(moves).rows
  {
    var s := RunMoves(moves);
    RunKeepsStoreInv(moves);
    forall i | 0 <= i < |s.log| ensures NumbersApart(s.log, i) {
      if NumberTaken(s.log[..i], s.log[i].body.artifact, s.log[i].body.number) {
        var j :| 0 <= j < i && s.log[j].body.artifact == s.log[i].body.artifact &&
          s.log[j].body.number == s.log[i].body.number;
        LaterCapture(s.log, j, i);
      }
    }
    cmds := CapturesAreReached(s.log);
  }

  lemma StepKeepsWorld(w: World, c: WorldCommand)
    requires WorldInv(w)
    ensures WorldInv(StepWorld(w, c))
  {
    if ExecWorld(w, c).Success? {
      var after := ExecWorld(w, c).value;
      match c {
        case Define(d) =>
          ControlStep(w.defs, d);
          DefinitionsStay(w.defs, d);
          Occurrences.MoreRefs(w.occs, RefsOf(w), RefsOf(after));
        case Capture(e) =>
          CaptureKeepsInv(w.captures, w.evidence, e);
          Occurrences.MoreRefs(w.occs, RefsOf(w), RefsOf(after));
        case Operate(o) =>
          Occurrences.ExecKeepsInv(w.occs, RefsOf(w), Reading(w.defs.versions), o);
      }
    }
  }

  lemma {:induction false} RunWorldInv(cmds: seq<WorldCommand>)
    ensures WorldInv(RunWorld(cmds))
  {
    if cmds == [] {
      EmptyWorldInv();
    } else {
      RunWorldInv(cmds[..|cmds| - 1]);
      StepKeepsWorld(RunWorld(cmds[..|cmds| - 1]), cmds[|cmds| - 1]);
    }
  }

  lemma EmptyWorldInv()
    ensures WorldInv(EMPTY_WORLD)
  {
    RunControlInv([]);
  }

  /******* Guarantees of every run *******/

  /** However commands interleave, a control, period and due time have at most one occurrence. */
  lemma OneOccurrencePerSlot(cmds: seq<WorldCommand>, v: Id, w: Id)
    requires v in RunWorld(cmds).occs.rows && w in RunWorld(cmds).occs.rows
    requires Occurrences.SameSlot(RunWorld(cmds).occs.rows[v], RunWorld(cmds).occs.rows[w])
    ensures v == w
  {
    RunWorldInv(cmds);
    assert !Occurrences.SharedSlot(RunWorld(cmds).occs.rows, v, w);
  }

  /** The effective version of a control is unique, so a pin does not depend on which one is read first. */
  lemma EffectiveIsUnique(cmds: seq<WorldCommand>, control: Id, v: Id)
    requires IsEffectiveFor(RunWorld(cmds).defs.versions, control, v)
    ensures EffectiveDefinition(RunWorld(cmds).defs.versions, control) == Some(v)
  {
    RunWorldInv(cmds);
    var versions := RunWorld(cmds).defs.versions;
    LiveOneEffective(RunWorld(cmds).defs);
    assert !BothEffective(versions, v, EffectiveDefinition(versions, control).value);
  }

  /** What one command does to the occurrences: it keeps each one's core, and pins each new one. */
  ghost predicate Pinned(before: map<Id, Occurrences.Occurrence>, after: map<Id, Occurrences.Occurrence>,
      effective: Id -> Option<Id>) {
    && (forall v :: v in before ==> v in after && Occurrences.SameCore(after[v], before[v]))
    && (forall v :: v in after && v !in before ==> after[v].pin == effective(after[v].control))
  }

  lemma AppendPins(t: Occurrences.Tables, refs: Occurrences.Refs, e: Occurrences.OccurrenceEvent,
      effective: Id -> Option<Id>)
    requires Occurrences.Accepts(t.rows, refs, e)
    requires Occurrences.Creates(e.body) ==> e.body.pin == effective(e.body.control)
    ensures Pinned(t.rows, Project(Occurrences.ProjectOccurrence, t.rows, e), effective)
  {
  }

  lemma OperatePins(t: Occurrences.Tables, refs: Occurrences.Refs, effective: Id -> Option<Id>,
      c: Occurrences.OccurrenceCommand)
    requires Occurrences.ExecOccurrence(t, refs, effective, c).Success?
    ensures Pinned(t.rows, Occurrences.ExecOccurrence(t, refs, effective, c).value.rows, effective)
    ensures t.log <= Occurrences.ExecOccurrence(t, refs, effective, c).value.log
  {
    match c {
      case GenerateCall(call) =>
        if Occurrences.Scheduled(call.control) {
          var plan := Occurrences.PlanOf(call, effective(call.control.id));
          var days := Occurrences.DueDays(t.rows, call.control.id, call.period, call.today, call.horizon,
                                          call.control.interval.value);
          Occurrences.MaterializeAllGrows(t, refs, plan, days, call.draws);
          Occurrences.AllNamed(t, refs, plan, days, call.draws);
        }
      case RecordManually(control, period, dueAt, scopeNote, actor, draw) =>
        AppendPins(t, refs, Occurrences.NewEvent(t, draw.id,
          Occurrences.RecordedManually(control, period, dueAt, scopeNote, effective(control)),
          None, None, actor, draw.at), effective);
      case Perform(id, person, scope, note, occurredAt, actor, at) =>
        AppendPins(t, refs, Occurrences.NewEvent(t, id, Occurrences.Performed(person, scope, note), None,
          Some(occurredAt), actor, at), effective);
      case LinkSnapshot(id, snapshot, actor, at) =>
        AppendPins(t, refs, Occurrences.NewEvent(t, id, Occurrences.SnapshotLinked(snapshot), None, None, actor, at),
          effective);
      case LinkArtifact(id, version, actor, at) =>
        AppendPins(t, refs, Occurrences.NewEvent(t, id, Occurrences.ArtifactLinked(version), None, None, actor, at),
          effective);
    }
  }

  lemma StepPins(w: World, c: WorldCommand)
    ensures Pinned(w.occs.rows, StepWorld(w, c).occs.rows, Reading(w.defs.versions))
    ensures w.occs.log <= StepWorld(w, c).occs.log
  {
    if c.Operate? && ExecWorld(w, c).Success? {
      OperatePins(w.occs, RefsOf(w), Reading(w.defs.versions), c.operation);
    }
  }

  /** Whatever commands follow, an occurrence keeps its control, period, due time, origin and pin. */
  lemma {:induction false} CoreForever(cmds: seq<WorldCommand>, i: nat, v: Id)
    requires i <= |cmds| && v in RunWorld(cmds[..i]).occs.rows
    ensures v in RunWorld(cmds).occs.rows
    ensures Occurrences.SameCore(RunWorld(cmds).occs.rows[v], RunWorld(cmds[..i]).occs.rows[v])
    decreases |cmds|
  {
    if i == |cmds| {
      assert cmds[..i] == cmds;
    } else {
      var front := cmds[..|cmds| - 1];
      assert front[..i] == cmds[..i];
      CoreForever(front, i, v);
      StepPins(RunWorld(front), cmds[|cmds| - 1]);
    }
  }

  /**
   Every occurrence is pinned to the version of its control's definition that was effective when the
   occurrence was created (to none exactly if none was), and the pin never changes.
   */
  lemma {:induction false} PinnedWhenCreated(cmds: seq<WorldCommand>, v: Id) returns (i: nat)
    requires v in RunWorld(cmds).occs.rows
    ensures i < |cmds| && v !in RunWorld(cmds[..i]).occs.rows && v in RunWorld(cmds[..i + 1]).occs.rows
    ensures RunWorld(cmds).occs.rows[v].pin ==
            EffectiveDefinition(RunWorld(cmds[..i]).defs.versions, RunWorld(cmds).occs.rows[v].control)
  {
    var n := |cmds| - 1;
    var front := cmds[..n];
    StepPins(RunWorld(front), cmds[n]);
    if v in RunWorld(front).occs.rows {
      i := PinnedWhenCreated(front, v);
      assert front[..i] == cmds[..i] && front[..i + 1] == cmds[..i + 1];
    } else {
      i := n;
      assert cmds[..n + 1] == cmds;
    }
  }

  lemma {:induction false} LogGrows(cmds: seq<WorldCommand>, i: nat)
    requires i <= |cmds|
    ensures RunWorld(cmds[..i]).occs.log <= RunWorld(cmds).occs.log
    decreases |cmds|
  {
    if i == |cmds| {
      assert cmds[..i] == cmds;
    } else {
      var front := cmds[..|cmds| - 1];
      assert front[..i] == cmds[..i];
      LogGrows(front, i);
      StepPins(RunWorld(front), cmds[|cmds| - 1]);
    }
  }

  /** In any run: a period's occurrences generated once are found again by every later call. */
  lemma GeneratedOnceInARun(cmds: seq<WorldCommand>, i: nat, c: Occurrences.Call, c': Occurrences.Call)
    requires i < |cmds| && cmds[i] == Operate(Occurrences.GenerateCall(c))
    requires c.period.Some? && c'.period == c.period && c'.control.id == c.control.id
    requires c'.control.interval == c.control.interval
    requires Occurrences.Scheduled(c.control) && Occurrences.Scheduled(c'.control)
    requires ExecWorld(RunWorld(cmds[..i]), cmds[i]).Success?
    ensures ExecWorld(RunWorld(cmds), Operate(Occurrences.GenerateCall(c'))) == Success(RunWorld(cmds))
  {
    var w, later := RunWorld(cmds[..i]), RunWorld(cmds);
    assert cmds[..i + 1][..i] == cmds[..i];
    LogGrows(cmds, i + 1);
    Occurrences.GeneratingAgain(w.occs, RefsOf(w), c, Reading(w.defs.versions)(c.control.id),
      later.occs, RefsOf(later), c', Reading(later.defs.versions)(c'.control.id));
  }

  /******* Periods in a run *******/

  /** The command is a call for that period of that control. */
  predicate CallsFor(c: WorldCommand, control: Id, period: Id) {
    c.Operate? && c.operation.GenerateCall? && c.operation.call.control.id == control &&
    Occurrences.Scheduled(c.operation.call.control) &&
    c.operation.call.period.Some? && c.operation.call.period.value.id == period
  }

  /** Every call for the period in the run sees the same dates and interval. */
  ghost predicate FixedPeriod(cmds: seq<WorldCommand>, control: Id, p: Occurrences.Period, interval: int) {
    forall i :: 0 <= i < |cmds| && CallsFor(cmds[i], control, p.id) ==>
      var call := cmds[i].operation.call;
      && call.control.interval == Some(interval)
      && call.period.value.starts == p.starts && call.period.value.ends == p.ends
  }

  /** Some call for the period has succeeded. */
  ghost predicate GeneratedIn(cmds: seq<WorldCommand>, control: Id, period: Id) {
    exists i :: SucceedsAt(cmds, control, period, i)
  }

  ghost predicate SucceedsAt(cmds: seq<WorldCommand>, control: Id, period: Id, i: int) {
    0 <= i < |cmds| && CallsFor(cmds[i], control, period) && ExecWorld(RunWorld(cmds[..i]), cmds[i]).Success?
  }

  lemma GeneratedInStep(cmds: seq<WorldCommand>, control: Id, period: Id)
    requires cmds != []
    ensures var n := |cmds| - 1;
      GeneratedIn(cmds, control, period) <==>
      GeneratedIn(cmds[..n], control, period) || SucceedsAt(cmds, control, period, n)
  {
    var n := |cmds| - 1;
    forall i | 0 <= i < n ensures SucceedsAt(cmds, control, period, i) <==> SucceedsAt(cmds[..n], control, period, i) {
      assert cmds[..n][..i] == cmds[..i];
    }
    if i :| SucceedsAt(cmds, control, period, i) {
      assert i < n ==> SucceedsAt(cmds[..n], control, period, i);
    }
    if i :| SucceedsAt(cmds[..n], control, period, i) {
      assert SucceedsAt(cmds, control, period, i);
    }
  }

  lemma SameCoreGenerated(before: map<Id, Occurrences.Occurrence>, after: map<Id, Occurrences.Occurrence>,
                          control: Id, period: Option<Id>, day: Occurrences.Day)
    requires forall v :: v in before ==> v in after && Occurrences.SameCore(after[v], before[v])
    requires forall v :: v in after && v !in before ==> after[v].origin == Occurrences.Manual
    ensures Occurrences.GeneratedOn(after, control, period, day) <==>
            Occurrences.GeneratedOn(before, control, period, day)
  {
    if v :| v in before && Occurrences.IsGenerated(before[v], control, period, day) {
      assert Occurrences.IsGenerated(after[v], control, period, day);
    }
    if v :| v in after && Occurrences.IsGenerated(after[v], control, period, day) {
      assert v in before && Occurrences.IsGenerated(before[v], control, period, day);
    }
  }

  /** Commands other than a successful call for the period leave its generated days alone. */
  lemma OtherCommandGenerated(w: World, c: WorldCommand, control: Id, period: Id, day: Occurrences.Day)
    requires ExecWorld(w, c).Success? && !CallsFor(c, control, period)
    ensures Occurrences.GeneratedOn(ExecWorld(w, c).value.occs.rows, control, Some(period), day) <==>
            Occurrences.GeneratedOn(w.occs.rows, control, Some(period), day)
  {
    if c.Operate? && c.operation.GenerateCall? {
      var call := c.operation.call;
      if Occurrences.Scheduled(call.control) {
        Occurrences.OtherGeneratedDays(w.occs, RefsOf(w), call, Reading(w.defs.versions)(call.control.id),
                                       control, Some(period), day);
      }
    } else {
      StepPins(w, c);
      SameCoreGenerated(w.occs.rows, ExecWorld(w, c).value.occs.rows, control, Some(period), day);
    }
  }

  /**
   In every run in which the calls for a period see the same dates and interval: once one has succeeded, the
   generated days of the control and the period are exactly the calendar's, and before that there are none.
   */
  lemma {:induction false} PeriodInARun(cmds: seq<WorldCommand>, control: Id, p: Occurrences.Period, interval: int,
                                        day: Occurrences.Day)
    requires interval > 0 && FixedPeriod(cmds, control, p, interval)
    ensures Occurrences.GeneratedOn(RunWorld(cmds).occs.rows, control, Some(p.id), day) <==>
            GeneratedIn(cmds, control, p.id) && Occurrences.DueIn(p, interval, day)
  {
    if cmds != [] {
      var n := |cmds| - 1;
      var w, c := RunWorld(cmds[..n]), cmds[n];
      PeriodInARun(cmds[..n], control, p, interval, day);
      GeneratedInStep(cmds, control, p.id);
      RunWorldInv(cmds[..n]);
      if ExecWorld(w, c).Success? {
        if CallsFor(c, control, p.id) {
          var call := c.operation.call;
          Occurrences.PeriodCall(w.occs, RefsOf(w), call, Reading(w.defs.versions)(control), day);
          assert Occurrences.DueIn(call.period.value, interval, day) <==> Occurrences.DueIn(p, interval, day);
        } else {
          OtherCommandGenerated(w, c, control, p.id, day);
        }
      }
    }
  }

  /******* Rolling generation in a run *******/

  /** The command, if it succeeds, rolls the control's period-less occurrences forward. */
  predicate Rolls(c: WorldCommand, control: Id) {
    c.Operate? && c.operation.GenerateCall? && c.operation.call.control.id == control &&
    c.operation.call.period.None? && Occurrences.Scheduled(c.operation.call.control)
  }

  /** The command, if it succeeds, records a period-less occurrence of the control by hand. */
  predicate RecordsByHand(c: WorldCommand, control: Id) {
    c.Operate? && c.operation.RecordManually? && c.operation.control == control &&
    c.operation.period.None? && c.operation.dueAt.Some?
  }

  /** What a command means for the calendar of a control. */
  ghost function OpsOf(w: World, c: WorldCommand, control: Id): seq<Cadence.Op> {
    if ExecWorld(w, c).Failure? then []
    else if Rolls(c, control) then [Cadence.Generate(c.operation.call.today, c.operation.call.horizon)]
    else if RecordsByHand(c, control) then [Cadence.Manual(c.operation.dueAt.value.day)]
    else []
  }

  ghost function CalendarOps(cmds: seq<WorldCommand>, control: Id): seq<Cadence.Op> {
    if cmds == [] then []
    else
      var n := |cmds| - 1;
      CalendarOps(cmds[..n], control) + OpsOf(RunWorld(cmds[..n]), cmds[n], control)
  }

  lemma {:induction false} CalendarOpsValid(cmds: seq<WorldCommand>, control: Id)
    ensures Cadence.ValidOps(CalendarOps(cmds, control))
  {
    if cmds != [] {
      CalendarOpsValid(cmds[..|cmds| - 1], control);
    }
  }

  function DaysOf(w: World, control: Id): set<Cadence.Date> {
    Occurrences.PeriodlessDays(w.occs.rows, control)
  }

  ghost predicate OnRecord(rows: map<Id, Occurrences.Occurrence>, control: Id, v: Id, d: Cadence.Date) {
    v in rows && rows[v].control == control && rows[v].period.None? && rows[v].due.Some? && rows[v].due.value.day == d
  }

  lemma DayOnRecord(rows: map<Id, Occurrences.Occurrence>, control: Id, d: Cadence.Date)
    ensures d in Occurrences.PeriodlessDays(rows, control) <==> exists v :: OnRecord(rows, control, v, d)
  {
    if d in Occurrences.PeriodlessDays(rows, control) {
      var v :| v in rows && rows[v].control == control && rows[v].period.None? && rows[v].due.Some? &&
        rows[v].due.value.day == d;
      assert OnRecord(rows, control, v, d);
    }
  }

  /** Days stay on record, and only new occurrences bring new ones. */
  lemma DaysGrow(before: map<Id, Occurrences.Occurrence>, after: map<Id, Occurrences.Occurrence>, control: Id,
      new': set<Cadence.Date>)
    requires forall v :: v in before ==> v in after && Occurrences.SameCore(after[v], before[v])
    requires forall v, d {:trigger OnRecord(after, control, v, d)} ::
      v !in before && OnRecord(after, control, v, d) ==> d in new'
    requires forall d :: d in new' ==> exists v :: OnRecord(after, control, v, d)
    ensures Occurrences.PeriodlessDays(after, control) == Occurrences.PeriodlessDays(before, control) + new'
  {
    var a, b := Occurrences.PeriodlessDays(before, control), Occurrences.PeriodlessDays(after, control);
    forall d ensures d in b <==> d in a || d in new' {
      DayOnRecord(before, control, d);
      DayOnRecord(after, control, d);
      if v :| OnRecord(before, control, v, d) {
        assert OnRecord(after, control, v, d);
      }
      if v :| OnRecord(after, control, v, d) {
        assert v in before ==> OnRecord(before, control, v, d);
      }
    }
  }

  /** A command other than a rolling call. */
  lemma OtherCommandDays(w: World, c: WorldCommand, control: Id)
    requires ExecWorld(w, c).Success? && !Rolls(c, control)
    ensures DaysOf(ExecWorld(w, c).value, control) ==
            DaysOf(w, control) + if RecordsByHand(c, control) then {c.operation.dueAt.value.day} else {}
  {
    if c.Operate? {
      var t, refs, effective, o := w.occs, RefsOf(w), Reading(w.defs.versions), c.operation;
      match o {
        case GenerateCall(call) => GeneratedElsewhere(w, call, control);
        case RecordManually(id, period, dueAt, scopeNote, actor, draw) =>
          AppendedDays(t, refs, Occurrences.NewEvent(t, draw.id,
            Occurrences.RecordedManually(id, period, dueAt, scopeNote, effective(id)), None, None, actor, draw.at),
                control);
        case Perform(id, person, scope, note, occurredAt, actor, at) =>
          AppendedDays(t, refs, Occurrences.NewEvent(t, id, Occurrences.Performed(person, scope, note), None,
            Some(occurredAt), actor, at), control);
        case LinkSnapshot(id, snapshot, actor, at) =>
          AppendedDays(t, refs, Occurrences.NewEvent(t, id, Occurrences.SnapshotLinked(snapshot), None, None, actor,
              at),
            control);
        case LinkArtifact(id, version, actor, at) =>
          AppendedDays(t, refs, Occurrences.NewEvent(t, id, Occurrences.ArtifactLinked(version), None, None, actor, at),
            control);
      }
    }
  }

  /** One event adds a day exactly if it creates a period-less occurrence of the control with a due time. */
  lemma AppendedDays(t: Occurrences.Tables, refs: Occurrences.Refs, e: Occurrences.OccurrenceEvent, control: Id)
    requires Occurrences.Accepts(t.rows, refs, e)
    ensures Occurrences.PeriodlessDays(Project(Occurrences.ProjectOccurrence, t.rows, e), control) ==
            Occurrences.PeriodlessDays(t.rows, control) + DaysAdded(e, control)
  {
    var after := Project(Occurrences.ProjectOccurrence, t.rows, e);
    forall d | d in DaysAdded(e, control) ensures exists v :: OnRecord(after, control, v, d) {
      assert OnRecord(after, control, e.id, d);
    }
    DaysGrow(t.rows, after, control, DaysAdded(e, control));
  }

  function DaysAdded(e: Occurrences.OccurrenceEvent, control: Id): set<Cadence.Date> {
    if !Occurrences.Creates(e.body) then {}
    else
      var row := Occurrences.NewRow(e);
      if row.control == control && row.period.None? && row.due.Some? then {row.due.value.day} else {}
  }

  lemma GeneratedElsewhere(w: World, call: Occurrences.Call, control: Id)
    requires ExecWorld(w, Operate(Occurrences.GenerateCall(call))).Success?
    requires !Rolls(Operate(Occurrences.GenerateCall(call)), control)
    ensures DaysOf(ExecWorld(w, Operate(Occurrences.GenerateCall(call))).value, control) == DaysOf(w, control)
  {
    StepPins(w, Operate(Occurrences.GenerateCall(call)));
    var before, after := w.occs.rows, ExecWorld(w, Operate(Occurrences.GenerateCall(call))).value.occs.rows;
    if Occurrences.Scheduled(call.control) {
      var plan := Occurrences.PlanOf(call, Reading(w.defs.versions)(call.control.id));
      var days := Occurrences.DueDays(before, call.control.id, call.period, call.today, call.horizon,
                                      call.control.interval.value);
      Occurrences.MaterializeAllGrows(w.occs, RefsOf(w), plan, days, call.draws);
      forall v | v in after && v !in before ensures after[v].control != control || after[v].period.Some? {
        assert Occurrences.IsNew(after[v], v, plan, days, call.draws);
      }
      DaysGrow(before, after, control, {});
    }
  }

  /** Every rolling call for the control in the run uses this interval. */
  ghost predicate FixedInterval(cmds: seq<WorldCommand>, control: Id, interval: int) {
    forall i :: 0 <= i < |cmds| && Rolls(cmds[i], control) ==>
      cmds[i].operation.call.control.interval == Some(interval)
  }

  /** In every run, a control's period-less days are what the calendar makes of its rolling calls and manual days. */
  lemma {:induction false} DaysFollowCalendar(cmds: seq<WorldCommand>, control: Id, interval: int)
    requires interval > 0 && FixedInterval(cmds, control, interval)
    ensures Cadence.ValidOps(CalendarOps(cmds, control))
    ensures DaysOf(RunWorld(cmds), control) == Cadence.DuesAfter(CalendarOps(cmds, control), interval)
  {
    CalendarOpsValid(cmds, control);
    if cmds != [] {
      var n := |cmds| - 1;
      DaysFollowCalendar(cmds[..n], control, interval);
      RunWorldInv(cmds[..n]);
      var w, c, ops := RunWorld(cmds[..n]), cmds[n], CalendarOps(cmds[..n], control);
      if ExecWorld(w, c).Failure? {
        assert ops + [] == ops;
      } else if Rolls(c, control) {
        var call := c.operation.call;
        Occurrences.RollingCall(w.occs, RefsOf(w), call, Reading(w.defs.versions)(control));
        assert (ops + OpsOf(w, c, control))[..|ops|] == ops;
      } else {
        OtherCommandDays(w, c, control);
        assert ops + [] == ops;
        assert RecordsByHand(c, control) ==> (ops + OpsOf(w, c, control))[..|ops|] == ops;
      }
    }
  }

  /**
   However a run splits its rolling calls, and whatever else happens in between: the period-less days
   of a control are exactly the dates of one chain, from the first date on record to the largest
   horizon asked for since, and the days recorded by hand, provided none of those was later than what
   was on record.
   */
  lemma RollingInARun(cmds: seq<WorldCommand>, control: Id, interval: int)
    requires interval > 0 && FixedInterval(cmds, control, interval)
    requires Cadence.ValidOps(CalendarOps(cmds, control)) && Cadence.NoLaterManual(CalendarOps(cmds, control), interval)
    ensures var ops := CalendarOps(cmds, control);
      match Cadence.SpanOf(ops)
      case None => DaysOf(RunWorld(cmds), control) == {}
      case Some(span) =>
        && Cadence.Valid(span.start)
        && DaysOf(RunWorld(cmds), control) ==
           Cadence.ChainUpTo(span.start, span.end, interval) + Cadence.ManualDates(ops)
  {
    DaysFollowCalendar(cmds, control, interval);
    Cadence.RollingIsOneChain(CalendarOps(cmds, control), interval);
  }
}
