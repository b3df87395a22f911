/**
 Control-definition versions (app/control_definition_lifecycle.py). They follow the policy versions'
 lifecycle, with two differences: the row itself is created by an event, and the projectors of the
 critical transitions flush, so the unique index on effective versions is checked in mid-replay.
 `owner` is here the control, `createdAt` the drafted_at column.
 */
module ControlDefinitions {
  import opened Common
  import opened EventLog
  import opened Replay
  import opened VersionLifecycle
  import opened PolicyLifecycle

  datatype ControlCommand =
    | DraftVersion(id: Id, control: Id, actor: Option<Id>, at: Time)
    | Transition(cmd: Command)

  /** INTERNAL_CONTROL_VERSION_PROJECTORS. */
  function ProjectDefinition(row: Option<VersionRow>, e: VersionEvent): Option<VersionRow> {
    match e.body
    case Drafted(control, number) => Some(VersionRow(control, number, e.recordedAt, FRESH))
    case _ => ProjectRow(row, e)
  }

  /** The largest version_number of the control's versions, 0 if there is none. */
  ghost function LastNumber(versions: map<Id, VersionRow>, control: Id): (n: nat)
    ensures forall v :: v in versions && versions[v].owner == control ==> versions[v].number <= n
    ensures n > 0 ==> exists v :: v in versions && versions[v].owner == control && versions[v].number == n
    decreases |versions|
  {
    if versions == map[] then 0
    else
      var v :| v in versions;
      var rest := versions - {v};
      assert |rest| < |versions| by {
        assert rest.Keys == versions.Keys - {v};
      }
      var n := LastNumber(rest, control);
      assert forall w :: w in versions && w != v ==> w in rest && rest[w] == versions[w];
      if versions[v].owner == control && n < versions[v].number then versions[v].number else n
  }

  ghost function ExecControl(db: Db, c: ControlCommand): Result<Db> {
    match c
    case DraftVersion(id, control, actor, at) =>
      if id in db.versions then Failure(IntegrityError)
      else
        var e := NewEvent(db.log, id, Drafted(control, LastNumber(db.versions, control) + 1), None, actor, at);
        Success(Db(Project(ProjectDefinition, db.versions, e), db.log + [e]))
    case Transition(cmd) =>
      if cmd.AddVersion? then Failure(ValueError)
      else if cmd.MakeEffective? && cmd.id in db.versions && db.versions[cmd.id].lifecycle.status == Approved &&
              !OneEffectivePerPolicy(AfterSupersede(db, cmd.id, cmd.actor, cmd.supersededAt).versions)
      then Failure(IntegrityError)
      else Exec(db, cmd)
  }

  ghost function RunControl(cmds: seq<ControlCommand>): Db {
    if cmds == [] then EMPTY
    else
      var before := RunControl(cmds[..|cmds| - 1]);
      var r := ExecControl(before, cmds[|cmds| - 1]);
      if r.Success? then r.value else before
  }

  /******* What every command keeps *******/

  /** A version's history starts with the event that created its row, which never recurs. */
  ghost predicate RootedAt(db: Db, v: Id)
    requires v in db.versions
  {
    var es, row := Of(db.log, v), db.versions[v];
    && es != [] && es[0].body == Drafted(row.owner, row.number) && es[0].recordedAt == row.createdAt
    && forall i :: 0 < i < |es| ==> !es[i].body.Drafted?
  }

  ghost predicate ControlInv(db: Db) {
    Inv(db) && forall v {:trigger RootedAt(db, v)} :: v in db.versions ==> RootedAt(db, v)
  }

  lemma DraftResult(db: Db, id: Id, control: Id, actor: Option<Id>, at: Time) returns (e: VersionEvent, after: Db)
    requires id !in db.versions
    ensures ExecControl(db, DraftVersion(id, control, actor, at)) == Success(after)
    ensures e.id == id && e.body.Drafted? && e.body.parent == control && e.sequence == NextSequence(db.log, id)
    ensures e.occurredAt == e.recordedAt && after.log == db.log + [e]
    ensures after.versions == db.versions[id := VersionRow(control, e.body.number, e.recordedAt, FRESH)]
  {
    e := NewEvent(db.log, id, Drafted(control, LastNumber(db.versions, control) + 1), None, actor, at);
    after := Db(Project(ProjectDefinition, db.versions, e), db.log + [e]);
  }

  lemma DraftKeepsInv(db: Db, id: Id, control: Id, actor: Option<Id>, at: Time)
    requires ControlInv(db) && id !in db.versions
    ensures ControlInv(ExecControl(db, DraftVersion(id, control, actor, at)).value)
  {
    var e, after := DraftResult(db, id, control, actor, at);
    DraftedKeepsInv(db, after, e);
  }

  lemma DraftedKeepsInv(db: Db, after: Db, e: VersionEvent)
    requires ControlInv(db) && e.id !in db.versions && e.body.Drafted? && e.sequence == NextSequence(db.log, e.id)
    requires e.occurredAt == e.recordedAt && after.log == db.log + [e]
    requires after.versions == db.versions[e.id := VersionRow(e.body.parent, e.body.number, e.recordedAt, FRESH)]
    ensures ControlInv(after)
  {
    DraftDisciplined(db, after, e);
    DraftTimes(db.log, e);
    DraftRows(db, after, e);
  }

  lemma DraftTimes(log: seq<VersionEvent>, e: VersionEvent)
    requires PairsClosed(log) && StatedTimes(log) && e.body.Drafted? && e.occurredAt == e.recordedAt
    ensures PairsClosed(log + [e]) && StatedTimes(log + [e])
  {
    PairsClosedAppend(log, e);
  }

  lemma DraftRows(db: Db, after: Db, e: VersionEvent)
    requires ControlInv(db) && e.id !in db.versions && e.body.Drafted? && after.log == db.log + [e]
    requires after.versions == db.versions[e.id := VersionRow(e.body.parent, e.body.number, e.recordedAt, FRESH)]
    ensures forall v {:trigger RowIsLive(after, v)} :: v in after.versions ==> RowIsLive(after, v)
    ensures forall v {:trigger RootedAt(after, v)} :: v in after.versions ==> RootedAt(after, v)
  {
    forall v | v in after.versions ensures RowIsLive(after, v) && RootedAt(after, v) {
      DraftRow(db, after, e, v);
    }
  }

  lemma DraftDisciplined(db: Db, after: Db, e: VersionEvent)
    requires Live(db) && e.id !in db.versions && e.body.Drafted? && e.sequence == NextSequence(db.log, e.id)
    requires after.log == db.log + [e]
    requires after.versions == db.versions[e.id := VersionRow(e.body.parent, e.body.number, e.recordedAt, FRESH)]
    ensures Disciplined(after.log, Parents(after.versions)) && Contiguous(after.log)
  {
    var parents := Parents(db.versions);
    DisciplinedNewVersion(db.log, parents, e.id, e.body.parent);
    NoEvents(db.log, e.id, parents);
    assert Parents(after.versions) == parents[e.id := e.body.parent];
    DisciplinedAppend(db.log, parents[e.id := e.body.parent], e);
    ContiguousMax(db.log, e.id);
    ContiguousAppend(db.log, e);
  }

  lemma DraftRow(db: Db, after: Db, e: VersionEvent, v: Id)
    requires ControlInv(db) && e.body.Drafted?
    requires after.log == db.log + [e]
    requires after.versions == db.versions[e.id := VersionRow(e.body.parent, e.body.number, e.recordedAt, FRESH)]
    requires v in after.versions && e.id !in db.versions
    ensures RowIsLive(after, v) && RootedAt(after, v)
  {
    StateAppend(db.log, e, v);
    OfAppend(db.log, e, v);
    if v == e.id {
      NoEvents(db.log, e.id, Parents(db.versions));
    } else {
      assert RowIsLive(db, v) && RootedAt(db, v);
      assert Of(db.log, v) + [] == Of(db.log, v);
    }
  }

  lemma AppendKeepsRoot(db: Db, e: VersionEvent)
    requires e.id in db.versions && !e.body.Drafted?
    requires forall v {:trigger RootedAt(db, v)} :: v in db.versions ==> RootedAt(db, v)
    ensures var after := AppendAndProject(db, e);
            forall v {:trigger RootedAt(after, v)} :: v in after.versions ==> RootedAt(after, v)
  {
    var after := AppendAndProject(db, e);
    AppendRow(db, e);
    forall v | v in after.versions ensures RootedAt(after, v) {
      assert RootedAt(db, v);
      OfAppend(db.log, e, v);
      assert Of(db.log, v) + [] == Of(db.log, v);
    }
  }

  lemma TransitionKeepsRoots(db: Db, cmd: Command)
    requires ControlInv(db) && !cmd.AddVersion? && Exec(db, cmd).Success?
    ensures var after := Exec(db, cmd).value;
            forall v {:trigger RootedAt(after, v)} :: v in after.versions ==> RootedAt(after, v)
  {
    match cmd {
      case Submit(id, actor, at) =>
        AppendKeepsRoot(db, NewEvent(db.log, id, SubmittedForReview, None, actor, at));
      case Review(id, decision, comment, actor, at) =>
        AppendKeepsRoot(db, NewEvent(db.log, id, Reviewed(decision, comment), None, actor, at));
      case MakeEffective(id, actor, supersededAt, at) => EffectiveKeepsRoots(db, id, actor, supersededAt, at);
      case Withdraw(id, reason, actor, occurredAt, at) =>
        AppendKeepsRoot(db, NewEvent(db.log, id, WithdrawnFor(reason), occurredAt, actor, at));
    }
  }

  lemma EffectiveKeepsRoots(db: Db, id: Id, actor: Option<Id>, supersededAt: Time, at: Time)
    requires ControlInv(db) && id in db.versions && ExecMakeEffective(db, id, actor, supersededAt, at).Success?
    ensures var after := ExecMakeEffective(db, id, actor, supersededAt, at).value;
            forall v {:trigger RootedAt(after, v)} :: v in after.versions ==> RootedAt(after, v)
  {
    var previous := PreviousEffective(db.versions, id);
    if previous.Some? {
      AppendKeepsRoot(db, NewEvent(db.log, previous.value, SupersededBy(id), None, actor, supersededAt));
    }
    var mid := AfterSupersede(db, id, actor, supersededAt);
    SupersedeKeepsRow(db, id, actor, supersededAt, id);
    AppendKeepsRoot(mid, NewEvent(mid.log, id, MadeEffective, None, actor, at));
  }

  lemma ControlStep(db: Db, c: ControlCommand)
    requires ControlInv(db) && ExecControl(db, c).Success?
    ensures ControlInv(ExecControl(db, c).value)
  {
    match c {
      case DraftVersion(id, control, actor, at) => DraftKeepsInv(db, id, control, actor, at);
      case Transition(cmd) =>
        TransitionKeepsRoots(db, cmd);
        ExecKeepsInv(db, cmd);
    }
  }

  lemma {:induction false} RunControlInv(cmds: seq<ControlCommand>)
    ensures ControlInv(RunControl(cmds))
  {
    if cmds != [] {
      var before, c := RunControl(cmds[..|cmds| - 1]), cmds[|cmds| - 1];
      RunControlInv(cmds[..|cmds| - 1]);
      if ExecControl(before, c).Success? {
        ControlStep(before, c);
      }
    }
  }

  /**
   Every prefix of the log in append order has at most one effective version per control, and no
   flush of a live command is ever refused by the index.
   */
  lemma EveryPrefixOneEffective(cmds: seq<ControlCommand>, k: nat, v: Id, w: Id)
    requires k <= |RunControl(cmds).log|
    requires v in RunControl(cmds).versions && w in RunControl(cmds).versions && v != w
    requires RunControl(cmds).versions[v].owner == RunControl(cmds).versions[w].owner
    ensures !(State(RunControl(cmds).log[..k], v).status == Effective &&
              State(RunControl(cmds).log[..k], w).status == Effective)
  {
    RunControlInv(cmds);
    var db := RunControl(cmds);
    OneEffective(db.log, Parents(db.versions), k, v, w);
  }

  lemma LiveFlushesPass(cmds: seq<ControlCommand>, cmd: Command)
    ensures ExecControl(RunControl(cmds), Transition(cmd)) != Failure(IntegrityError)
  {
    RunControlInv(cmds);
    var db := RunControl(cmds);
    if cmd.MakeEffective? && cmd.id in db.versions && db.versions[cmd.id].lifecycle.status == Approved {
      SupersedeKeepsLive(db, cmd.id, cmd.actor, cmd.supersededAt);
      LiveOneEffective(AfterSupersede(db, cmd.id, cmd.actor, cmd.supersededAt));
      MakeEffectiveSucceeds(db, cmd.id, cmd.actor, cmd.supersededAt, cmd.at);
    }
  }
}
