/**
 The numbers of control-definition versions (app/control_definition_lifecycle.py): a draft takes the largest
 number in use plus one, so that the versions of a control are numbered 1, 2, 3, ... in the order of drafting.
 */
module DefinitionNumbers {
  import opened Common
  import opened EventLog
  import opened VersionLifecycle
  import opened PolicyLifecycle
  import opened ControlDefinitions

  /** The draft events of a control, in the order of the log. */
  function DraftsOf(log: seq<VersionEvent>, control: Id): seq<VersionEvent> {
    if log == [] then []
    else
      var last := log[|log| - 1];
      DraftsOf(log[..|log| - 1], control) +
      if last.body.Drafted? && last.body.parent == control then [last] else []
  }

  lemma {:induction false} DraftMember(log: seq<VersionEvent>, control: Id, e: VersionEvent)
    ensures e in DraftsOf(log, control) <==> e in log && e.body.Drafted? && e.body.parent == control
  {
    if log != [] {
      DraftMember(log[..|log| - 1], control, e);
      assert log == log[..|log| - 1] + [log[|log| - 1]];
    }
  }

  lemma DraftsAppend(log: seq<VersionEvent>, e: VersionEvent, control: Id)
    ensures DraftsOf(log + [e], control) ==
      DraftsOf(log, control) + if e.body.Drafted? && e.body.parent == control then [e] else []
  {
    assert (log + [e])[..|log|] == log;
  }

  ghost predicate NumberedAs(log: seq<VersionEvent>, control: Id, i: int)
    requires 0 <= i < |DraftsOf(log, control)|
  {
    DraftsOf(log, control)[i].body.Drafted? && DraftsOf(log, control)[i].body.number == i + 1
  }

  /** The drafts of each control state the numbers 1, 2, 3, ... in order. */
  ghost predicate Numbered(log: seq<VersionEvent>) {
    forall control, i {:trigger NumberedAs(log, control, i)} ::
      0 <= i < |DraftsOf(log, control)| ==> NumberedAs(log, control, i)
  }

  /** A version's row has the control and the number of its draft. */
  lemma RowIsDraft(db: Db, v: Id) returns (i: nat)
    requires ControlInv(db) && Numbered(db.log) && v in db.versions
    ensures var drafts := DraftsOf(db.log, db.versions[v].owner);
      i < |drafts| && drafts[i].id == v && db.versions[v].number == i + 1
  {
    assert RootedAt(db, v);
    var draft, control := Of(db.log, v)[0], db.versions[v].owner;
    OfMember(db.log, v, draft);
    DraftMember(db.log, control, draft);
    i :| 0 <= i < |DraftsOf(db.log, control)| && DraftsOf(db.log, control)[i] == draft;
    assert NumberedAs(db.log, control, i);
  }

  /** A draft has a row, with its control and number. */
  lemma DraftIsRow(db: Db, control: Id, i: nat)
    requires ControlInv(db) && Numbered(db.log) && i < |DraftsOf(db.log, control)|
    ensures var v := DraftsOf(db.log, control)[i].id;
      v in db.versions && db.versions[v].owner == control && db.versions[v].number == i + 1
  {
    var draft := DraftsOf(db.log, control)[i];
    DraftMember(db.log, control, draft);
    OfMember(db.log, draft.id, draft);
    if draft.id !in db.versions {
      NoEvents(db.log, draft.id, Parents(db.versions));
    }
    assert RootedAt(db, draft.id);
    assert NumberedAs(db.log, control, i);
  }

  /** The largest number in use is the number of drafts. */
  lemma LastNumberCounts(db: Db, control: Id)
    requires ControlInv(db) && Numbered(db.log)
    ensures LastNumber(db.versions, control) == |DraftsOf(db.log, control)|
  {
    var n, m := LastNumber(db.versions, control), |DraftsOf(db.log, control)|;
    if n > 0 {
      var v :| v in db.versions && db.versions[v].owner == control && db.versions[v].number == n;
      var i := RowIsDraft(db, v);
    }
    if m > 0 {
      DraftIsRow(db, control, m - 1);
    }
  }

  /** Appending an event keeps the numbers, if a draft states the next one. */
  lemma NumberedAppend(log: seq<VersionEvent>, e: VersionEvent)
    requires Numbered(log)
    requires e.body.Drafted? ==> e.body.number == |DraftsOf(log, e.body.parent)| + 1
    ensures Numbered(log + [e])
  {
    forall control, i | 0 <= i < |DraftsOf(log + [e], control)| ensures NumberedAs(log + [e], control, i) {
      DraftsAppend(log, e, control);
      assert i < |DraftsOf(log, control)| ==> NumberedAs(log, control, i);
    }
  }

  lemma TransitionKeepsNumbers(db: Db, cmd: Command)
    requires ControlInv(db) && Numbered(db.log) && !cmd.AddVersion? && Exec(db, cmd).Success?
    ensures Numbered(Exec(db, cmd).value.log)
  {
    match cmd {
      case Submit(id, actor, at) =>
        NumberedAppend(db.log, NewEvent(db.log, id, SubmittedForReview, None, actor, at));
      case Review(id, decision, comment, actor, at) =>
        NumberedAppend(db.log, NewEvent(db.log, id, Reviewed(decision, comment), None, actor, at));
      case MakeEffective(id, actor, supersededAt, at) =>
        var previous := PreviousEffective(db.versions, id);
        if previous.Some? {
          NumberedAppend(db.log, NewEvent(db.log, previous.value, SupersededBy(id), None, actor, supersededAt));
        }
        var mid := AfterSupersede(db, id, actor, supersededAt);
        NumberedAppend(mid.log, NewEvent(mid.log, id, MadeEffective, None, actor, at));
      case Withdraw(id, reason, actor, occurredAt, at) =>
        NumberedAppend(db.log, NewEvent(db.log, id, WithdrawnFor(reason), occurredAt, actor, at));
    }
  }

  lemma {:induction false} RunNumbered(cmds: seq<ControlCommand>)
    ensures Numbered(RunControl(cmds).log)
  {
    if cmds != [] {
      var n := |cmds| - 1;
      var before, c := RunControl(cmds[..n]), cmds[n];
      RunNumbered(cmds[..n]);
      RunControlInv(cmds[..n]);
      if ExecControl(before, c).Success? {
        match c {
          case DraftVersion(id, control, actor, at) =>
            LastNumberCounts(before, control);
            NumberedAppend(before.log, RunControl(cmds).log[|before.log|]);
          case Transition(cmd) => TransitionKeepsNumbers(before, cmd);
        }
      }
    }
  }

  /**
   In every run: the versions of a control are those of its draft events, numbered 1, 2, ..., n in the order of
   these events.
   */
  lemma VersionsAreNumbered(cmds: seq<ControlCommand>, control: Id)
    ensures var db := RunControl(cmds); var drafts := DraftsOf(db.log, control);
      && (forall i :: 0 <= i < |drafts| ==>
            && drafts[i].id in db.versions && db.versions[drafts[i].id].owner == control
            && db.versions[drafts[i].id].number == i + 1)
      && (forall v :: v in db.versions && db.versions[v].owner == control ==>
            1 <= db.versions[v].number <= |drafts| && drafts[db.versions[v].number - 1].id == v)
  {
    RunControlInv(cmds);
    RunNumbered(cmds);
    var db := RunControl(cmds);
    var drafts := DraftsOf(db.log, control);
    forall i | 0 <= i < |drafts|
      ensures drafts[i].id in db.versions && db.versions[drafts[i].id].owner == control
      ensures db.versions[drafts[i].id].number == i + 1
    {
      DraftIsRow(db, control, i);
    }
    forall v | v in db.versions && db.versions[v].owner == control
      ensures 1 <= db.versions[v].number <= |drafts| && drafts[db.versions[v].number - 1].id == v
    {
      var i := RowIsDraft(db, v);
    }
  }

  /** In every run no two versions of a control share a number. */
  lemma NumbersAreUnique(cmds: seq<ControlCommand>, v: Id, w: Id)
    requires v in RunControl(cmds).versions && w in RunControl(cmds).versions
    requires RunControl(cmds).versions[v].owner == RunControl(cmds).versions[w].owner
    requires RunControl(cmds).versions[v].number == RunControl(cmds).versions[w].number
    ensures v == w
  {
    var db := RunControl(cmds);
    RunControlInv(cmds);
    RunNumbered(cmds);
    var i := RowIsDraft(db, v);
    var j := RowIsDraft(db, w);
  }

  /** Drafting adds the one row that the command asks for, with the number after the control's last. */
  lemma DraftAdds(cmds: seq<ControlCommand>, id: Id, control: Id, actor: Option<Id>, at: Time)
    ensures var db := RunControl(cmds); var r := ExecControl(db, DraftVersion(id, control, actor, at));
      && (r.Success? <==> id !in db.versions)
      && (r.Success? ==>
            && r.value.versions == db.versions[id := VersionRow(control, |DraftsOf(db.log, control)| + 1, at, FRESH)]
            && |r.value.log| == |db.log| + 1 && r.value.log[..|db.log|] == db.log
            && r.value.log[|db.log|].actor == actor && r.value.log[|db.log|].recordedAt == at)
  {
    RunControlInv(cmds);
    RunNumbered(cmds);
    LastNumberCounts(RunControl(cmds), control);
  }
}
