/**
 What the commands on versions accept and write (app/policy_lifecycle.py, app/control_definition_lifecycle.py),
 and what their events state in every run, whether requests overlap or not.
 */
module VersionRecords {
  import opened Common
  import opened EventLog
  import opened VersionLifecycle
  import opened PolicyLifecycle
  import opened ControlDefinitions
  import Requests = VersionRequests

  /******* Which commands are accepted *******/

  ghost predicate NumberTaken(versions: map<Id, VersionRow>, owner: Id, number: nat) {
    exists v :: v in versions && versions[v].owner == owner && versions[v].number == number
  }

  ghost predicate StatusIs(db: Db, id: Id, status: Status) {
    id in db.versions && db.versions[id].lifecycle.status == status
  }

  /** When each command goes through. */
  ghost predicate Acceptable(db: Db, cmd: Command) {
    match cmd
    case AddVersion(id, policy, number, _) => id !in db.versions && !NumberTaken(db.versions, policy, number)
    case Submit(id, _, _) => StatusIs(db, id, Draft)
    case Review(id, decision, comment, _, _) =>
      StatusIs(db, id, InReview) && (decision == "approved" || (decision == "rejected" && HasText(comment)))
    case MakeEffective(id, _, _, _) => StatusIs(db, id, Approved)
    case Withdraw(id, _, _, _, _) => id in db.versions && !StatusIs(db, id, Superseded) && !StatusIs(db, id, Withdrawn)
  }

  /** A command is accepted exactly then from every reachable state, and says why it is not. */
  lemma AcceptedIff(db: Db, cmd: Command)
    requires Inv(db)
    ensures Exec(db, cmd).Success? <==> Acceptable(db, cmd)
    ensures !cmd.AddVersion? ==>
      && (Exec(db, cmd) == Failure(MissingRow) <==> cmd.id !in db.versions)
      && (Exec(db, cmd) == Failure(ValueError) <==> cmd.id in db.versions && !Acceptable(db, cmd))
    ensures cmd.AddVersion? ==> (Exec(db, cmd) == Failure(IntegrityError) <==> !Acceptable(db, cmd))
  {
    if cmd.Review? {
      BlankIff(cmd.comment);
    }
    if cmd.MakeEffective? && StatusIs(db, cmd.id, Approved) {
      MakeEffectiveSucceeds(db, cmd.id, cmd.actor, cmd.supersededAt, cmd.at);
    }
  }

  /**
   A review of a version in review is refused exactly if the decision is neither word, or it is a rejection
   whose comment is only white space.
   */
  lemma ReviewRefusedIff(db: Db, id: Id, decision: string, comment: string, actor: Option<Id>, at: Time)
    requires Inv(db) && StatusIs(db, id, InReview)
    ensures Exec(db, Review(id, decision, comment, actor, at)) == Failure(ValueError) <==>
      (decision != "approved" && decision != "rejected") ||
      (decision == "rejected" && forall i :: 0 <= i < |comment| ==> IsSpace(comment[i]))
  {
    AcceptedIff(db, Review(id, decision, comment, actor, at));
  }

  /** The same condition decides whether an overlapping request goes on to write. */
  lemma LoadedIff(s: Requests.Shared, r: Requests.RequestId, cmd: Command)
    requires r !in s.open
    ensures r in Requests.Next(s, Requests.Load(r, cmd)).open <==> !cmd.AddVersion? && Acceptable(s.db, cmd)
  {
    if cmd.Review? {
      BlankIff(cmd.comment);
    }
  }

  /******* What they write *******/

  lemma SubmitWrites(db: Db, id: Id, actor: Option<Id>, at: Time)
    requires Exec(db, Submit(id, actor, at)).Success?
    ensures var after := Exec(db, Submit(id, actor, at)).value; var l := db.versions[id].lifecycle;
      after.versions == db.versions[id := db.versions[id].(lifecycle :=
        l.(status := InReview, submittedBy := actor, submittedAt := Some(at)))]
  {
  }

  lemma ReviewWrites(db: Db, id: Id, decision: string, comment: string, actor: Option<Id>, at: Time)
    requires Exec(db, Review(id, decision, comment, actor, at)).Success?
    ensures var after := Exec(db, Review(id, decision, comment, actor, at)).value; var l := db.versions[id].lifecycle;
      && after.versions == db.versions[id := db.versions[id].(lifecycle :=
           l.(status := after.versions[id].lifecycle.status, reviewedBy := actor, reviewedAt := Some(at),
              reviewDecision := Some(decision), reviewComment := comment))]
      && (after.versions[id].lifecycle.status == Approved <==> decision == "approved")
      && (after.versions[id].lifecycle.status == Draft <==> decision == "rejected")
  {
  }

  /** Withdrawing states the caller's time if there is one, and the clock's otherwise. */
  lemma WithdrawWrites(db: Db, id: Id, reason: string, actor: Option<Id>, occurredAt: Option<Time>, at: Time)
    requires Exec(db, Withdraw(id, reason, actor, occurredAt, at)).Success?
    ensures var after := Exec(db, Withdraw(id, reason, actor, occurredAt, at)).value;
      var l := db.versions[id].lifecycle;
      && after.versions == db.versions[id := db.versions[id].(lifecycle :=
           l.(status := Withdrawn, withdrawnReason := reason,
              withdrawnAt := after.versions[id].lifecycle.withdrawnAt))]
      && (occurredAt.Some? ==> after.versions[id].lifecycle.withdrawnAt == occurredAt)
      && (occurredAt.None? ==> after.versions[id].lifecycle.withdrawnAt == Some(at))
  {
  }

  /**
   Making a version effective: it becomes effective now, every other effective version of its policy is
   superseded by it, and no other row changes.
   */
  lemma EffectiveWrites(db: Db, id: Id, actor: Option<Id>, supersededAt: Time, at: Time, v: Id)
    requires Inv(db) && Exec(db, MakeEffective(id, actor, supersededAt, at)).Success?
    ensures var after := Exec(db, MakeEffective(id, actor, supersededAt, at)).value;
      && after.versions.Keys == db.versions.Keys
      && (v in db.versions ==>
            var l := db.versions[v].lifecycle;
            after.versions[v] == db.versions[v].(lifecycle :=
              if v == id then l.(status := Effective, effectiveAt := Some(at))
              else if l.status == Effective && db.versions[v].owner == db.versions[id].owner then
                l.(status := Superseded, supersededAt := Some(supersededAt), supersededBy := Some(id))
              else l))
  {
    var previous := PreviousEffective(db.versions, id);
    var mid := AfterSupersede(db, id, actor, supersededAt);
    LiveOneEffective(db);
    if previous.Some? {
      AppendRow(db, NewEvent(db.log, previous.value, SupersededBy(id), None, actor, supersededAt));
      assert !BothEffective(db.versions, v, previous.value);
    } else {
      assert !IsOtherEffective(db.versions, id, v);
    }
    AppendRow(mid, NewEvent(mid.log, id, MadeEffective, None, actor, at));
  }

  /** The event that a command states about its own version. */
  ghost predicate StatesCommand(e: VersionEvent, cmd: Command) {
    && !cmd.AddVersion? && e.id == cmd.id && e.actor == cmd.actor && e.recordedAt == cmd.at && e.key == None
    && match cmd
       case Submit(_, _, _) => e.body == SubmittedForReview && e.occurredAt == cmd.at
       case Review(_, decision, comment, _, _) => e.body == Reviewed(decision, comment) && e.occurredAt == cmd.at
       case MakeEffective(_, _, _, _) => e.body == MadeEffective && e.occurredAt == cmd.at
       case Withdraw(_, reason, _, occurredAt, _) =>
         e.body == WithdrawnFor(reason) && e.occurredAt == if occurredAt.Some? then occurredAt.value else cmd.at
  }

  /** The event by which the version in force makes room. */
  ghost predicate StatesSupersession(db: Db, e: VersionEvent, cmd: Command)
    requires cmd.MakeEffective?
  {
    && e.id in db.versions && e.id != cmd.id && StatusIs(db, e.id, Effective) && e.body == SupersededBy(cmd.id)
    && e.actor == cmd.actor && e.recordedAt == cmd.supersededAt && e.occurredAt == cmd.supersededAt && e.key == None
  }

  /** An accepted command adds its event to the log, numbered next, and before it at most the one supersession. */
  lemma CommandLogs(db: Db, cmd: Command)
    requires Inv(db) && !cmd.AddVersion? && Exec(db, cmd).Success?
    ensures var log, n := Exec(db, cmd).value.log, |db.log|;
      && n < |log| && log[..n] == db.log && StatesCommand(log[|log| - 1], cmd)
      && log[|log| - 1].sequence == |Of(db.log, cmd.id)| + 1
      && (|log| == n + 1 || (|log| == n + 2 && cmd.MakeEffective? && StatesSupersession(db, log[n], cmd)))
  {
    ContiguousMax(db.log, cmd.id);
    if cmd.MakeEffective? {
      var previous := PreviousEffective(db.versions, cmd.id);
      if previous.Some? {
        var e := NewEvent(db.log, previous.value, SupersededBy(cmd.id), None, cmd.actor, cmd.supersededAt);
        OfAppend(db.log, e, cmd.id);
        assert Of(db.log, cmd.id) + [] == Of(db.log, cmd.id);
        SupersedeKeepsLive(db, cmd.id, cmd.actor, cmd.supersededAt);
        ContiguousMax(db.log + [e], cmd.id);
      }
    }
  }

  /******* What reviews state *******/

  /** A review approves, or rejects with a comment that is not only white space. */
  ghost predicate Stated(b: Body) {
    b.Reviewed? ==> b.decision == "approved" || (b.decision == "rejected" && HasText(b.comment))
  }

  ghost predicate AllStated(log: seq<VersionEvent>) {
    forall k {:trigger log[k]} :: 0 <= k < |log| ==> Stated(log[k].body)
  }

  lemma StatedAppend(log: seq<VersionEvent>, e: VersionEvent)
    requires AllStated(log) && Stated(e.body)
    ensures AllStated(log + [e])
  {
  }

  lemma ExecStated(db: Db, cmd: Command)
    requires AllStated(db.log) && Exec(db, cmd).Success?
    ensures AllStated(Exec(db, cmd).value.log)
  {
    match cmd {
      case AddVersion(_, _, _, _) =>
      case Submit(id, actor, at) => StatedAppend(db.log, NewEvent(db.log, id, SubmittedForReview, None, actor, at));
      case Review(id, decision, comment, actor, at) =>
        BlankIff(comment);
        StatedAppend(db.log, NewEvent(db.log, id, Reviewed(decision, comment), None, actor, at));
      case MakeEffective(id, actor, supersededAt, at) =>
        var previous := PreviousEffective(db.versions, id);
        if previous.Some? {
          StatedAppend(db.log, NewEvent(db.log, previous.value, SupersededBy(id), None, actor, supersededAt));
        }
        var mid := AfterSupersede(db, id, actor, supersededAt);
        StatedAppend(mid.log, NewEvent(mid.log, id, MadeEffective, None, actor, at));
      case Withdraw(id, reason, actor, occurredAt, at) =>
        StatedAppend(db.log, NewEvent(db.log, id, WithdrawnFor(reason), occurredAt, actor, at));
    }
  }

  /** One command at a time: in every run, every review on record approves, or rejects with a comment. */
  lemma {:induction false} RunStated(cmds: seq<Command>)
    ensures AllStated(Run(cmds).log)
  {
    if cmds != [] {
      RunStated(cmds[..|cmds| - 1]);
      if Exec(Run(cmds[..|cmds| - 1]), cmds[|cmds| - 1]).Success? {
        ExecStated(Run(cmds[..|cmds| - 1]), cmds[|cmds| - 1]);
      }
    }
  }

  /** The same for control definitions. */
  lemma {:induction false} RunControlStated(cmds: seq<ControlCommand>)
    ensures AllStated(RunControl(cmds).log)
  {
    if cmds != [] {
      var before, c := RunControl(cmds[..|cmds| - 1]), cmds[|cmds| - 1];
      RunControlStated(cmds[..|cmds| - 1]);
      if ExecControl(before, c).Success? {
        match c {
          case DraftVersion(id, control, actor, at) =>
            StatedAppend(before.log, RunControl(cmds).log[|before.log|]);
          case Transition(cmd) => ExecStated(before, cmd);
        }
      }
    }
  }

  ghost predicate RequestsStated(s: Requests.Shared) {
    forall r :: r in s.open ==> !s.open[r].cmd.AddVersion? && Stated(Requests.BodyOf(s.open[r].cmd))
  }

  lemma StepStated(s: Requests.Shared, step: Requests.Step)
    requires AllStated(s.db.log) && RequestsStated(s)
    ensures AllStated(Requests.Next(s, step).db.log) && RequestsStated(Requests.Next(s, step))
  {
    match step {
      case Create(id, owner, number, drafted, actor, at) =>
        if drafted {
          StatedAppend(s.db.log, NewEvent(s.db.log, id, Drafted(owner, number), None, actor, at));
        }
      case Load(r, cmd) =>
        if cmd.Review? {
          BlankIff(cmd.comment);
        }
      case Look(r) =>
      case Write(r) =>
        if r in s.open && Requests.Ready(s.open[r]) {
          WriteStated(s, r);
        }
      case Drop(r) =>
    }
  }

  lemma WriteStated(s: Requests.Shared, r: Requests.RequestId)
    requires AllStated(s.db.log) && RequestsStated(s) && r in s.open && Requests.Ready(s.open[r])
    ensures AllStated(Requests.Written(s.db, s.open[r]).log)
  {
    var q := s.open[r];
    if q.Looked? && q.previous.Some? {
      StatedAppend(s.db.log, Requests.SupersedeEvent(s.db.log, q));
    }
    var mid := Requests.Midway(s.db, q);
    StatedAppend(mid.log, Requests.EventOf(mid.log, q.cmd));
  }

  /** However requests overlap, every review on record approves, or rejects with a comment. */
  lemma {:induction false} OverlappedStated(steps: seq<Requests.Step>)
    ensures AllStated(Requests.Run(steps).db.log) && RequestsStated(Requests.Run(steps))
  {
    if steps != [] {
      OverlappedStated(steps[..|steps| - 1]);
      StepStated(Requests.Run(steps[..|steps| - 1]), steps[|steps| - 1]);
    }
  }

  /******* Version numbers *******/

  ghost predicate NumbersDiffer(versions: map<Id, VersionRow>) {
    forall v, w ::
      (v in versions && w in versions && versions[v].owner == versions[w].owner &&
       versions[v].number == versions[w].number)
      ==> v == w
  }

  /** The rows keep who owns them and their numbers. */
  ghost predicate SameIdentity(versions: map<Id, VersionRow>, after: map<Id, VersionRow>) {
    versions.Keys == after.Keys &&
    forall v :: v in versions ==> after[v].owner == versions[v].owner && after[v].number == versions[v].number
  }

  lemma AppendIdentity(db: Db, e: VersionEvent)
    requires e.id in db.versions
    ensures SameIdentity(db.versions, AppendAndProject(db, e).versions)
  {
    AppendRow(db, e);
  }

  lemma StartIdentity(db: Db, id: Id, actor: Option<Id>, supersededAt: Time, at: Time)
    requires id in db.versions && ExecMakeEffective(db, id, actor, supersededAt, at).Success?
    ensures SameIdentity(db.versions, ExecMakeEffective(db, id, actor, supersededAt, at).value.versions)
  {
    var previous := PreviousEffective(db.versions, id);
    if previous.Some? {
      AppendIdentity(db, NewEvent(db.log, previous.value, SupersededBy(id), None, actor, supersededAt));
    }
    var mid := AfterSupersede(db, id, actor, supersededAt);
    AppendIdentity(mid, NewEvent(mid.log, id, MadeEffective, None, actor, at));
  }

  lemma ExecIdentity(db: Db, cmd: Command)
    requires !cmd.AddVersion? && Exec(db, cmd).Success?
    ensures SameIdentity(db.versions, Exec(db, cmd).value.versions)
  {
    match cmd {
      case Submit(id, actor, at) => AppendIdentity(db, NewEvent(db.log, id, SubmittedForReview, None, actor, at));
      case Review(id, decision, comment, actor, at) =>
        AppendIdentity(db, NewEvent(db.log, id, Reviewed(decision, comment), None, actor, at));
      case MakeEffective(id, actor, supersededAt, at) => StartIdentity(db, id, actor, supersededAt, at);
      case Withdraw(id, reason, actor, occurredAt, at) =>
        AppendIdentity(db, NewEvent(db.log, id, WithdrawnFor(reason), occurredAt, actor, at));
    }
  }

  /** In every run no two versions of a policy share a number. */
  lemma {:induction false} RunNumbersDiffer(cmds: seq<Command>)
    ensures NumbersDiffer(Run(cmds).versions)
  {
    if cmds != [] {
      var before, cmd := Run(cmds[..|cmds| - 1]), cmds[|cmds| - 1];
      RunNumbersDiffer(cmds[..|cmds| - 1]);
      if Exec(before, cmd).Success? && !cmd.AddVersion? {
        ExecIdentity(before, cmd);
      }
    }
  }

  lemma WriteIdentity(s: Requests.Shared, r: Requests.RequestId)
    requires r in s.open && Requests.Ready(s.open[r])
    ensures SameIdentity(s.db.versions, Requests.Written(s.db, s.open[r]).versions)
  {
  }

  /** Nor however requests overlap. */
  lemma {:induction false} OverlappedNumbersDiffer(steps: seq<Requests.Step>)
    ensures NumbersDiffer(Requests.Run(steps).db.versions)
  {
    if steps != [] {
      var s, step := Requests.Run(steps[..|steps| - 1]), steps[|steps| - 1];
      OverlappedNumbersDiffer(steps[..|steps| - 1]);
      if step.Write? && step.r in s.open && Requests.Ready(s.open[step.r]) {
        WriteIdentity(s, step.r);
      }
    }
  }

  /******* A request on its own *******/

  /** The steps of a request: load, look for the version to supersede if there may be one, write. */
  function StepsOf(r: Requests.RequestId, cmd: Command): seq<Requests.Step> {
    if cmd.MakeEffective? then [Requests.Load(r, cmd), Requests.Look(r), Requests.Write(r)]
    else [Requests.Load(r, cmd), Requests.Write(r)]
  }

  ghost function AfterSteps(s: Requests.Shared, steps: seq<Requests.Step>): Requests.Shared
    decreases |steps|
  {
    if steps == [] then s else AfterSteps(Requests.Next(s, steps[0]), steps[1..])
  }

  /** A request with no other step in between does what the command does when called alone, or nothing. */
  lemma LoneRequestIsCommand(s: Requests.Shared, r: Requests.RequestId, cmd: Command)
    requires Inv(s.db) && r !in s.open && !cmd.AddVersion?
    ensures var t := AfterSteps(s, StepsOf(r, cmd));
      t.db == (if Exec(s.db, cmd).Success? then Exec(s.db, cmd).value else s.db) && t.open == s.open
  {
    AcceptedIff(s.db, cmd);
    LoadedIff(s, r, cmd);
    if Exec(s.db, cmd).Success? {
      if cmd.MakeEffective? {
        LoneStart(s, r, cmd);
      } else {
        LoneWrite(s, r, cmd);
      }
    } else {
      Refused(s, r, cmd);
    }
  }

  lemma LoneWrite(s: Requests.Shared, r: Requests.RequestId, cmd: Command)
    requires Inv(s.db) && r !in s.open && !cmd.AddVersion? && !cmd.MakeEffective? && Exec(s.db, cmd).Success?
    requires r in Requests.Next(s, Requests.Load(r, cmd)).open
    ensures var t := AfterSteps(s, StepsOf(r, cmd)); t.db == Exec(s.db, cmd).value && t.open == s.open
  {
    var loaded := Requests.Next(s, Requests.Load(r, cmd));
    ExecKeepsInv(s.db, cmd);
    LiveOneEffective(Exec(s.db, cmd).value);
    assert Requests.Written(s.db, loaded.open[r]) == Exec(s.db, cmd).value;
    var t := Requests.Next(loaded, Requests.Write(r));
    assert t.open == s.open;
    assert StepsOf(r, cmd)[1..] == [Requests.Write(r)];
    assert AfterSteps(loaded, [Requests.Write(r)]) == AfterSteps(t, []);
  }

  lemma LoneStart(s: Requests.Shared, r: Requests.RequestId, cmd: Command)
    requires Inv(s.db) && r !in s.open && cmd.MakeEffective? && Exec(s.db, cmd).Success?
    requires r in Requests.Next(s, Requests.Load(r, cmd)).open
    ensures var t := AfterSteps(s, StepsOf(r, cmd)); t.db == Exec(s.db, cmd).value && t.open == s.open
  {
    var loaded := Requests.Next(s, Requests.Load(r, cmd));
    var looked := Requests.Next(loaded, Requests.Look(r));
    assert Requests.Written(s.db, looked.open[r]) == Exec(s.db, cmd).value;
    var t := Requests.Next(looked, Requests.Write(r));
    assert t.open == s.open;
    assert StepsOf(r, cmd)[1..] == [Requests.Look(r), Requests.Write(r)];
    assert [Requests.Look(r), Requests.Write(r)][1..] == [Requests.Write(r)];
    assert AfterSteps(looked, [Requests.Write(r)]) == AfterSteps(t, []);
  }

  lemma Refused(s: Requests.Shared, r: Requests.RequestId, cmd: Command)
    requires r !in s.open && r !in Requests.Next(s, Requests.Load(r, cmd)).open
    ensures AfterSteps(s, StepsOf(r, cmd)) == s
  {
    assert Requests.Next(s, Requests.Load(r, cmd)) == s;
    assert Requests.Next(s, Requests.Look(r)) == s && Requests.Next(s, Requests.Write(r)) == s;
    assert AfterSteps(s, [Requests.Write(r)]) == AfterSteps(s, []);
    assert [Requests.Look(r), Requests.Write(r)][1..] == [Requests.Write(r)];
    assert StepsOf(r, cmd)[1..] ==
      if cmd.MakeEffective? then [Requests.Look(r), Requests.Write(r)] else [Requests.Write(r)];
  }

  /** Adding a policy version is the same in both machines. */
  lemma CreatingIsAdding(s: Requests.Shared, id: Id, policy: Id, number: nat, actor: Option<Id>, at: Time)
    ensures var t := Requests.Next(s, Requests.Create(id, policy, number, false, actor, at));
      var r := Exec(s.db, AddVersion(id, policy, number, at));
      t.db == (if r.Success? then r.value else s.db) && t.open == s.open
  {
  }

  /** So is drafting a definition, with the number that the draft computes. */
  lemma CreatingIsDrafting(s: Requests.Shared, id: Id, control: Id, actor: Option<Id>, at: Time)
    ensures var number := LastNumber(s.db.versions, control) + 1;
      var t := Requests.Next(s, Requests.Create(id, control, number, true, actor, at));
      var r := ExecControl(s.db, DraftVersion(id, control, actor, at));
      t.db == (if r.Success? then r.value else s.db) && t.open == s.open
  {
  }
}
