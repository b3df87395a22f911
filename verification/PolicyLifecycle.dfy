/**
 Policy versions and their approval lifecycle (app/policy_lifecycle.py): commands that guard on the
 current status, append events and project them, and the rebuild of the projection.
 */
module PolicyLifecycle {
  import opened Common
  import opened EventLog
  import opened Replay
  import opened VersionLifecycle

  /** A policy_versions row; `owner` is its policy. The file-capture columns other than created_at are not modelled. */
  datatype VersionRow = VersionRow(owner: Id, number: nat, createdAt: Time, lifecycle: Lifecycle)

  /** The policy_versions table and the policy_version events of domain_events. */
  datatype Db = Db(versions: map<Id, VersionRow>, log: seq<VersionEvent>)

  const EMPTY := Db(map[], [])

  /** Clock readings (`at`, `supersededAt`) are parameters of the commands. */
  datatype Command =
    | AddVersion(id: Id, policy: Id, number: nat, at: Time)
    | Submit(id: Id, actor: Option<Id>, at: Time)
    | Review(id: Id, decision: string, comment: string, actor: Option<Id>, at: Time)
    | MakeEffective(id: Id, actor: Option<Id>, supersededAt: Time, at: Time)
    | Withdraw(id: Id, reason: string, actor: Option<Id>, occurredAt: Option<Time>, at: Time)

  /** POLICY_VERSION_PROJECTORS: each writes only the row of its own aggregate. */
  function ProjectRow(row: Option<VersionRow>, e: VersionEvent): Option<VersionRow> {
    match row
    case Some(r) => Some(r.(lifecycle := Apply(r.lifecycle, e)))
    case None => None
  }

  function NewEvent(log: seq<VersionEvent>, id: Id, body: Body, occurredAt: Option<Time>, actor: Option<Id>, at: Time)
    : VersionEvent
  {
    Event(id, NextSequence(log, id), body, if occurredAt.Some? then occurredAt.value else at, at, actor, None)
  }

  function AppendAndProject(db: Db, e: VersionEvent): Db {
    Db(Project(ProjectRow, db.versions, e), db.log + [e])
  }

  /** uq_policy_version_one_effective_per_policy. */
  ghost predicate OneEffectivePerPolicy(versions: map<Id, VersionRow>) {
    forall v, w {:trigger BothEffective(versions, v, w)} :: !BothEffective(versions, v, w)
  }

  /** Two different versions of one policy are effective. */
  predicate BothEffective(versions: map<Id, VersionRow>, v: Id, w: Id) {
    v in versions && w in versions && v != w && versions[v].owner == versions[w].owner &&
    versions[v].lifecycle.status == Effective && versions[w].lifecycle.status == Effective
  }

  predicate IsOtherEffective(versions: map<Id, VersionRow>, id: Id, v: Id)
    requires id in versions
  {
    v in versions && v != id && versions[v].owner == versions[id].owner &&
    versions[v].lifecycle.status == Effective
  }

  ghost function PreviousEffective(versions: map<Id, VersionRow>, id: Id): (r: Option<Id>)
    requires id in versions
    ensures r.Some? ==> IsOtherEffective(versions, id, r.value)
    ensures r.None? ==> forall v :: !IsOtherEffective(versions, id, v)
  {
    if exists v :: IsOtherEffective(versions, id, v)
    then var v :| IsOtherEffective(versions, id, v); Some(v)
    else None
  }

  /** Python's `not text.strip()`, for ASCII white space. */
  predicate Blank(text: string) {
    forall c :: c in text ==> IsSpace(c)
  }

  lemma BlankIff(text: string)
    ensures Blank(text) <==> !HasText(text)
  {
    if !HasText(text) {
      forall c | c in text ensures IsSpace(c) {
        var i :| 0 <= i < |text| && text[i] == c;
      }
    }
  }

  predicate ReviewAccepted(decision: string, comment: string) {
    (decision == "approved" || decision == "rejected") && (decision == "rejected" ==> !Blank(comment))
  }

  /** What make_version_effective has done once the previous effective version is superseded. */
  ghost function AfterSupersede(db: Db, id: Id, actor: Option<Id>, supersededAt: Time): Db
    requires id in db.versions
  {
    var previous := PreviousEffective(db.versions, id);
    if previous.None? then db
    else AppendAndProject(db, NewEvent(db.log, previous.value, SupersededBy(id), None, actor, supersededAt))
  }

  /** make_version_effective: supersede the previous effective version first, then flush once. */
  ghost function ExecMakeEffective(db: Db, id: Id, actor: Option<Id>, supersededAt: Time, at: Time): Result<Db>
    requires id in db.versions
  {
    if db.versions[id].lifecycle.status != Approved then Failure(ValueError)
    else
      var mid := AfterSupersede(db, id, actor, supersededAt);
      var after := AppendAndProject(mid, NewEvent(mid.log, id, MadeEffective, None, actor, at));
      if OneEffectivePerPolicy(after.versions) then Success(after) else Failure(IntegrityError)
  }

  ghost function Exec(db: Db, cmd: Command): Result<Db> {
    if cmd.AddVersion? then
      if cmd.id in db.versions ||
         (exists v :: v in db.versions && db.versions[v].owner == cmd.policy && db.versions[v].number == cmd.number)
      then Failure(IntegrityError)
      else Success(db.(versions := db.versions[cmd.id := VersionRow(cmd.policy, cmd.number, cmd.at, FRESH)]))
    else if cmd.id !in db.versions then Failure(MissingRow)
    else
      var status := db.versions[cmd.id].lifecycle.status;
      match cmd
      case Submit(id, actor, at) =>
        if status != Draft then Failure(ValueError)
        else Success(AppendAndProject(db, NewEvent(db.log, id, SubmittedForReview, None, actor, at)))
      case Review(id, decision, comment, actor, at) =>
        if status != InReview || !ReviewAccepted(decision, comment) then Failure(ValueError)
        else Success(AppendAndProject(db, NewEvent(db.log, id, Reviewed(decision, comment), None, actor, at)))
      case MakeEffective(id, actor, supersededAt, at) => ExecMakeEffective(db, id, actor, supersededAt, at)
      case Withdraw(id, reason, actor, occurredAt, at) =>
        if status == Superseded || status == Withdrawn then Failure(ValueError)
        else Success(AppendAndProject(db, NewEvent(db.log, id, WithdrawnFor(reason), occurredAt, actor, at)))
  }

  /** The state after a sequence of commands; a refused command is rolled back. */
  ghost function Run(cmds: seq<Command>): Db {
    if cmds == [] then EMPTY
    else
      var before := Run(cmds[..|cmds| - 1]);
      var r := Exec(before, cmds[|cmds| - 1]);
      if r.Success? then r.value else before
  }

  /******* What every command keeps *******/

  function Parents(versions: map<Id, VersionRow>): map<Id, Id> {
    map v | v in versions :: versions[v].owner
  }

  /** The table is what the events in append order say, and the events respect the commands' guards. */
  ghost predicate Live(db: Db) {
    && Contiguous(db.log)
    && Disciplined(db.log, Parents(db.versions))
    && RowsAreLive(db)
  }

  ghost predicate RowsAreLive(db: Db) {
    forall v {:trigger RowIsLive(db, v)} :: v in db.versions ==> RowIsLive(db, v)
  }

  ghost predicate RowIsLive(db: Db, v: Id)
    requires v in db.versions
  {
    db.versions[v].lifecycle == State(db.log, v)
  }

  /** Only a withdrawal may state another time than the recorded one. */
  ghost predicate StatedTimes(log: seq<VersionEvent>) {
    forall i :: 0 <= i < |log| && !log[i].body.WithdrawnFor? ==> log[i].occurredAt == log[i].recordedAt
  }

  ghost predicate Inv(db: Db) {
    Live(db) && PairsClosed(db.log) && StatedTimes(db.log)
  }

  lemma AppendRow(db: Db, e: VersionEvent)
    requires e.id in db.versions
    ensures AppendAndProject(db, e).versions ==
            db.versions[e.id := db.versions[e.id].(lifecycle := Apply(db.versions[e.id].lifecycle, e))]
    ensures Parents(AppendAndProject(db, e).versions) == Parents(db.versions)
  {
  }

  lemma AppendKeepsLive(db: Db, e: VersionEvent)
    requires Live(db) && e.id in db.versions && e.sequence == NextSequence(db.log, e.id)
    requires Permitted(db.log, e, Parents(db.versions))
    ensures Live(AppendAndProject(db, e))
    ensures Parents(AppendAndProject(db, e).versions) == Parents(db.versions)
  {
    var after := AppendAndProject(db, e);
    AppendRow(db, e);
    ContiguousMax(db.log, e.id);
    ContiguousAppend(db.log, e);
    DisciplinedAppend(db.log, Parents(db.versions), e);
    forall v | v in after.versions ensures RowIsLive(after, v) {
      assert RowIsLive(db, v);
      StateAppend(db.log, e, v);
    }
  }

  /** The event of a one-event command is one the log permits. */
  lemma SingleEvent(db: Db, id: Id, body: Body, occurredAt: Option<Time>, actor: Option<Id>, at: Time)
    requires Inv(db) && id in db.versions && Allowed(db.versions[id].lifecycle.status, body)
    requires !body.MadeEffective? && !body.SupersededBy? && (occurredAt.Some? ==> body.WithdrawnFor?)
    ensures Inv(AppendAndProject(db, NewEvent(db.log, id, body, occurredAt, actor, at)))
  {
    var e := NewEvent(db.log, id, body, occurredAt, actor, at);
    assert RowIsLive(db, id);
    AppendKeepsLive(db, e);
    PairsClosedAppend(db.log, e);
  }

  lemma LiveOneEffective(db: Db)
    requires Live(db)
    ensures OneEffectivePerPolicy(db.versions)
  {
    forall v, w ensures !BothEffective(db.versions, v, w) {
      if BothEffective(db.versions, v, w) {
        assert RowIsLive(db, v) && RowIsLive(db, w);
        assert db.log[..|db.log|] == db.log;
        OneEffective(db.log, Parents(db.versions), |db.log|, v, w);
      }
    }
  }

  lemma SupersedeKeepsLive(db: Db, id: Id, actor: Option<Id>, supersededAt: Time)
    requires Live(db) && id in db.versions && db.versions[id].lifecycle.status == Approved
    ensures var mid := AfterSupersede(db, id, actor, supersededAt);
      && Live(mid) && id in mid.versions && mid.versions[id] == db.versions[id]
      && forall v :: !IsOtherEffective(mid.versions, id, v)
  {
    LiveOneEffective(db);
    var previous := PreviousEffective(db.versions, id);
    if previous.Some? {
      var e := NewEvent(db.log, previous.value, SupersededBy(id), None, actor, supersededAt);
      assert RowIsLive(db, previous.value);
      AppendKeepsLive(db, e);
      AppendRow(db, e);
      forall v ensures !IsOtherEffective(AppendAndProject(db, e).versions, id, v) {
        assert !BothEffective(db.versions, previous.value, v);
      }
    }
  }

  lemma EffectivePermitted(db: Db, id: Id, actor: Option<Id>, at: Time)
    requires Live(db) && id in db.versions && db.versions[id].lifecycle.status == Approved
    requires forall v :: !IsOtherEffective(db.versions, id, v)
    ensures Live(AppendAndProject(db, NewEvent(db.log, id, MadeEffective, None, actor, at)))
  {
    var e := NewEvent(db.log, id, MadeEffective, None, actor, at);
    var parents := Parents(db.versions);
    forall v | v in parents && v != id && parents[v] == parents[id] ensures State(db.log, v).status != Effective {
      assert !IsOtherEffective(db.versions, id, v);
      assert RowIsLive(db, v);
    }
    assert RowIsLive(db, id);
    AppendKeepsLive(db, e);
  }

  /** In a reachable state the unique index never refuses make_version_effective. */
  lemma MakeEffectiveSucceeds(db: Db, id: Id, actor: Option<Id>, supersededAt: Time, at: Time)
    requires Inv(db) && id in db.versions && db.versions[id].lifecycle.status == Approved
    ensures ExecMakeEffective(db, id, actor, supersededAt, at).Success?
    ensures Inv(ExecMakeEffective(db, id, actor, supersededAt, at).value)
  {
    SupersedeKeepsLive(db, id, actor, supersededAt);
    var mid := AfterSupersede(db, id, actor, supersededAt);
    var e := NewEvent(mid.log, id, MadeEffective, None, actor, at);
    EffectivePermitted(mid, id, actor, at);
    LiveOneEffective(AppendAndProject(mid, e));
    var previous := PreviousEffective(db.versions, id);
    if previous.Some? {
      PairsClosedPair(db.log, NewEvent(db.log, previous.value, SupersededBy(id), None, actor, supersededAt), e);
    } else {
      PairsClosedAppend(db.log, e);
    }
  }

  lemma ExecKeepsInv(db: Db, cmd: Command)
    requires Inv(db) && Exec(db, cmd).Success?
    ensures Inv(Exec(db, cmd).value)
  {
    match cmd {
      case AddVersion(id, policy, number, at) =>
        DisciplinedNewVersion(db.log, Parents(db.versions), id, policy);
        NoEvents(db.log, id, Parents(db.versions));
        var after := Exec(db, cmd).value;
        assert Parents(after.versions) == Parents(db.versions)[id := policy];
        forall v | v in after.versions ensures RowIsLive(after, v) {
          assert v in db.versions ==> RowIsLive(db, v);
        }
      case Submit(id, actor, at) => SingleEvent(db, id, SubmittedForReview, None, actor, at);
      case Review(id, decision, comment, actor, at) =>
        SingleEvent(db, id, Reviewed(decision, comment), None, actor, at);
      case MakeEffective(id, actor, supersededAt, at) => MakeEffectiveSucceeds(db, id, actor, supersededAt, at);
      case Withdraw(id, reason, actor, occurredAt, at) =>
        SingleEvent(db, id, WithdrawnFor(reason), occurredAt, actor, at);
    }
  }

  lemma {:induction false} RunInv(cmds: seq<Command>)
    ensures Inv(Run(cmds))
  {
    if cmds != [] {
      var before := Run(cmds[..|cmds| - 1]);
      RunInv(cmds[..|cmds| - 1]);
      if Exec(before, cmds[|cmds| - 1]).Success? {
        ExecKeepsInv(before, cmds[|cmds| - 1]);
      }
    }
  }

  /******* Guarantees of every run *******/

  /** At most one version of a policy is effective, and the unique index is never what refuses a command. */
  lemma RunOneEffective(cmds: seq<Command>, cmd: Command)
    ensures OneEffectivePerPolicy(Run(cmds).versions)
    ensures !cmd.AddVersion? ==> Exec(Run(cmds), cmd) != Failure(IntegrityError)
  {
    RunInv(cmds);
    LiveOneEffective(Run(cmds));
    if cmd.MakeEffective? && cmd.id in Run(cmds).versions &&
       Run(cmds).versions[cmd.id].lifecycle.status == Approved {
      MakeEffectiveSucceeds(Run(cmds), cmd.id, cmd.actor, cmd.supersededAt, cmd.at);
    }
  }

  predicate Terminal(s: Status) {
    s == Superseded || s == Withdrawn
  }

  lemma ExecKeepsTerminal(db: Db, cmd: Command, v: Id)
    requires Inv(db) && v in db.versions && Terminal(db.versions[v].lifecycle.status) && Exec(db, cmd).Success?
    ensures v in Exec(db, cmd).value.versions && Exec(db, cmd).value.versions[v] == db.versions[v]
  {
    if cmd.MakeEffective? {
      var mid := AfterSupersede(db, cmd.id, cmd.actor, cmd.supersededAt);
      SupersedeKeepsRow(db, cmd.id, cmd.actor, cmd.supersededAt, v);
      AppendRow(mid, NewEvent(mid.log, cmd.id, MadeEffective, None, cmd.actor, cmd.at));
    }
  }

  lemma SupersedeKeepsRow(db: Db, id: Id, actor: Option<Id>, supersededAt: Time, v: Id)
    requires id in db.versions && v in db.versions && db.versions[v].lifecycle.status != Effective
    ensures var mid := AfterSupersede(db, id, actor, supersededAt);
      id in mid.versions && v in mid.versions && mid.versions[v] == db.versions[v]
  {
    var previous := PreviousEffective(db.versions, id);
    if previous.Some? {
      AppendRow(db, NewEvent(db.log, previous.value, SupersededBy(id), None, actor, supersededAt));
    }
  }

  /** A superseded or withdrawn version never changes again, whatever commands follow. */
  lemma {:induction false} TerminalForever(cmds: seq<Command>, i: nat, v: Id)
    requires i <= |cmds| && v in Run(cmds[..i]).versions
    requires Terminal(Run(cmds[..i]).versions[v].lifecycle.status)
    ensures v in Run(cmds).versions && Run(cmds).versions[v] == Run(cmds[..i]).versions[v]
    decreases |cmds|
  {
    if i == |cmds| {
      assert cmds[..i] == cmds;
    } else {
      var front := cmds[..|cmds| - 1];
      assert front[..i] == cmds[..i];
      TerminalForever(front, i, v);
      RunInv(front);
      if Exec(Run(front), cmds[|cmds| - 1]).Success? {
        ExecKeepsTerminal(Run(front), cmds[|cmds| - 1], v);
      }
    }
  }

  /**
   Whatever is or was effective was submitted and then approved, and became effective directly
   after that; with a clock that does not run backwards the three times are in that order.
   */
  lemma EffectiveWasApproved(cmds: seq<Command>, v: Id) returns (j: nat)
    requires v in Run(cmds).versions && Run(cmds).versions[v].lifecycle.effectiveAt.Some?
    ensures var es := Of(Run(cmds).log, v);
      && 2 <= j < |es| && es[j].body.MadeEffective?
      && es[j - 1].body.Reviewed? && es[j - 1].body.decision == "approved"
      && es[j - 2].body.SubmittedForReview?
    ensures var l := Run(cmds).versions[v].lifecycle; ClockOrdered(Run(cmds).log) ==>
      && l.submittedAt.Some? && l.reviewedAt.Some?
      && l.submittedAt.value <= l.reviewedAt.value <= l.effectiveAt.value
      && (l.supersededAt.Some? ==> l.effectiveAt.value <= l.supersededAt.value)
  {
    RunInv(cmds);
    var db := Run(cmds);
    assert RowIsLive(db, v);
    DisciplinedLegal(db.log, Parents(db.versions), v);
    j := EffectiveEvent(Of(db.log, v));
    EffectiveStory(Of(db.log, v), j);
    if ClockOrdered(db.log) {
      TimedOf(db.log, v);
      LegalChronology(Of(db.log, v));
    }
  }

  /** superseded_by chains are acyclic and ordered by the time of becoming effective. */
  lemma SupersededByChains(cmds: seq<Command>, path: seq<Id>)
    requires |path| >= 2 && forall i :: 0 <= i < |path| ==> path[i] in Run(cmds).versions
    requires forall i :: 0 <= i < |path| - 1 ==>
      Run(cmds).versions[path[i]].lifecycle.supersededBy == Some(path[i + 1])
    ensures forall i, j :: 0 <= i < j < |path| ==> path[i] != path[j]
    ensures forall i :: 0 <= i < |path| ==> Run(cmds).versions[path[i]].lifecycle.effectiveAt.Some?
    ensures ClockOrdered(Run(cmds).log) ==> forall i, j :: 0 <= i < j < |path| ==>
      Run(cmds).versions[path[i]].lifecycle.effectiveAt.value <= Run(cmds).versions[path[j]].lifecycle.effectiveAt.value
  {
    RunInv(cmds);
    var db := Run(cmds);
    var parents := Parents(db.versions);
    assert forall i :: 0 <= i < |path| ==> RowIsLive(db, path[i]);
    var at := ChainAscends(db.log, parents, path);
    forall i | 0 <= i < |path|
      ensures State(db.log, path[i]).effectiveAt == Some(db.log[at[i]].occurredAt)
    {
      EffectiveColumn(db.log, parents, path[i], at[i]);
    }
  }

  /******* Rebuild *******/

  /** _reset_policy_version_lifecycle. */
  function Reset(versions: map<Id, VersionRow>): map<Id, VersionRow> {
    map v | v in versions :: versions[v].(lifecycle := FRESH)
  }

  lemma {:induction false} FoldRow(row: VersionRow, es: seq<VersionEvent>)
    requires row.lifecycle == FRESH
    ensures Fold(ProjectRow, Some(row), es) == Some(row.(lifecycle := After(es)))
  {
    if es != [] {
      FoldRow(row, es[..|es| - 1]);
    }
  }

  /** Replaying any arrangement of events gives each row the columns its own events give. */
  lemma ReplayedRow(versions: map<Id, VersionRow>, es: seq<VersionEvent>, v: Id)
    ensures Lookup(ProjectAll(ProjectRow, Reset(versions), es), v) ==
            if v in versions then Some(versions[v].(lifecycle := After(Of(es, v)))) else None
  {
    RowAfter(ProjectRow, Reset(versions), es, v);
    if v in versions {
      FoldRow(Reset(versions)[v], Of(es, v));
    } else {
      FoldNone(Of(es, v));
    }
  }

  lemma {:induction false} FoldNone(es: seq<VersionEvent>)
    ensures Fold(ProjectRow, None, es) == None
  {
    if es != [] {
      FoldNone(es[..|es| - 1]);
    }
  }

  /** Rebuild equals live: reset and sorted replay give back exactly the table the commands left. */
  lemma RebuildRestoresVersions(db: Db, es: seq<VersionEvent>)
    requires RowsAreLive(db) && RecordedInOrder(db.log) && Selected(RebuildOrder<Body>, db.log, es)
    ensures ProjectAll(ProjectRow, Reset(db.versions), es) == db.versions
  {
    var rebuilt := ProjectAll(ProjectRow, Reset(db.versions), es);
    forall v ensures Lookup(rebuilt, v) == Lookup(db.versions, v) {
      assert v in db.versions ==> RowIsLive(db, v);
      SortedKeepsHistories(db.log, es, v);
      ReplayedRow(db.versions, es, v);
    }
    SameTable(rebuilt, db.versions);
  }

  lemma SameTable<R>(a: map<Id, R>, b: map<Id, R>)
    requires forall v :: Lookup(a, v) == Lookup(b, v)
    ensures a == b
  {
    forall v ensures v in a <==> v in b {
      assert Lookup(a, v) == Lookup(b, v);
    }
    forall v | v in a ensures a[v] == b[v] {
      assert Lookup(a, v) == Lookup(b, v);
    }
  }

  /******* The session *******/

  /** A session over the two tables, between commits of one command each. */
  class PolicySession {
    var versions: map<Id, VersionRow>
    var log: seq<VersionEvent>

    ghost function Contents(): Db reads this {
      Db(versions, log)
    }

    ghost predicate Valid() reads this {
      Inv(Contents())
    }

    constructor ()
      ensures Valid() && Contents() == EMPTY
    {
      versions, log := map[], [];
    }

    /** append_and_project, then the projector's assignments to the row of the event's aggregate. */
    method Record(id: Id, body: Body, occurredAt: Option<Time>, actor: Option<Id>, at: Time)
      requires id in versions
      modifies this
      ensures Contents() == AppendAndProject(old(Contents()), NewEvent(old(log), id, body, occurredAt, actor, at))
    {
      var e := Event(id, NextSequence(log, id), body,
                     if occurredAt.Some? then occurredAt.value else at, at, actor, None);
      log := log + [e];
      ProjectEvent(e);
    }

    method ProjectEvent(e: VersionEvent)
      requires e.id in versions
      modifies this`versions
      ensures versions == Project(ProjectRow, old(versions), e)
    {
      var l := versions[e.id].lifecycle;
      match e.body {
        case Drafted(_, _) =>
        case SubmittedForReview =>
          l := l.(status := InReview, submittedBy := e.actor, submittedAt := Some(e.occurredAt));
        case Reviewed(decision, comment) =>
          l := l.(reviewedBy := e.actor, reviewedAt := Some(e.occurredAt));
          l := l.(reviewDecision := Some(decision), reviewComment := comment);
          l := l.(status := if decision == "approved" then Approved else Draft);
        case MadeEffective =>
          l := l.(status := Effective, effectiveAt := Some(e.occurredAt));
        case SupersededBy(successor) =>
          l := l.(status := Superseded, supersededAt := Some(e.occurredAt), supersededBy := Some(successor));
        case WithdrawnFor(reason) =>
          l := l.(status := Withdrawn, withdrawnAt := Some(e.occurredAt), withdrawnReason := reason);
      }
      versions := versions[e.id := versions[e.id].(lifecycle := l)];
    }

    method SubmitForReview(id: Id, actor: Option<Id>, at: Time) returns (error: Option<Error>)
      requires Valid() && id in versions
      modifies this
      ensures Valid()
      ensures error == None <==> old(versions)[id].lifecycle.status == Draft
      ensures error == None ==> Exec(old(Contents()), Submit(id, actor, at)) == Success(Contents())
      ensures error.Some? ==> Exec(old(Contents()), Submit(id, actor, at)) == Failure(error.value) && unchanged(this)
    {
      if versions[id].lifecycle.status != Draft {
        return Some(ValueError);
      }
      ExecKeepsInv(Contents(), Submit(id, actor, at));
      Record(id, SubmittedForReview, None, actor, at);
      error := None;
    }

    method ReviewVersion(id: Id, decision: string, comment: string, actor: Option<Id>, at: Time)
      returns (error: Option<Error>)
      requires Valid() && id in versions
      modifies this
      ensures Valid()
      ensures error == None <==>
        && old(versions)[id].lifecycle.status == InReview
        && (decision == "approved" || (decision == "rejected" && HasText(comment)))
      ensures error == None ==> Exec(old(Contents()), Review(id, decision, comment, actor, at)) == Success(Contents())
      ensures error.Some? ==>
        Exec(old(Contents()), Review(id, decision, comment, actor, at)) == Failure(error.value) && unchanged(this)
    {
      BlankIff(comment);
      if versions[id].lifecycle.status != InReview {
        return Some(ValueError);
      }
      if decision != "approved" && decision != "rejected" {
        return Some(ValueError);
      }
      if decision == "rejected" && Blank(comment) {
        return Some(ValueError);
      }
      ExecKeepsInv(Contents(), Review(id, decision, comment, actor, at));
      Record(id, Reviewed(decision, comment), None, actor, at);
      error := None;
    }

    method FindPreviousEffective(id: Id) returns (r: Option<Id>)
      requires Valid() && id in versions
      ensures r == PreviousEffective(versions, id)
    {
      LiveOneEffective(Contents());
      var todo := versions.Keys;
      while todo != {}
        invariant todo <= versions.Keys
        invariant forall v :: v in versions && v !in todo ==> !IsOtherEffective(versions, id, v)
        decreases |todo|
      {
        var v :| v in todo;
        if IsOtherEffective(versions, id, v) {
          assert !BothEffective(versions, v, PreviousEffective(versions, id).value);
          return Some(v);
        }
        todo := todo - {v};
      }
      r := None;
    }

    method MakeVersionEffective(id: Id, actor: Option<Id>, supersededAt: Time, at: Time) returns (error: Option<Error>)
      requires Valid() && id in versions
      modifies this
      ensures Valid()
      ensures error == None <==> old(versions)[id].lifecycle.status == Approved
      ensures error == None ==>
        Exec(old(Contents()), MakeEffective(id, actor, supersededAt, at)) == Success(Contents())
      ensures error.Some? ==>
        Exec(old(Contents()), MakeEffective(id, actor, supersededAt, at)) == Failure(error.value) && unchanged(this)
    {
      if versions[id].lifecycle.status != Approved {
        return Some(ValueError);
      }
      MakeEffectiveSucceeds(Contents(), id, actor, supersededAt, at);
      var previous := FindPreviousEffective(id);
      if previous.Some? {
        Record(previous.value, SupersededBy(id), None, actor, supersededAt);
      }
      Record(id, MadeEffective, None, actor, at);
      error := None;
    }

    method WithdrawVersion(id: Id, reason: string, actor: Option<Id>, occurredAt: Option<Time>, at: Time)
      returns (error: Option<Error>)
      requires Valid() && id in versions
      modifies this
      ensures Valid()
      ensures error == None <==> !Terminal(old(versions)[id].lifecycle.status)
      ensures error == None ==>
        Exec(old(Contents()), Withdraw(id, reason, actor, occurredAt, at)) == Success(Contents())
      ensures error.Some? ==>
        Exec(old(Contents()), Withdraw(id, reason, actor, occurredAt, at)) == Failure(error.value) && unchanged(this)
    {
      if versions[id].lifecycle.status !in {Draft, InReview, Approved, Effective} {
        return Some(ValueError);
      }
      ExecKeepsInv(Contents(), Withdraw(id, reason, actor, occurredAt, at));
      Record(id, WithdrawnFor(reason), occurredAt, actor, at);
      error := None;
    }

    /**
     rebuild_policy_version_lifecycle_projection; `events` is the database's answer to the
     ordered query. Nothing changes if recorded times do not fall along any version's history.
     */
    method Rebuild(events: seq<VersionEvent>)
      requires Valid() && Selected(RebuildOrder<Body>, log, events)
      modifies this`versions
      ensures versions == ProjectAll(ProjectRow, Reset(old(versions)), events)
      ensures RecordedInOrder(log) ==> versions == old(versions)
    {
      RebuildFacts(Contents(), events);
      ResetLifecycle();
      ReplayEvents(events);
    }

    method ReplayEvents(events: seq<VersionEvent>)
      requires forall i :: 0 <= i < |events| ==> events[i].id in versions
      modifies this`versions
      ensures versions == ProjectAll(ProjectRow, old(versions), events)
    {
      for i := 0 to |events|
        invariant versions.Keys == old(versions).Keys
        invariant versions == ProjectAll(ProjectRow, old(versions), events[..i])
      {
        assert events[..i + 1][..i] == events[..i];
        ProjectEvent(events[i]);
      }
      assert events[..|events|] == events;
    }

    method ResetLifecycle()
      modifies this`versions
      ensures versions == Reset(old(versions))
    {
      ghost var before := versions;
      var todo := versions.Keys;
      while todo != {}
        invariant todo <= versions.Keys == before.Keys
        invariant forall v :: v in versions ==> versions[v] == if v in todo then before[v] else Reset(before)[v]
        decreases |todo|
      {
        var v :| v in todo;
        versions := versions[v := versions[v].(lifecycle := FRESH)];
        todo := todo - {v};
      }
    }
  }

  lemma RebuildFacts(db: Db, events: seq<VersionEvent>)
    requires Inv(db) && Selected(RebuildOrder<Body>, db.log, events)
    ensures forall i :: 0 <= i < |events| ==> events[i].id in db.versions
    ensures RecordedInOrder(db.log) ==> ProjectAll(ProjectRow, Reset(db.versions), events) == db.versions
  {
    EventsHaveRows(db, events);
    if RecordedInOrder(db.log) {
      RebuildRestoresVersions(db, events);
    }
  }

  lemma EventsHaveRows(db: Db, events: seq<VersionEvent>)
    requires Inv(db) && multiset(events) == multiset(db.log)
    ensures forall i :: 0 <= i < |events| ==> events[i].id in db.versions
  {
    forall i | 0 <= i < |events| ensures events[i].id in db.versions {
      assert events[i] in multiset(events);
      var k := IndexOf(db.log, events[i]);
      assert PermittedAt(db.log, k, Parents(db.versions));
    }
  }
}
