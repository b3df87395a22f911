/**
 Requests on policy or control-definition versions that overlap (app/policy_lifecycle.py,
 app/control_definition_lifecycle.py): each loads the version and checks its guard, looks for the
 effective version it has to supersede, and later writes its events and flushes. Any number of requests
 interleave between these three moments; only the flush checks the unique index.
 */
module VersionRequests {
  import opened Common
  import opened EventLog
  import opened Replay
  import opened VersionLifecycle
  import opened PolicyLifecycle
  import opened ControlDefinitions
  import opened Overlap
  import opened LastWriters

  type RequestId = nat

  /** An open request whose guard held; the positions say how long the log was when it read. */
  datatype Request =
    | Loaded(cmd: Command, loadedAt: nat)
    | Looked(cmd: Command, loadedAt: nat, previous: Option<Id>, lookedAt: nat)

  /** `readAt` is a history variable: where the guard of each event was read. */
  datatype Shared = Shared(db: Db, readAt: seq<nat>, open: map<RequestId, Request>)

  const NOTHING_YET := Shared(EMPTY, [], map[])

  /**
   `Create` adds a row: a policy version as such, a definition version through its draft event. Its
   number is whatever the caller has computed. `Drop` is a request that ends without writing.
   */
  datatype Step =
    | Create(id: Id, owner: Id, number: nat, drafted: bool, actor: Option<Id>, at: Time)
    | Load(r: RequestId, cmd: Command)
    | Look(r: RequestId)
    | Write(r: RequestId)
    | Drop(r: RequestId)

  function BodyOf(cmd: Command): Body
    requires !cmd.AddVersion?
  {
    match cmd
    case Submit(_, _, _) => SubmittedForReview
    case Review(_, decision, comment, _, _) => Reviewed(decision, comment)
    case MakeEffective(_, _, _, _) => MadeEffective
    case Withdraw(_, reason, _, _, _) => WithdrawnFor(reason)
  }

  /** The guards of the four commands. */
  predicate Guard(db: Db, cmd: Command) {
    && !cmd.AddVersion? && cmd.id in db.versions
    && Allowed(db.versions[cmd.id].lifecycle.status, BodyOf(cmd))
    && (cmd.Review? ==> ReviewAccepted(cmd.decision, cmd.comment))
  }

  function EventOf(log: seq<VersionEvent>, cmd: Command): VersionEvent
    requires !cmd.AddVersion?
  {
    NewEvent(log, cmd.id, BodyOf(cmd), if cmd.Withdraw? then cmd.occurredAt else None, cmd.actor, cmd.at)
  }

  predicate Ready(q: Request) {
    !q.cmd.AddVersion? && q.cmd.MakeEffective? == q.Looked?
  }

  function SupersedeEvent(log: seq<VersionEvent>, q: Request): VersionEvent
    requires Ready(q) && q.Looked? && q.previous.Some?
  {
    NewEvent(log, q.previous.value, SupersededBy(q.cmd.id), None, q.cmd.actor, q.cmd.supersededAt)
  }

  function Midway(db: Db, q: Request): Db
    requires Ready(q)
  {
    if q.Looked? && q.previous.Some? then AppendAndProject(db, SupersedeEvent(db.log, q)) else db
  }

  function Written(db: Db, q: Request): Db
    requires Ready(q)
  {
    AppendAndProject(Midway(db, q), EventOf(Midway(db, q).log, q.cmd))
  }

  /** The events are appended without looking at the guard again; the flush checks the index. */
  ghost function WriteOf(db: Db, q: Request): Result<Db>
    requires Ready(q)
  {
    if OneEffectivePerPolicy(Written(db, q).versions) then Success(Written(db, q)) else Failure(IntegrityError)
  }

  function ReadsOf(q: Request): seq<nat> {
    if q.Looked? && q.previous.Some? then [q.lookedAt, q.loadedAt] else [q.loadedAt]
  }

  predicate CanCreate(db: Db, id: Id, owner: Id, number: nat) {
    id !in db.versions && forall v | v in db.versions ::
        !(db.versions[v].owner == owner && db.versions[v].number == number)
  }

  function Created(s: Shared, id: Id, owner: Id, number: nat, drafted: bool, actor: Option<Id>, at: Time): Shared {
    var versions := s.db.versions[id := VersionRow(owner, number, at, FRESH)];
    if drafted then
      var e := NewEvent(s.db.log, id, Drafted(owner, number), None, actor, at);
      s.(db := Db(versions, s.db.log + [e]), readAt := s.readAt + [|s.db.log|])
    else s.(db := Db(versions, s.db.log))
  }

  /** A step that is not possible, or is refused, changes no table. */
  ghost function Next(s: Shared, step: Step): Shared {
    match step
    case Create(id, owner, number, drafted, actor, at) =>
      if CanCreate(s.db, id, owner, number) then Created(s, id, owner, number, drafted, actor, at) else s
    case Load(r, cmd) =>
      if r !in s.open && Guard(s.db, cmd) then s.(open := s.open[r := Loaded(cmd, |s.db.log|)]) else s
    case Look(r) =>
      if r in s.open && s.open[r].Loaded? && s.open[r].cmd.MakeEffective? && s.open[r].cmd.id in s.db.versions then
        var q := s.open[r];
        s.(open := s.open[r := Looked(q.cmd, q.loadedAt, PreviousEffective(s.db.versions, q.cmd.id), |s.db.log|)])
      else s
    case Write(r) =>
      if r in s.open && Ready(s.open[r]) then
        var w := WriteOf(s.db, s.open[r]);
        if w.Success? then Shared(w.value, s.readAt + ReadsOf(s.open[r]), s.open - {r}) else s.(open := s.open - {r})
      else s
    case Drop(r) => s.(open := s.open - {r})
  }

  ghost function Run(steps: seq<Step>): Shared {
    if steps == [] then NOTHING_YET else Next(Run(steps[..|steps| - 1]), steps[|steps| - 1])
  }

  /******* The rules of a version *******/

  function ApplyRow(l: Option<Lifecycle>, e: VersionEvent): Option<Lifecycle> {
    if l.Some? then Some(Apply(l.value, e)) else None
  }

  predicate RowAllows(l: Option<Lifecycle>, b: Body) {
    l.Some? && Allowed(l.value.status, b)
  }

  predicate EndsVersion(b: Body) {
    b.SupersededBy? || b.WithdrawnFor?
  }

  const VERSION_RULES: Rules<Lifecycle, Body> := Rules(Some(FRESH), ApplyRow, RowAllows, EndsVersion)

  lemma {:induction false} FoldIsAfter(es: seq<VersionEvent>)
    ensures Fold(ApplyRow, Some(FRESH), es) == Some(After(es))
  {
    if es != [] {
      FoldIsAfter(es[..|es| - 1]);
    }
  }

  lemma RowAtIsState(log: seq<VersionEvent>, k: nat, v: Id)
    requires k <= |log|
    ensures RowAt(VERSION_RULES, log, k, v) == Some(State(log[..k], v))
  {
    FoldIsAfter(Of(log[..k], v));
  }

  lemma VersionEndsRefuse()
    ensures EndsRefuse(VERSION_RULES)
  {
  }

  /******* What every step keeps *******/

  /** No other version of the parent was effective when this one became so. */
  ghost predicate SoleAt(log: seq<VersionEvent>, parents: map<Id, Id>, k: int)
    requires 0 <= k < |log|
  {
    log[k].body.MadeEffective? ==>
      log[k].id in parents &&
      forall v :: v in parents && v != log[k].id && parents[v] == parents[log[k].id] ==>
        State(log[..k], v).status != Effective
  }

  ghost predicate DraftAt(log: seq<VersionEvent>, k: int)
    requires 0 <= k < |log|
  {
    log[k].body.Drafted? ==> Of(log[..k], log[k].id) == []
  }

  ghost predicate KnownAt(log: seq<VersionEvent>, parents: map<Id, Id>, k: int)
    requires 0 <= k < |log|
  {
    log[k].id in parents
  }

  /** What the log promises, whatever overlapped. */
  ghost predicate LogInv(log: seq<VersionEvent>, readAt: seq<nat>, parents: map<Id, Id>) {
    && Contiguous(log) && StatedTimes(log) && Guarded(VERSION_RULES, log, readAt)
    && (forall k {:trigger SoleAt(log, parents, k)} :: 0 <= k < |log| ==> SoleAt(log, parents, k))
    && (forall k {:trigger DraftAt(log, k)} :: 0 <= k < |log| ==> DraftAt(log, k))
    && (forall k {:trigger KnownAt(log, parents, k)} :: 0 <= k < |log| ==> KnownAt(log, parents, k))
  }

  ghost predicate Sole(log: seq<VersionEvent>, parents: map<Id, Id>, id: Id) {
    id in parents && forall v :: v in parents && v != id && parents[v] == parents[id] ==>
        State(log, v).status != Effective
  }

  lemma LogAppend(log: seq<VersionEvent>, readAt: seq<nat>, parents: map<Id, Id>, e: VersionEvent, read: nat)
    requires LogInv(log, readAt, parents) && e.id in parents && e.sequence == NextSequence(log, e.id)
    requires read <= |log| && Allowed(State(log[..read], e.id).status, e.body)
    requires !e.body.WithdrawnFor? ==> e.occurredAt == e.recordedAt
    requires e.body.MadeEffective? ==> Sole(log, parents, e.id)
    requires e.body.Drafted? ==> Of(log, e.id) == []
    ensures LogInv(log + [e], readAt + [read], parents)
  {
    var l := log + [e];
    ContiguousMax(log, e.id);
    ContiguousAppend(log, e);
    RowAtIsState(log, read, e.id);
    GuardedAppend(VERSION_RULES, log, readAt, e, read);
    forall k | 0 <= k < |l| ensures SoleAt(l, parents, k) && DraftAt(l, k) && KnownAt(l, parents, k) {
      if k < |log| {
        assert SoleAt(log, parents, k) && DraftAt(log, k) && KnownAt(log, parents, k);
        assert l[..k] == log[..k];
      } else {
        assert l[..k] == log;
      }
    }
  }

  lemma {:induction false} UnknownHasNone(log: seq<VersionEvent>, parents: map<Id, Id>, v: Id)
    requires v !in parents
    requires forall k {:trigger KnownAt(log, parents, k)} :: 0 <= k < |log| ==> KnownAt(log, parents, k)
    ensures Of(log, v) == []
  {
    if log != [] {
      var n := |log| - 1;
      assert KnownAt(log, parents, n);
      forall k | 0 <= k < n ensures KnownAt(log[..n], parents, k) {
        assert KnownAt(log, parents, k);
      }
      UnknownHasNone(log[..n], parents, v);
    }
  }

  lemma LogNewVersion(log: seq<VersionEvent>, readAt: seq<nat>, parents: map<Id, Id>, v: Id, p: Id)
    requires LogInv(log, readAt, parents) && v !in parents
    ensures LogInv(log, readAt, parents[v := p]) && Of(log, v) == []
  {
    var wider := parents[v := p];
    UnknownHasNone(log, parents, v);
    forall k | 0 <= k < |log| ensures SoleAt(log, wider, k) && KnownAt(log, wider, k) {
      assert SoleAt(log, parents, k) && KnownAt(log, parents, k);
      OfPrefix(log, k, v);
    }
  }

  ghost predicate RequestOk(s: Shared, r: RequestId)
    requires r in s.open
  {
    var q, log := s.open[r], s.db.log;
    && !q.cmd.AddVersion? && q.cmd.id in s.db.versions
    && q.loadedAt <= |log| && Allowed(State(log[..q.loadedAt], q.cmd.id).status, BodyOf(q.cmd))
    && (q.Looked? ==> q.cmd.MakeEffective? && q.lookedAt <= |log|)
    && (q.Looked? && q.previous.Some? ==>
          && q.previous.value in s.db.versions && q.previous.value != q.cmd.id
          && s.db.versions[q.previous.value].owner == s.db.versions[q.cmd.id].owner
          && State(log[..q.lookedAt], q.previous.value).status == Effective)
  }

  ghost predicate SharedInv(s: Shared) {
    && RowsAreLive(s.db) && OneEffectivePerPolicy(s.db.versions)
    && PairsClosed(s.db.log) && LogInv(s.db.log, s.readAt, Parents(s.db.versions))
    && (forall r {:trigger RequestOk(s, r)} :: r in s.open ==> RequestOk(s, r))
  }

  lemma AppendKeepsRows(db: Db, e: VersionEvent)
    requires RowsAreLive(db) && e.id in db.versions
    ensures RowsAreLive(AppendAndProject(db, e))
    ensures Parents(AppendAndProject(db, e).versions) == Parents(db.versions)
    ensures AppendAndProject(db, e).versions.Keys == db.versions.Keys
  {
    var after := AppendAndProject(db, e);
    AppendRow(db, e);
    forall v | v in after.versions ensures RowIsLive(after, v) {
      assert RowIsLive(db, v);
      StateAppend(db.log, e, v);
    }
  }

  /** Requests read a prefix of the log, which later appends do not change. */
  lemma RequestStays(s: Shared, t: Shared, r: RequestId)
    requires r in s.open && r in t.open && s.open[r] == t.open[r] && RequestOk(s, r)
    requires s.db.log <= t.db.log
    requires forall v :: v in s.db.versions ==> v in t.db.versions && t.db.versions[v].owner == s.db.versions[v].owner
    ensures RequestOk(t, r)
  {
    var q := s.open[r];
    assert t.db.log[..q.loadedAt] == s.db.log[..q.loadedAt];
    if q.Looked? {
      assert t.db.log[..q.lookedAt] == s.db.log[..q.lookedAt];
    }
  }

  lemma RequestsStay(s: Shared, t: Shared)
    requires forall r {:trigger RequestOk(s, r)} :: r in s.open ==> RequestOk(s, r)
    requires s.db.log <= t.db.log
    requires forall v :: v in s.db.versions ==> v in t.db.versions && t.db.versions[v].owner == s.db.versions[v].owner
    requires forall r :: r in t.open ==> r in s.open && t.open[r] == s.open[r]
    ensures forall r {:trigger RequestOk(t, r)} :: r in t.open ==> RequestOk(t, r)
  {
    forall r | r in t.open ensures RequestOk(t, r) {
      assert RequestOk(s, r);
      RequestStays(s, t, r);
    }
  }

  /** Superseding the version that was found adds one guarded event. */
  lemma MidwayKeeps(s: Shared, r: RequestId)
    requires SharedInv(s) && r in s.open && Ready(s.open[r]) && s.open[r].Looked? && s.open[r].previous.Some?
    ensures var mid := Midway(s.db, s.open[r]);
      && RowsAreLive(mid) && Parents(mid.versions) == Parents(s.db.versions) && mid.versions.Keys == s.db.versions.Keys
      && mid.log == s.db.log + [SupersedeEvent(s.db.log, s.open[r])]
      && LogInv(mid.log, s.readAt + [s.open[r].lookedAt], Parents(s.db.versions))
  {
    var e := SupersedeEvent(s.db.log, s.open[r]);
    assert RequestOk(s, r);
    AppendKeepsRows(s.db, e);
    LogAppend(s.db.log, s.readAt, Parents(s.db.versions), e, s.open[r].lookedAt);
  }

  /** If the flush accepts a version as effective, no other version of its parent was. */
  lemma FlushMeansSole(mid: Db, e: VersionEvent)
    requires RowsAreLive(mid) && e.id in mid.versions && e.body.MadeEffective?
    requires OneEffectivePerPolicy(AppendAndProject(mid, e).versions)
    ensures Sole(mid.log, Parents(mid.versions), e.id)
  {
    var after, parents := AppendAndProject(mid, e), Parents(mid.versions);
    AppendRow(mid, e);
    forall v | v in parents && v != e.id && parents[v] == parents[e.id] ensures State(mid.log, v).status != Effective {
      assert RowIsLive(mid, v);
      assert !BothEffective(after.versions, v, e.id);
    }
  }

  lemma WriteKeepsLog(s: Shared, r: RequestId)
    requires SharedInv(s) && r in s.open && Ready(s.open[r]) && WriteOf(s.db, s.open[r]).Success?
    ensures var after := WriteOf(s.db, s.open[r]).value;
      && RowsAreLive(after) && Parents(after.versions) == Parents(s.db.versions)
      && after.versions.Keys == s.db.versions.Keys && s.db.log <= after.log && PairsClosed(after.log)
      && LogInv(after.log, s.readAt + ReadsOf(s.open[r]), Parents(s.db.versions))
  {
    var q := s.open[r];
    assert RequestOk(s, r);
    var mid := Midway(s.db, q);
    var f := EventOf(mid.log, q.cmd);
    if q.Looked? && q.previous.Some? {
      MidwayKeeps(s, r);
      assert mid.log[..q.loadedAt] == s.db.log[..q.loadedAt];
      PairsClosedPair(s.db.log, SupersedeEvent(s.db.log, q), f);
      assert s.readAt + ReadsOf(q) == s.readAt + [q.lookedAt] + [q.loadedAt];
    } else {
      PairsClosedAppend(s.db.log, f);
    }
    if f.body.MadeEffective? {
      FlushMeansSole(mid, f);
    }
    AppendKeepsRows(mid, f);
    LogAppend(mid.log, if q.Looked? && q.previous.Some? then s.readAt + [q.lookedAt] else s.readAt,
              Parents(s.db.versions), f, q.loadedAt);
  }

  lemma WriteKeepsInv(s: Shared, r: RequestId)
    requires SharedInv(s) && r in s.open && Ready(s.open[r])
    ensures SharedInv(Next(s, Write(r)))
  {
    var t := Next(s, Write(r));
    if WriteOf(s.db, s.open[r]).Success? {
      WriteKeepsLog(s, r);
      forall v | v in s.db.versions ensures t.db.versions[v].owner == s.db.versions[v].owner {
        assert Parents(t.db.versions)[v] == Parents(s.db.versions)[v];
      }
    }
    RequestsStay(s, t);
  }

  lemma CreateKeepsInv(s: Shared, id: Id, owner: Id, number: nat, drafted: bool, actor: Option<Id>, at: Time)
    requires SharedInv(s) && CanCreate(s.db, id, owner, number)
    ensures SharedInv(Created(s, id, owner, number, drafted, actor, at))
  {
    var t, parents := Created(s, id, owner, number, drafted, actor, at), Parents(s.db.versions);
    LogNewVersion(s.db.log, s.readAt, parents, id, owner);
    assert Parents(t.db.versions) == parents[id := owner];
    if drafted {
      var e := NewEvent(s.db.log, id, Drafted(owner, number), None, actor, at);
      assert s.db.log[..|s.db.log|] == s.db.log;
      LogAppend(s.db.log, s.readAt, parents[id := owner], e, |s.db.log|);
      PairsClosedAppend(s.db.log, e);
      CreatedRows(s.db, t.db, e);
    } else {
      forall v | v in t.db.versions ensures RowIsLive(t.db, v) {
        assert v in s.db.versions ==> RowIsLive(s.db, v);
      }
    }
    forall v, w ensures !BothEffective(t.db.versions, v, w) {
      assert !BothEffective(s.db.versions, v, w);
    }
    RequestsStay(s, t);
  }

  lemma CreatedRows(db: Db, after: Db, e: VersionEvent)
    requires RowsAreLive(db) && e.id !in db.versions && e.body.Drafted? && Of(db.log, e.id) == []
    requires after.log == db.log + [e] && e.id in after.versions && after.versions[e.id].lifecycle == FRESH
    requires after.versions == db.versions[e.id := after.versions[e.id]]
    ensures RowsAreLive(after)
  {
    forall v | v in after.versions ensures RowIsLive(after, v) {
      assert v in db.versions ==> RowIsLive(db, v);
      StateAppend(db.log, e, v);
    }
  }

  lemma LoadKeepsInv(s: Shared, r: RequestId, cmd: Command)
    requires SharedInv(s) && r !in s.open && Guard(s.db, cmd)
    ensures SharedInv(Next(s, Load(r, cmd)))
  {
    var t := Next(s, Load(r, cmd));
    forall x | x in t.open ensures RequestOk(t, x) {
      if x == r {
        assert RowIsLive(s.db, cmd.id);
        assert s.db.log[..|s.db.log|] == s.db.log;
      } else {
        assert RequestOk(s, x);
      }
    }
  }

  lemma LookKeepsInv(s: Shared, r: RequestId)
    requires SharedInv(s)
    ensures SharedInv(Next(s, Look(r)))
  {
    var t := Next(s, Look(r));
    forall x | x in t.open ensures RequestOk(t, x) {
      assert RequestOk(s, x);
      if x == r && t.open[x].Looked? && t.open[x].previous.Some? && s.open[x].Loaded? {
        assert RowIsLive(s.db, t.open[x].previous.value);
        assert s.db.log[..|s.db.log|] == s.db.log;
      }
    }
  }

  lemma StepKeepsInv(s: Shared, step: Step)
    requires SharedInv(s)
    ensures SharedInv(Next(s, step))
  {
    match step {
      case Create(id, owner, number, drafted, actor, at) =>
        if CanCreate(s.db, id, owner, number) {
          CreateKeepsInv(s, id, owner, number, drafted, actor, at);
        }
      case Load(r, cmd) =>
        if r !in s.open && Guard(s.db, cmd) {
          LoadKeepsInv(s, r, cmd);
        }
      case Look(r) => LookKeepsInv(s, r);
      case Write(r) =>
        if r in s.open && Ready(s.open[r]) {
          WriteKeepsInv(s, r);
        }
      case Drop(r) => RequestsStay(s, Next(s, step));
    }
  }

  lemma {:induction false} RunKeepsInv(steps: seq<Step>)
    ensures SharedInv(Run(steps))
  {
    if steps != [] {
      RunKeepsInv(steps[..|steps| - 1]);
      StepKeepsInv(Run(steps[..|steps| - 1]), steps[|steps| - 1]);
    }
  }

  /******* What overlapping requests still guarantee *******/

  /** The index keeps at most one version of a policy or control effective, whatever overlaps. */
  lemma OneEffectiveByIndex(steps: seq<Step>)
    ensures OneEffectivePerPolicy(Run(steps).db.versions)
  {
    RunKeepsInv(steps);
  }

  /** The table is still the replay of its events, if recorded times do not fall along any version. */
  lemma RebuildRestoresOverlapped(steps: seq<Step>, es: seq<VersionEvent>)
    requires RecordedInOrder(Run(steps).db.log) && Selected(RebuildOrder<Body>, Run(steps).db.log, es)
    ensures ProjectAll(ProjectRow, Reset(Run(steps).db.versions), es) == Run(steps).db.versions
  {
    RunKeepsInv(steps);
    RebuildRestoresVersions(Run(steps).db, es);
  }

  /** What a write makes of one row. */
  ghost predicate RowWritten(before: map<Id, VersionRow>, after: map<Id, VersionRow>, q: Request, v: Id)
    requires Ready(q) && v in before
  {
    && v in after && after[v].owner == before[v].owner
    && after[v].lifecycle.status ==
       (if v == q.cmd.id then Leaves(BodyOf(q.cmd))
        else if q.Looked? && q.previous == Some(v) then Superseded else before[v].lifecycle.status)
  }

  ghost predicate RowsWritten(before: map<Id, VersionRow>, after: map<Id, VersionRow>, q: Request)
    requires Ready(q)
  {
    after.Keys == before.Keys &&
    forall v {:trigger RowWritten(before, after, q, v)} :: v in before ==> RowWritten(before, after, q, v)
  }

  lemma WrittenRows(db: Db, q: Request)
    requires Ready(q) && q.cmd.id in db.versions
    requires q.Looked? && q.previous.Some? ==> q.previous.value in db.versions && q.previous.value != q.cmd.id
    ensures RowsWritten(db.versions, Written(db, q).versions, q)
  {
    var mid := Midway(db, q);
    if q.Looked? && q.previous.Some? {
      AppendRow(db, SupersedeEvent(db.log, q));
    }
    AppendRow(mid, EventOf(mid.log, q.cmd));
    forall v | v in db.versions ensures RowWritten(db.versions, Written(db, q).versions, q, v) {
    }
  }

  /** Another version of the same parent is effective, and it is not the one that was found when looking. */
  predicate Rival(versions: map<Id, VersionRow>, q: Request, v: Id) {
    q.Looked? && q.cmd.id in versions && IsOtherEffective(versions, q.cmd.id, v) && q.previous != Some(v)
  }

  /**
   Exactly when the index refuses: if a rival is effective by the time of the write. Commands other
   than making a version effective are never refused.
   */
  lemma WriteRefusedIff(s: Shared, r: RequestId)
    requires SharedInv(s) && r in s.open && Ready(s.open[r])
    ensures s.open[r].cmd.id in s.db.versions
    ensures WriteOf(s.db, s.open[r]).Success? <==> forall v :: !Rival(s.db.versions, s.open[r], v)
  {
    assert RequestOk(s, r);
    WrittenRows(s.db, s.open[r]);
    RefusedRows(s.db.versions, Written(s.db, s.open[r]).versions, s.open[r]);
  }

  lemma RefusedRows(before: map<Id, VersionRow>, after: map<Id, VersionRow>, q: Request)
    requires OneEffectivePerPolicy(before) && Ready(q) && q.cmd.id in before && RowsWritten(before, after, q)
    ensures OneEffectivePerPolicy(after) <==> forall v :: !Rival(before, q, v)
  {
    assert RowWritten(before, after, q, q.cmd.id);
    if OneEffectivePerPolicy(after) {
      forall v ensures !Rival(before, q, v) {
        assert v in before ==> RowWritten(before, after, q, v);
        assert !BothEffective(after, v, q.cmd.id);
      }
    }
    if forall v :: !Rival(before, q, v) {
      forall v, w ensures !BothEffective(after, v, w) {
        assert v in before ==> RowWritten(before, after, q, v);
        assert w in before ==> RowWritten(before, after, q, w);
        assert !BothEffective(before, v, w);
        assert !Rival(before, q, v) && !Rival(before, q, w);
      }
    }
  }

  /** Superseding alone never trips the index, so that a flush between the two events changes nothing. */
  lemma MidwayPasses(s: Shared, r: RequestId)
    requires SharedInv(s) && r in s.open && Ready(s.open[r])
    ensures OneEffectivePerPolicy(Midway(s.db, s.open[r]).versions)
  {
    var q := s.open[r];
    assert RequestOk(s, r);
    if q.Looked? && q.previous.Some? {
      AppendRow(s.db, SupersedeEvent(s.db.log, q));
    }
    forall v, w ensures !BothEffective(Midway(s.db, q).versions, v, w) {
      assert !BothEffective(s.db.versions, v, w);
    }
  }

  /******* Exactly when the guarantees of one command at a time survive *******/

  /**
   "Superseded and withdrawn are final" survives exactly if no request was overtaken: no supersession
   or withdrawal of the version it writes was appended between its read of it and its write.
   */
  lemma TerminalIsFinalIff(steps: seq<Step>)
    ensures var s := Run(steps);
      |s.readAt| == |s.db.log| &&
      (EndsAreLast(VERSION_RULES, s.db.log) <==>
       forall k {:trigger Overtaken(VERSION_RULES, s.db.log, s.readAt, k)} :: 0 <= k < |s.db.log| ==>
         !Overtaken(VERSION_RULES, s.db.log, s.readAt, k))
  {
    RunKeepsInv(steps);
    VersionEndsRefuse();
    EndsAreLastIff(VERSION_RULES, Run(steps).db.log, Run(steps).readAt);
  }

  /** If the version was written in between, then last by an event after which the command is allowed as well. */
  ghost predicate Harmless(log: seq<VersionEvent>, readAt: seq<nat>, k: int)
    requires 0 <= k < |log| == |readAt|
  {
    forall j :: readAt[k] <= j < k && LastBefore(log, j, k) ==> Allowed(Leaves(log[j].body), log[k].body)
  }

  /** Position `j` holds the last event of the aggregate of event `k` before it. */
  ghost predicate LastBefore(log: seq<VersionEvent>, j: int, k: int)
    requires 0 <= k < |log|
  {
    0 <= j < k && log[j].id == log[k].id && forall m :: j < m < k ==> log[m].id != log[k].id
  }

  lemma {:induction false} FindLastBefore(log: seq<VersionEvent>, a: nat, b: nat, k: nat) returns (j: nat)
    requires a < b <= k < |log| && log[a].id == log[k].id && forall m :: b <= m < k ==> log[m].id != log[k].id
    ensures a <= j < b && LastBefore(log, j, k)
    decreases b
  {
    if log[b - 1].id == log[k].id {
      j := b - 1;
    } else {
      j := FindLastBefore(log, a, b - 1, k);
    }
  }

  lemma StatusAfterLast(log: seq<VersionEvent>, j: nat, k: nat)
    requires k < |log| && LastBefore(log, j, k) && DraftAt(log, j)
    ensures State(log[..k], log[k].id).status == Leaves(log[j].body)
  {
    RowAfterEvent(VERSION_RULES, log, j, k);
    RowAtIsState(log, k, log[k].id);
    RowAtIsState(log, j, log[k].id);
  }

  lemma HoldsIffHarmless(log: seq<VersionEvent>, readAt: seq<nat>, parents: map<Id, Id>, k: nat)
    requires LogInv(log, readAt, parents) && k < |log|
    ensures Allowed(State(log[..k], log[k].id).status, log[k].body) <==> Harmless(log, readAt, k)
  {
    assert GuardedAt(VERSION_RULES, log, readAt, k);
    RowAtIsState(log, k, log[k].id);
    forall j | readAt[k] <= j < k && LastBefore(log, j, k)
      ensures State(log[..k], log[k].id).status == Leaves(log[j].body)
    {
      assert DraftAt(log, j);
      StatusAfterLast(log, j, k);
    }
    if Undisturbed(log, readAt, k) {
      UndisturbedHolds(VERSION_RULES, log, readAt, k);
    } else {
      var a :| readAt[k] <= a < k && log[a].id == log[k].id;
      var j := FindLastBefore(log, a, k, k);
    }
  }

  ghost predicate AllHarmless(log: seq<VersionEvent>, readAt: seq<nat>) {
    |readAt| == |log| && forall k {:trigger Harmless(log, readAt, k)} :: 0 <= k < |log| ==> Harmless(log, readAt, k)
  }

  lemma DisciplinedIffHarmless(log: seq<VersionEvent>, readAt: seq<nat>, parents: map<Id, Id>)
    requires LogInv(log, readAt, parents)
    ensures Disciplined(log, parents) <==> AllHarmless(log, readAt)
  {
    forall k | 0 <= k < |log| ensures PermittedAt(log, k, parents) <==> Harmless(log, readAt, k) {
      HoldsIffHarmless(log, readAt, parents, k);
      assert SoleAt(log, parents, k) && KnownAt(log, parents, k);
    }
    if Disciplined(log, parents) {
      forall k | 0 <= k < |log| ensures Harmless(log, readAt, k) {
        assert PermittedAt(log, k, parents);
      }
    }
    if AllHarmless(log, readAt) {
      forall k | 0 <= k < |log| ensures PermittedAt(log, k, parents) {
        assert Harmless(log, readAt, k);
      }
    }
  }

  /**
   The invariant of one command at a time, from which every guarantee about version histories follows,
   holds of overlapping requests exactly if every disturbance was harmless.
   */
  lemma SequentialInvIff(steps: seq<Step>)
    ensures Inv(Run(steps).db) <==> AllHarmless(Run(steps).db.log, Run(steps).readAt)
  {
    RunKeepsInv(steps);
    var s := Run(steps);
    DisciplinedIffHarmless(s.db.log, s.readAt, Parents(s.db.versions));
  }

  /** In particular it holds if no request was disturbed at all. */
  lemma UndisturbedIsSequential(steps: seq<Step>)
    requires |Run(steps).readAt| == |Run(steps).db.log|
    requires forall k {:trigger Undisturbed(Run(steps).db.log, Run(steps).readAt, k)} ::
      0 <= k < |Run(steps).db.log| ==> Undisturbed(Run(steps).db.log, Run(steps).readAt, k)
    ensures Inv(Run(steps).db)
  {
    var log, readAt := Run(steps).db.log, Run(steps).readAt;
    forall k | 0 <= k < |log| ensures Harmless(log, readAt, k) {
      assert Undisturbed(log, readAt, k);
    }
    SequentialInvIff(steps);
  }

  /******* Control definitions *******/

  ghost predicate Rooted(db: Db) {
    forall v {:trigger RootedAt(db, v)} :: v in db.versions ==> RootedAt(db, v)
  }

  lemma WriteKeepsRoots(s: Shared, r: RequestId)
    requires SharedInv(s) && Rooted(s.db) && r in s.open && Ready(s.open[r])
    ensures Rooted(Written(s.db, s.open[r]))
  {
    var q, mid := s.open[r], Midway(s.db, s.open[r]);
    assert RequestOk(s, r);
    if q.Looked? && q.previous.Some? {
      AppendKeepsRoot(s.db, SupersedeEvent(s.db.log, q));
      AppendRow(s.db, SupersedeEvent(s.db.log, q));
    }
    AppendKeepsRoot(mid, EventOf(mid.log, q.cmd));
  }

  lemma CreateKeepsRoots(s: Shared, id: Id, owner: Id, number: nat, actor: Option<Id>, at: Time)
    requires SharedInv(s) && Rooted(s.db) && CanCreate(s.db, id, owner, number)
    ensures Rooted(Created(s, id, owner, number, true, actor, at).db)
  {
    var t := Created(s, id, owner, number, true, actor, at);
    var e := NewEvent(s.db.log, id, Drafted(owner, number), None, actor, at);
    LogNewVersion(s.db.log, s.readAt, Parents(s.db.versions), id, owner);
    forall v | v in t.db.versions ensures RootedAt(t.db, v) {
      OfAppend(s.db.log, e, v);
      if v != id {
        assert RootedAt(s.db, v);
        assert Of(s.db.log, v) + [] == Of(s.db.log, v);
      }
    }
  }

  /** Versions are created by drafting only. */
  predicate DraftsOnly(steps: seq<Step>) {
    forall i :: 0 <= i < |steps| && steps[i].Create? ==> steps[i].drafted
  }

  lemma {:induction false} DraftedRunIsRooted(steps: seq<Step>)
    requires DraftsOnly(steps)
    ensures Rooted(Run(steps).db)
  {
    if steps != [] {
      var n := |steps| - 1;
      var s, step := Run(steps[..n]), steps[n];
      DraftedRunIsRooted(steps[..n]);
      RunKeepsInv(steps[..n]);
      if step.Create? && CanCreate(s.db, step.id, step.owner, step.number) {
        CreateKeepsRoots(s, step.id, step.owner, step.number, step.actor, step.at);
      } else if step.Write? && step.r in s.open && Ready(s.open[step.r]) {
        WriteKeepsRoots(s, step.r);
      }
    }
  }

  /** The same for control definitions: their invariant holds exactly if every disturbance was harmless. */
  lemma SequentialControlInvIff(steps: seq<Step>)
    requires DraftsOnly(steps)
    ensures ControlInv(Run(steps).db) <==> AllHarmless(Run(steps).db.log, Run(steps).readAt)
  {
    DraftedRunIsRooted(steps);
    SequentialInvIff(steps);
  }

  /******* What goes wrong otherwise *******/

  /** Loading and looking change no table. */
  lemma Opened(s: Shared, r: RequestId, cmd: Command)
    requires SharedInv(s) && r !in s.open && Guard(s.db, cmd)
    ensures var t := Next(s, Load(r, cmd));
      && SharedInv(t) && t.db == s.db && t.readAt == s.readAt && t.open == s.open[r := Loaded(cmd, |s.db.log|)]
  {
    LoadKeepsInv(s, r, cmd);
  }

  lemma LookedUp(s: Shared, r: RequestId)
    requires SharedInv(s) && r in s.open && s.open[r].Loaded? && s.open[r].cmd.MakeEffective?
    ensures s.open[r].cmd.id in s.db.versions
    ensures var q, t := s.open[r], Next(s, Look(r));
      && SharedInv(t) && t.db == s.db && t.readAt == s.readAt
      && t.open == s.open[r := Looked(q.cmd, q.loadedAt, PreviousEffective(s.db.versions, q.cmd.id), |s.db.log|)]
  {
    assert RequestOk(s, r);
    LookKeepsInv(s, r);
  }

  /** A request that looked just before it writes is not refused. */
  lemma FreshLookSucceeds(s: Shared, r: RequestId)
    requires SharedInv(s) && r in s.open && s.open[r].Looked? && Ready(s.open[r]) && s.open[r].cmd.id in s.db.versions
    requires s.open[r].previous == PreviousEffective(s.db.versions, s.open[r].cmd.id)
    ensures WriteOf(s.db, s.open[r]).Success?
  {
    WriteRefusedIff(s, r);
    forall v ensures !Rival(s.db.versions, s.open[r], v) {
      if s.open[r].previous.Some? {
        assert !BothEffective(s.db.versions, v, s.open[r].previous.value);
      }
    }
  }

  lemma LoadAndWithdraw(s: Shared, v: Id, x: RequestId, actor: Option<Id>, at: Time) returns (withdrawn: Shared)
    requires SharedInv(s) && v in s.db.versions && x !in s.open
    requires Allowed(s.db.versions[v].lifecycle.status, WithdrawnFor(""))
    ensures withdrawn == Next(Next(s, Load(x, Withdraw(v, "", actor, None, at))), Write(x)) && SharedInv(withdrawn)
    ensures withdrawn.open == s.open && v in withdrawn.db.versions
    ensures withdrawn.db.versions[v].lifecycle.status == Withdrawn
    ensures s.db.log < withdrawn.db.log && |withdrawn.db.log| == |s.db.log| + 1
    ensures withdrawn.db.log[|s.db.log|].id == v && withdrawn.db.log[|s.db.log|].body.WithdrawnFor?
    ensures withdrawn.db.log[|s.db.log|].recordedAt == at
  {
    var cmd := Withdraw(v, "", actor, None, at);
    var loaded := Next(s, Load(x, cmd));
    Opened(s, x, cmd);
    WriteRefusedIff(loaded, x);
    WrittenRows(loaded.db, loaded.open[x]);
    assert RowWritten(loaded.db.versions, Written(loaded.db, loaded.open[x]).versions, loaded.open[x], v);
    WrittenLog(loaded.db, loaded.open[x]);
    withdrawn := Next(loaded, Write(x));
    WriteKeepsInv(loaded, x);
    assert loaded.open - {x} == s.open;
  }

  /** Looking and then writing makes the loaded version effective, whatever has become of it. */
  lemma LookAndWrite(s: Shared, r: RequestId) returns (after: Shared)
    requires SharedInv(s) && r in s.open && s.open[r].Loaded? && s.open[r].cmd.MakeEffective?
    ensures after == Next(Next(s, Look(r)), Write(r)) && SharedInv(after)
    ensures s.open[r].cmd.id in after.db.versions
    ensures after.db.versions[s.open[r].cmd.id].lifecycle.status == Effective
    ensures s.db.log < after.db.log && after.db.log[|after.db.log| - 1].id == s.open[r].cmd.id
  {
    LookedUp(s, r);
    var looked := Next(s, Look(r));
    FreshLookSucceeds(looked, r);
    EffectiveWritten(looked, r);
    after := Next(looked, Write(r));
    WriteKeepsInv(looked, r);
  }

  lemma EffectiveWritten(s: Shared, r: RequestId)
    requires SharedInv(s) && r in s.open && Ready(s.open[r]) && s.open[r].Looked?
    ensures var q, after := s.open[r], Written(s.db, s.open[r]);
      && q.cmd.id in after.versions && after.versions[q.cmd.id].lifecycle.status == Effective
      && s.db.log < after.log && after.log[|after.log| - 1].id == q.cmd.id
      && forall v :: v in s.db.versions ==> v in after.versions && after.versions[v].owner == s.db.versions[v].owner
  {
    var q, after := s.open[r], Written(s.db, s.open[r]);
    assert RequestOk(s, r);
    WrittenRows(s.db, q);
    WrittenLog(s.db, q);
    forall v | v in s.db.versions ensures v in after.versions && after.versions[v].owner == s.db.versions[v].owner {
      assert RowWritten(s.db.versions, after.versions, q, v);
    }
    assert RowWritten(s.db.versions, after.versions, q, q.cmd.id);
  }

  /**
   From every state with an approved version: a request that loaded it before another one withdrew it
   makes the withdrawn version effective.
   */
  lemma WithdrawnBecomesEffective(s: Shared, v: Id, r: RequestId, x: RequestId, actor: Option<Id>, at: Time)
    returns (withdrawn: Shared, after: Shared)
    requires SharedInv(s) && v in s.db.versions && s.db.versions[v].lifecycle.status == Approved
    requires r != x && r !in s.open && x !in s.open
    ensures withdrawn == Next(Next(Next(s, Load(r, MakeEffective(v, actor, at, at))),
                                   Load(x, Withdraw(v, "", actor, None, at))), Write(x))
    ensures after == Next(Next(withdrawn, Look(r)), Write(r))
    ensures v in withdrawn.db.versions && withdrawn.db.versions[v].lifecycle.status == Withdrawn
    ensures v in after.db.versions && after.db.versions[v].lifecycle.status == Effective
    ensures !EndsAreLast(VERSION_RULES, after.db.log)
  {
    var make := MakeEffective(v, actor, at, at);
    Opened(s, r, make);
    var loaded := Next(s, Load(r, make));
    withdrawn := LoadAndWithdraw(loaded, v, x, actor, at);
    after := LookAndWrite(withdrawn, r);
    var i, k := |s.db.log|, |after.db.log| - 1;
    assert after.db.log[i] == withdrawn.db.log[i];
    assert VERSION_RULES.ends(after.db.log[i].body) && after.db.log[i].id == after.db.log[k].id;
  }

  lemma WrittenLog(db: Db, q: Request)
    requires Ready(q)
    ensures db.log < Written(db, q).log
    ensures Written(db, q).log[|Written(db, q).log| - 1].id == q.cmd.id
    ensures Written(db, q).log[|Written(db, q).log| - 1].body == BodyOf(q.cmd)
    ensures Written(db, q).log[|Written(db, q).log| - 1].recordedAt == q.cmd.at
    ensures q.Loaded? ==> |Written(db, q).log| == |db.log| + 1
  {
  }

  /** Two requests to make versions of one parent effective have both looked. */
  lemma BothLook(s: Shared, v: Id, w: Id, r: RequestId, x: RequestId, actor: Option<Id>, at: Time)
    returns (looked: Shared)
    requires SharedInv(s) && v in s.db.versions && w in s.db.versions
    requires s.db.versions[v].lifecycle.status == Approved && s.db.versions[w].lifecycle.status == Approved
    requires r != x && r !in s.open && x !in s.open
    ensures looked == Next(Next(Next(Next(s, Load(r, MakeEffective(v, actor, at, at))),
                                     Load(x, MakeEffective(w, actor, at, at))), Look(r)), Look(x))
    ensures SharedInv(looked) && looked.db == s.db && r in looked.open && x in looked.open
    ensures looked.open[r] == Looked(MakeEffective(v, actor, at, at), |s.db.log|, PreviousEffective(s.db.versions, v),
        |s.db.log|)
    ensures looked.open[x] == Looked(MakeEffective(w, actor, at, at), |s.db.log|, PreviousEffective(s.db.versions, w),
        |s.db.log|)
  {
    var makeV, makeW := MakeEffective(v, actor, at, at), MakeEffective(w, actor, at, at);
    var one := Next(s, Load(r, makeV));
    Opened(s, r, makeV);
    var two := Next(one, Load(x, makeW));
    Opened(one, x, makeW);
    LookedUp(two, r);
    var three := Next(two, Look(r));
    LookedUp(three, x);
    looked := Next(three, Look(x));
  }

  /**
   From every state with two approved versions of one parent: of two overlapping requests to make them
   effective, the index refuses the one that writes second.
   */
  lemma SecondIsRefused(s: Shared, v: Id, w: Id, r: RequestId, x: RequestId, actor: Option<Id>, at: Time)
    returns (looked: Shared, first: Shared)
    requires SharedInv(s) && v in s.db.versions && w in s.db.versions && v != w
    requires s.db.versions[v].owner == s.db.versions[w].owner
    requires s.db.versions[v].lifecycle.status == Approved && s.db.versions[w].lifecycle.status == Approved
    requires r != x && r !in s.open && x !in s.open
    ensures looked == Next(Next(Next(Next(s, Load(r, MakeEffective(v, actor, at, at))),
                                     Load(x, MakeEffective(w, actor, at, at))), Look(r)), Look(x))
    ensures first == Next(looked, Write(r)) && v in first.db.versions
    ensures first.db.versions[v].lifecycle.status == Effective
    ensures x in first.open && Ready(first.open[x]) && WriteOf(first.db, first.open[x]) == Failure(IntegrityError)
    ensures Next(first, Write(x)).db == first.db
  {
    looked := BothLook(s, v, w, r, x, actor, at);
    FreshLookSucceeds(looked, r);
    EffectiveWritten(looked, r);
    first := Next(looked, Write(r));
    WriteKeepsInv(looked, r);
    WriteRefusedIff(first, x);
    assert v in s.db.versions && w in s.db.versions;
    assert Rival(first.db.versions, first.open[x], v);
  }

  /**
   From every state of a policy with a draft, with rising clock readings: a submission that read the
   clock before a withdrawal, but is appended after it, leaves a log whose rebuild differs from the
   live table.
   */
  lemma RacedSubmissionBreaksRebuild(s: Shared, v: Id, r: RequestId, x: RequestId, actor: Option<Id>, t: Time, u: Time)
    returns (after: Shared)
    requires SharedInv(s) && NoDrafts(s.db.log) && v in s.db.versions && s.db.versions[v].lifecycle.status == Draft
    requires r != x && r !in s.open && x !in s.open && t < u
    ensures after == Next(Next(Next(Next(s, Load(r, Submit(v, actor, t))), Load(x, Withdraw(v, "", actor, None, u))),
                               Write(x)), Write(r))
    ensures forall es :: Selected(RebuildOrder<Body>, after.db.log, es) ==>
              ProjectAll(ProjectRow, Reset(after.db.versions), es) != after.db.versions
  {
    var submit := Submit(v, actor, t);
    Opened(s, r, submit);
    var loaded := Next(s, Load(r, submit));
    var withdrawn := LoadAndWithdraw(loaded, v, x, actor, u);
    WriteRefusedIff(withdrawn, r);
    WrittenLog(withdrawn.db, withdrawn.open[r]);
    WriteKeepsInv(withdrawn, r);
    after := Next(withdrawn, Write(r));
    var e, f := withdrawn.db.log[|s.db.log|], after.db.log[|s.db.log| + 1];
    assert after.db.log == s.db.log + [e] + [f];
    LateSubmission(after, s.db.log, e, f);
  }

  lemma LateSubmission(s: Shared, log: seq<VersionEvent>, e: VersionEvent, f: VersionEvent)
    requires SharedInv(s) && s.db.log == log + [e] + [f] && NoDrafts(s.db.log) && e.id == f.id
    requires f.recordedAt < e.recordedAt && f.body.SubmittedForReview?
    ensures forall es :: Selected(RebuildOrder<Body>, s.db.log, es) ==>
              ProjectAll(ProjectRow, Reset(s.db.versions), es) != s.db.versions
  {
    var v := e.id;
    assert KnownAt(s.db.log, Parents(s.db.versions), |log|);
    assert RowIsLive(s.db, v);
    OrderFacts(s.db.log, v);
    EarlierIsNotLast(log, e, f);
    forall es | Selected(RebuildOrder<Body>, s.db.log, es)
      ensures ProjectAll(ProjectRow, Reset(s.db.versions), es) != s.db.versions
    {
      SortedFacts(s.db.log, es, v);
      LateSubmissionDiffers(Of(s.db.log, v), Of(es, v));
      ReplayedRow(s.db.versions, es, v);
    }
  }
}
