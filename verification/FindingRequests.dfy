/**
 Requests on findings that overlap (app/finding_lifecycle.py): each loads the finding and checks its
 guard, and appends its event later. Nothing compares the finding again at that point.
 */
module FindingRequests {
  import opened Common
  import opened EventLog
  import opened Replay
  import opened Findings
  import opened Overlap

  type RequestId = nat

  /** An open request whose guard held when the log was `loadedAt` events long. */
  datatype Request = Request(id: Id, body: FindingBody, actor: Option<Id>, at: Time, loadedAt: nat)

  /** `readAt` is a history variable: where the guard of each event was read. */
  datatype Shared = Shared(db: Db, readAt: seq<nat>, open: map<RequestId, Request>)

  const NOTHING_YET := Shared(EMPTY, [], map[])

  /** `Create` records a test or opens a finding; `Drop` is a request that ends without writing. */
  datatype Step = Create(cmd: Command) | Load(r: RequestId, cmd: Command) | Write(r: RequestId) | Drop(r: RequestId)

  predicate Creating(cmd: Command) {
    cmd.RecordTest? || cmd.OpenFinding?
  }

  /** The event that a command on an existing finding is going to append. */
  function BodyOf(db: Db, cmd: Command): FindingBody
    requires !Creating(cmd) && Exec(db, cmd).Success?
  {
    match cmd
    case RecordUpdate(_, note, _, _) => UpdateRecorded(note)
    case RequestRetest(_, _, _) => RetestRequested
    case RecordRetest(_, test, _, _) => RetestRecorded(test, FindTest(db.tests, test).value.result)
    case CloseFinding(_, decision, note, _, _) => FindingClosed(decision, note)
  }

  function Next(s: Shared, step: Step): Shared {
    match step
    case Create(cmd) =>
      if Creating(cmd) && Exec(s.db, cmd).Success? then
        s.(db := Exec(s.db, cmd).value, readAt := if cmd.OpenFinding? then s.readAt + [|s.db.log|] else s.readAt)
      else s
    case Load(r, cmd) =>
      if r !in s.open && !Creating(cmd) && Exec(s.db, cmd).Success? then
        s.(open := s.open[r := Request(cmd.id, BodyOf(s.db, cmd), cmd.actor, cmd.at, |s.db.log|)])
      else s
    case Write(r) =>
      if r !in s.open then s
      else
        var q := s.open[r];
        Shared(Append(s.db, q.id, q.body, q.actor, q.at), s.readAt + [q.loadedAt], s.open - {r})
    case Drop(r) => s.(open := s.open - {r})
  }

  function Run(steps: seq<Step>): Shared {
    if steps == [] then NOTHING_YET else Next(Run(steps[..|steps| - 1]), steps[|steps| - 1])
  }

  predicate Closes(b: FindingBody) {
    b.FindingClosed?
  }

  const FINDING_RULES: Rules<Finding, FindingBody> := Rules(None, ProjectFinding, Allows, Closes)

  lemma FindingEndsRefuse()
    ensures EndsRefuse(FINDING_RULES)
  {
  }

  /******* What every step keeps *******/

  ghost predicate RequestOk(s: Shared, r: RequestId)
    requires r in s.open
  {
    var q := s.open[r];
    && q.id in s.db.findings && !q.body.Opened? && q.loadedAt <= |s.db.log|
    && Allows(RowAt(FINDING_RULES, s.db.log, q.loadedAt, q.id), q.body)
    && (q.body.RetestRecorded? ==> Lineage(s.db.tests, s.db.findings[q.id], q.body.test))
  }

  /** Findings are opened in one step. */
  ghost predicate OpenedAtOnce(log: seq<FindingEvent>, readAt: seq<nat>) {
    |readAt| == |log| && forall k :: 0 <= k < |log| && log[k].body.Opened? ==> readAt[k] == k
  }

  ghost predicate SharedInv(s: Shared) {
    && TablesOk(s.db) && Guarded(FINDING_RULES, s.db.log, s.readAt) && OpenedAtOnce(s.db.log, s.readAt)
    && (forall r {:trigger RequestOk(s, r)} :: r in s.open ==> RequestOk(s, r))
  }

  /** Findings and tests stay, with the fields that a retest's lineage is checked against. */
  ghost predicate Extends(db: Db, after: Db) {
    && db.log <= after.log
    && (forall v :: v in db.findings ==>
          && v in after.findings && after.findings[v].source == db.findings[v].source
          && after.findings[v].control == db.findings[v].control)
    && (forall t: Id :: FindTest(db.tests, t).Some? ==> FindTest(after.tests, t) == FindTest(db.tests, t))
  }

  lemma RequestsStay(s: Shared, t: Shared)
    requires forall r {:trigger RequestOk(s, r)} :: r in s.open ==> RequestOk(s, r)
    requires Extends(s.db, t.db) && forall r :: r in t.open ==> r in s.open && t.open[r] == s.open[r]
    ensures forall r {:trigger RequestOk(t, r)} :: r in t.open ==> RequestOk(t, r)
  {
    forall r | r in t.open ensures RequestOk(t, r) {
      assert RequestOk(s, r);
      assert t.db.log[..t.open[r].loadedAt] == s.db.log[..t.open[r].loadedAt];
    }
  }

  lemma AppendExtends(db: Db, id: Id, body: FindingBody, actor: Option<Id>, at: Time)
    requires body.Opened? == (id !in db.findings)
    ensures Extends(db, Append(db, id, body, actor, at))
  {
  }

  lemma RecordTestExtends(db: Db, t: Test)
    requires FindTest(db.tests, t.id).None?
    ensures Extends(db, db.(tests := db.tests + [t]))
  {
    assert (db.tests + [t])[..|db.tests|] == db.tests;
  }

  /** The row as the log says, at its present end. */
  lemma RowNow(db: Db, v: Id)
    requires TablesOk(db)
    ensures RowAt(FINDING_RULES, db.log, |db.log|, v) == Lookup(db.findings, v)
  {
    RowOf(db, v);
    assert db.log[..|db.log|] == db.log;
  }

  lemma CreateKeepsInv(s: Shared, cmd: Command)
    requires SharedInv(s) && Creating(cmd) && Exec(s.db, cmd).Success?
    ensures SharedInv(Next(s, Create(cmd)))
  {
    if cmd.RecordTest? {
      RecordTestKeepsTables(s.db, cmd.row);
      RecordTestExtends(s.db, cmd.row);
    } else {
      AppendKeepsTables(s.db, cmd.id, cmd.body, cmd.actor, cmd.at);
      AppendExtends(s.db, cmd.id, cmd.body, cmd.actor, cmd.at);
      RowNow(s.db, cmd.id);
      var after := Append(s.db, cmd.id, cmd.body, cmd.actor, cmd.at);
      GuardedAppend(FINDING_RULES, s.db.log, s.readAt, after.log[|s.db.log|], |s.db.log|);
    }
    RequestsStay(s, Next(s, Create(cmd)));
  }

  lemma LoadKeepsInv(s: Shared, r: RequestId, cmd: Command)
    requires SharedInv(s)
    ensures SharedInv(Next(s, Load(r, cmd)))
  {
    var t := Next(s, Load(r, cmd));
    forall x | x in t.open ensures RequestOk(t, x) {
      if x in s.open {
        assert RequestOk(s, x);
      } else {
        RowNow(s.db, cmd.id);
      }
    }
  }

  lemma WriteKeepsInv(s: Shared, r: RequestId)
    requires SharedInv(s) && r in s.open
    ensures SharedInv(Next(s, Write(r)))
  {
    var q, t := s.open[r], Next(s, Write(r));
    assert RequestOk(s, r);
    WrittenRetests(s, r);
    AppendKeepsTables(s.db, q.id, q.body, q.actor, q.at);
    AppendExtends(s.db, q.id, q.body, q.actor, q.at);
    GuardedAppend(FINDING_RULES, s.db.log, s.readAt, t.db.log[|s.db.log|], q.loadedAt);
    RequestsStay(s, t);
  }

  lemma WrittenRetests(s: Shared, r: RequestId)
    requires SharedInv(s) && r in s.open
    ensures var q := s.open[r]; var after := Append(s.db, q.id, q.body, q.actor, q.at);
      q.id in after.findings && RetestsOk(s.db.tests, after.findings[q.id])
  {
    var q := s.open[r];
    assert RequestOk(s, r);
    var f, g := s.db.findings[q.id], Append(s.db, q.id, q.body, q.actor, q.at).findings[q.id];
    assert RetestsOk(s.db.tests, f);
    if q.body.RetestRecorded? {
      OneMoreRetest(s.db.tests, f, g, q.body.test);
    } else {
      SameRetests(s.db.tests, f, g);
    }
  }

  lemma StepKeepsInv(s: Shared, step: Step)
    requires SharedInv(s)
    ensures SharedInv(Next(s, step))
  {
    match step {
      case Create(cmd) =>
        if Creating(cmd) && Exec(s.db, cmd).Success? {
          CreateKeepsInv(s, cmd);
        }
      case Load(r, cmd) => LoadKeepsInv(s, r, cmd);
      case Write(r) =>
        if r in s.open {
          WriteKeepsInv(s, r);
        }
      case Drop(r) => RequestsStay(s, Next(s, step));
    }
  }

  lemma {:induction false} RunKeepsInv(steps: seq<Step>)
    ensures SharedInv(Run(steps))
  {
    if steps != [] {
      RunKeepsInv(steps[..|steps| - 1]);
      StepKeepsInv(Run(steps[..|steps| - 1]), steps[|steps| - 1]);
    }
  }

  /******* What overlapping requests still guarantee *******/

  lemma {:induction false} UpdatesGrow(log: seq<FindingEvent>, a: nat, b: nat, v: Id)
    requires a <= b <= |log|
    ensures Updates(Of(log[..a], v)) <= Updates(Of(log[..b], v))
    decreases b
  {
    if a < b {
      UpdatesGrow(log, a, b - 1, v);
      assert log[..b] == log[..b - 1] + [log[b - 1]];
      OfAppend(log[..b - 1], log[b - 1], v);
      var es := Of(log[..b - 1], v);
      assert es + [] == es && (es + [log[b - 1]])[..|es|] == es;
    }
  }

  predicate UnderWay(row: Option<Finding>) {
    row.Some? && (row.value.status == Remediating || row.value.status == Retesting)
  }

  lemma {:induction false} UpdateBeforeWork(log: seq<FindingEvent>, readAt: seq<nat>, k: nat, v: Id)
    requires Guarded(FINDING_RULES, log, readAt) && k <= |log|
    ensures UnderWay(RowAt(FINDING_RULES, log, k, v)) ==> Updates(Of(log[..k], v)) > 0
    decreases k
  {
    if k > 0 {
      var n := k - 1;
      UpdateBeforeWork(log, readAt, n, v);
      assert log[..k] == log[..n] + [log[n]];
      OfAppend(log[..n], log[n], v);
      var es := Of(log[..n], v);
      assert es + [] == es && (es + [log[n]])[..|es|] == es;
      if log[n].id == v {
        FoldAppend(FINDING_RULES.step, FINDING_RULES.start, es, log[n]);
        assert GuardedAt(FINDING_RULES, log, readAt, n);
        if log[n].body.RetestRequested? || log[n].body.RetestRecorded? {
          UpdateBeforeWork(log, readAt, readAt[n], v);
          UpdatesGrow(log, readAt[n], n, v);
        }
      }
    }
  }

  /** Also when requests overlap, a finding in remediation or retest has an update on record. */
  lemma UpdatesFirstOverlapped(steps: seq<Step>, v: Id)
    requires v in Run(steps).db.findings
    requires Run(steps).db.findings[v].status == Remediating || Run(steps).db.findings[v].status == Retesting
    ensures Updates(Of(Run(steps).db.log, v)) > 0
  {
    RunKeepsInv(steps);
    var s := Run(steps);
    RowNow(s.db, v);
    UpdateBeforeWork(s.db.log, s.readAt, |s.db.log|, v);
    assert s.db.log[..|s.db.log|] == s.db.log;
  }

  /** Also when requests overlap, retests stay within their lineage. */
  lemma LineageOverlapped(steps: seq<Step>, v: Id)
    requires v in Run(steps).db.findings
    ensures RetestsOk(Run(steps).db.tests, Run(steps).db.findings[v])
  {
    RunKeepsInv(steps);
  }

  /******* Exactly when the rest survives *******/

  /**
   "A closing event is the last of its finding" survives exactly if no request was overtaken: no closing
   of its finding was appended between its read and its write.
   */
  lemma ClosingIsLastIff(steps: seq<Step>)
    ensures var s := Run(steps);
      |s.readAt| == |s.db.log| &&
      (EndsAreLast(FINDING_RULES, s.db.log) <==>
       forall k {:trigger Overtaken(FINDING_RULES, s.db.log, s.readAt, k)} :: 0 <= k < |s.db.log| ==>
         !Overtaken(FINDING_RULES, s.db.log, s.readAt, k))
  {
    RunKeepsInv(steps);
    FindingEndsRefuse();
    EndsAreLastIff(FINDING_RULES, Run(steps).db.log, Run(steps).readAt);
  }

  /** Every event but a remediation update sets the status. */
  predicate SetsStatus(b: FindingBody) {
    !b.UpdateRecorded?
  }

  function LeavesStatus(b: FindingBody): Status
    requires SetsStatus(b)
  {
    match b
    case Opened(_, _, _, _) => Open
    case RetestRequested => Retesting
    case RetestRecorded(_, result) => if result == "exceptions_noted" then Remediating else Retesting
    case FindingClosed(_, _) => Closed
  }

  /** The guards, as conditions on the status. */
  predicate StatusAllows(s: Status, b: FindingBody) {
    match b
    case Opened(_, _, _, _) => false
    case UpdateRecorded(_) => s != Closed
    case RetestRequested => s == Remediating
    case RetestRecorded(_, _) => s == Retesting
    case FindingClosed(_, _) => s != Closed
  }

  /** Position `j` holds the last event before `k` that sets the status of the same finding. */
  ghost predicate LastSetting(log: seq<FindingEvent>, j: int, k: int)
    requires 0 <= k < |log|
  {
    0 <= j < k && log[j].id == log[k].id && SetsStatus(log[j].body) &&
    forall m :: j < m < k && log[m].id == log[k].id ==> !SetsStatus(log[m].body)
  }

  /** If the status was set in between, then last to one at which the command is allowed as well. */
  ghost predicate Harmless(log: seq<FindingEvent>, readAt: seq<nat>, k: int)
    requires 0 <= k < |log| == |readAt|
  {
    forall j :: readAt[k] <= j < k && LastSetting(log, j, k) ==> StatusAllows(LeavesStatus(log[j].body), log[k].body)
  }

  ghost predicate AllHarmless(log: seq<FindingEvent>, readAt: seq<nat>) {
    |readAt| == |log| && forall k {:trigger Harmless(log, readAt, k)} :: 0 <= k < |log| ==> Harmless(log, readAt, k)
  }

  lemma {:induction false} FindLastSetting(log: seq<FindingEvent>, a: nat, b: nat, k: nat) returns (j: nat)
    requires a < b <= k < |log| && log[a].id == log[k].id && SetsStatus(log[a].body)
    requires forall m :: b <= m < k && log[m].id == log[k].id ==> !SetsStatus(log[m].body)
    ensures a <= j < b && LastSetting(log, j, k)
    decreases b
  {
    if log[b - 1].id == log[k].id && SetsStatus(log[b - 1].body) {
      j := b - 1;
    } else {
      j := FindLastSetting(log, a, b - 1, k);
    }
  }

  /** Remediation updates change the status only of an open finding. */
  lemma {:induction false} UpdatesKeepStatus(log: seq<FindingEvent>, a: nat, b: nat, id: Id)
    requires a <= b <= |log| && forall m :: a <= m < b && log[m].id == id ==> !SetsStatus(log[m].body)
    requires RowAt(FINDING_RULES, log, a, id).Some?
    ensures var before, after := RowAt(FINDING_RULES, log, a, id), RowAt(FINDING_RULES, log, b, id);
      && after.Some?
      && (after.value.status == before.value.status ||
          (before.value.status == Open && after.value.status == Remediating))
    decreases b
  {
    if a < b {
      UpdatesKeepStatus(log, a, b - 1, id);
      assert log[..b] == log[..b - 1] + [log[b - 1]];
      OfAppend(log[..b - 1], log[b - 1], id);
      if log[b - 1].id == id {
        FoldAppend(FINDING_RULES.step, FINDING_RULES.start, Of(log[..b - 1], id), log[b - 1]);
      } else {
        assert Of(log[..b], id) == Of(log[..b - 1], id);
      }
    }
  }

  /** The status of a finding is what the last event that set it left. */
  lemma StatusAfterSetting(log: seq<FindingEvent>, readAt: seq<nat>, j: nat, k: nat)
    requires Guarded(FINDING_RULES, log, readAt) && OpenedAtOnce(log, readAt)
    requires k < |log| && readAt[k] <= j && LastSetting(log, j, k)
    ensures RowAt(FINDING_RULES, log, k, log[k].id).Some?
    ensures RowAt(FINDING_RULES, log, k, log[k].id).value.status == LeavesStatus(log[j].body)
  {
    var id := log[k].id;
    FindingEndsRefuse();
    assert GuardedAt(FINDING_RULES, log, readAt, k) && GuardedAt(FINDING_RULES, log, readAt, j);
    RowStays(FINDING_RULES, log, readAt[k], j, id);
    RowAfterEvent(FINDING_RULES, log, j, j + 1);
    UpdatesKeepStatus(log, j + 1, k, id);
  }

  lemma HoldsIffHarmless(log: seq<FindingEvent>, readAt: seq<nat>, k: nat)
    requires Guarded(FINDING_RULES, log, readAt) && OpenedAtOnce(log, readAt) && k < |log|
    ensures HoldsAt(FINDING_RULES, log, k) <==> Harmless(log, readAt, k)
  {
    var id := log[k].id;
    assert GuardedAt(FINDING_RULES, log, readAt, k);
    if a :| readAt[k] <= a < k && log[a].id == id && SetsStatus(log[a].body) {
      var j := FindLastSetting(log, a, k, k);
      StatusAfterSetting(log, readAt, j, k);
    } else if !log[k].body.Opened? {
      UpdatesKeepStatus(log, readAt[k], k, id);
    }
  }

  /**
   The invariant of one command at a time holds exactly if, wherever the status of a finding was set between
   a request's read and its append, the last such event leaves one at which the command is allowed.
   */
  lemma SequentialInvIff(steps: seq<Step>)
    ensures Inv(Run(steps).db) <==> AllHarmless(Run(steps).db.log, Run(steps).readAt)
  {
    RunKeepsInv(steps);
    var log, readAt := Run(steps).db.log, Run(steps).readAt;
    if Inv(Run(steps).db) {
      forall k | 0 <= k < |log| ensures Harmless(log, readAt, k) {
        assert Legal(Of(log, log[k].id));
        LegalHolds(log, k);
        HoldsIffHarmless(log, readAt, k);
      }
    }
    if AllHarmless(log, readAt) {
      forall k | 0 <= k < |log| ensures HoldsAt(FINDING_RULES, log, k) {
        assert Harmless(log, readAt, k);
        HoldsIffHarmless(log, readAt, k);
      }
      forall v ensures Legal(Of(log, v)) {
        HoldsLegal(log, v);
      }
    }
  }

  lemma LegalHolds(log: seq<FindingEvent>, k: nat)
    requires k < |log| && Legal(Of(log, log[k].id))
    ensures HoldsAt(FINDING_RULES, log, k)
  {
    var v := log[k].id;
    var es, p := Of(log, v), |Of(log[..k], v)|;
    assert log[..|log|] == log;
    OfAt(log, k, |log|);
    OfPrefix(log, k, v);
    assert AllowedAt(es, p);
    assert es[..p] == Of(log[..k], v);
  }

  lemma HoldsLegal(log: seq<FindingEvent>, v: Id)
    requires forall k {:trigger HoldsAt(FINDING_RULES, log, k)} :: 0 <= k < |log| ==> HoldsAt(FINDING_RULES, log, k)
    ensures Legal(Of(log, v))
  {
    var es := Of(log, v);
    forall p | 0 <= p < |es| ensures AllowedAt(es, p) {
      var k := OfIndex(log, v, p);
      assert HoldsAt(FINDING_RULES, log, k);
      OfPrefix(log, k, v);
      assert es[..p] == Of(log[..k], v);
    }
  }

  /** In particular if no request was disturbed. */
  lemma UndisturbedIsSequential(steps: seq<Step>)
    requires |Run(steps).readAt| == |Run(steps).db.log|
    requires forall k {:trigger Undisturbed(Run(steps).db.log, Run(steps).readAt, k)} ::
      0 <= k < |Run(steps).db.log| ==> Undisturbed(Run(steps).db.log, Run(steps).readAt, k)
    ensures Inv(Run(steps).db)
  {
    var log, readAt := Run(steps).db.log, Run(steps).readAt;
    forall k | 0 <= k < |log| ensures Harmless(log, readAt, k) {
      assert Undisturbed(log, readAt, k);
    }
    SequentialInvIff(steps);
  }

  /** From every state with a finding that is not closed: two overlapping requests both close it. */
  lemma ClosedTwice(s: Shared, v: Id, r: RequestId, x: RequestId, decision: string, actor: Option<Id>, at: Time)
    returns (after: Shared)
    requires SharedInv(s) && v in s.db.findings && s.db.findings[v].status != Closed && decision in CLOSURE_DECISIONS
    requires r != x && r !in s.open && x !in s.open
    ensures var close := CloseFinding(v, decision, "", actor, at);
      after == Next(Next(Next(Next(s, Load(r, close)), Load(x, close)), Write(r)), Write(x))
    ensures |after.db.log| == |s.db.log| + 2
    ensures forall i :: |s.db.log| <= i < |after.db.log| ==>
      after.db.log[i].id == v && after.db.log[i].body.FindingClosed?
    ensures !EndsAreLast(FINDING_RULES, after.db.log)
  {
    var close := CloseFinding(v, decision, "", actor, at);
    var loaded := Next(Next(s, Load(r, close)), Load(x, close));
    var first := Next(loaded, Write(r));
    after := Next(first, Write(x));
    var i := |s.db.log|;
    assert FINDING_RULES.ends(after.db.log[i].body) && after.db.log[i].id == after.db.log[i + 1].id;
  }
}
