/**
 Control tests and findings (app/control_tests.py, app/finding_lifecycle.py): a finding is opened,
 remediated, retested and closed; its retests are control tests whose lineage is checked partly when
 the test is recorded and partly when the retest is.
 */
module Findings {
  import opened Common
  import opened EventLog
  import opened Replay
  import PolicyLifecycle

  const TEST_RESULTS := {"no_exceptions", "exceptions_noted"}
  const SEVERITIES := {"low", "medium", "high", "critical"}
  const CLOSURE_DECISIONS := {"remediated_and_retested", "risk_accepted", "false_positive", "other"}

  /** A frozen sample: the control of its population, and the ids of its items. */
  datatype Sample = Sample(id: Id, control: Id, items: set<Id>)

  /** A control_tests row; `exceptions` are the sample items of its exceptions. */
  datatype Test = Test(id: Id, control: Id, result: string, sample: Option<Sample>, exceptions: seq<Option<Id>>,
                       retestOf: Option<Id>)

  datatype Status = Open | Remediating | Retesting | Closed

  datatype FindingBody =
    | Opened(title: string, severity: string, control: Option<Id>, source: Option<Id>)
    | UpdateRecorded(note: string)
    | RetestRequested
    | RetestRecorded(test: Id, result: string)
    | FindingClosed(decision: string, closureNote: string)

  type FindingEvent = Event<FindingBody>

  /** A findings row with its remediation updates and retests. */
  datatype Finding = Finding(
    title: string, severity: string, control: Option<Id>, source: Option<Id>, status: Status,
    decision: Option<string>, closureNote: string, createdAt: Time, updatedAt: Time,
    updates: seq<string>, retests: seq<Id>)

  /** FINDING_PROJECTORS. */
  function ProjectFinding(row: Option<Finding>, e: FindingEvent): Option<Finding> {
    if e.body.Opened? then
      Some(Finding(e.body.title, e.body.severity, e.body.control, e.body.source, Open, None, "",
                   e.recordedAt, e.recordedAt, [], []))
    else if row.None? then None
    else
      var f := row.value.(updatedAt := e.recordedAt);
      match e.body
      case UpdateRecorded(note) =>
        Some(f.(updates := f.updates + [note], status := if f.status == Open then Remediating else f.status))
      case RetestRequested => Some(f.(status := Retesting))
      case RetestRecorded(test, result) =>
        Some(f.(retests := f.retests + [test], status := if result == "exceptions_noted" then
            Remediating else Retesting))
      case FindingClosed(decision, note) => Some(f.(status := Closed, decision := Some(decision), closureNote := note))
  }

  /** `tests` in the order of their recording. */
  datatype Db = Db(tests: seq<Test>, log: seq<FindingEvent>, findings: map<Id, Finding>)

  const EMPTY := Db([], [], map[])

  datatype Command =
    | RecordTest(row: Test)
    | OpenFinding(id: Id, body: FindingBody, actor: Option<Id>, at: Time)
    | RecordUpdate(id: Id, note: string, actor: Option<Id>, at: Time)
    | RequestRetest(id: Id, actor: Option<Id>, at: Time)
    | RecordRetest(id: Id, test: Id, actor: Option<Id>, at: Time)
    | CloseFinding(id: Id, decision: string, note: string, actor: Option<Id>, at: Time)

  function FindTest(tests: seq<Test>, id: Id): (r: Option<Test>)
    ensures r.Some? ==> r.value in tests && r.value.id == id
    ensures r.None? ==> forall i :: 0 <= i < |tests| ==> tests[i].id != id
  {
    if tests == [] then None
    else if tests[|tests| - 1].id == id then Some(tests[|tests| - 1])
    else FindTest(tests[..|tests| - 1], id)
  }

  predicate ExceptionsBelong(exceptions: seq<Option<Id>>, sample: Sample) {
    forall i :: 0 <= i < |exceptions| && exceptions[i].Some? ==> exceptions[i].value in sample.items
  }

  /** The checks of record_test. The test it retests is a row that the caller has loaded. */
  function RecordTestError(tests: seq<Test>, t: Test): Option<Error> {
    if t.result !in TEST_RESULTS then Some(ValueError)
    else if t.exceptions != [] && t.result != "exceptions_noted" then Some(ValueError)
    else if t.sample.Some? && t.sample.value.control != t.control then Some(ValueError)
    else if t.sample.Some? && !ExceptionsBelong(t.exceptions, t.sample.value) then Some(ValueError)
    else if t.retestOf.Some? && FindTest(tests, t.retestOf.value).None? then Some(MissingRow)
    else if t.retestOf.Some? && FindTest(tests, t.retestOf.value).value.control != t.control then Some(ValueError)
    else if FindTest(tests, t.id).Some? then Some(IntegrityError)
    else None
  }

  /** The checks of record_retest. */
  function RecordRetestError(f: Finding, t: Test): Option<Error> {
    if f.status != Retesting then Some(ValueError)
    else if f.source.Some? && t.retestOf != f.source then Some(ValueError)
    else if f.source.None? && f.control.Some? && t.control != f.control.value then Some(ValueError)
    else None
  }

  function Append(db: Db, id: Id, body: FindingBody, actor: Option<Id>, at: Time): Db {
    var e := Event(id, NextSequence(db.log, id), body, at, at, actor, None);
    db.(log := db.log + [e], findings := Project(ProjectFinding, db.findings, e))
  }

  function Exec(db: Db, c: Command): Result<Db> {
    if c.RecordTest? then
      var error := RecordTestError(db.tests, c.row);
      if error.Some? then Failure(error.value) else Success(db.(tests := db.tests + [c.row]))
    else if c.OpenFinding? then
      if !c.body.Opened? || c.body.severity !in SEVERITIES || PolicyLifecycle.Blank(c.body.title) then
          Failure(ValueError)
      else if c.id in db.findings || (c.body.source.Some? && FindTest(db.tests, c.body.source.value).None?)
      then Failure(IntegrityError)
      else Success(Append(db, c.id, c.body, c.actor, c.at))
    else if c.id !in db.findings then Failure(MissingRow)
    else
      var f := db.findings[c.id];
      match c
      case RecordUpdate(id, note, actor, at) =>
        if f.status == Closed || PolicyLifecycle.Blank(note) then Failure(ValueError)
        else Success(Append(db, id, UpdateRecorded(note), actor, at))
      case RequestRetest(id, actor, at) =>
        if f.status != Remediating then Failure(ValueError) else Success(Append(db, id, RetestRequested, actor, at))
      case RecordRetest(id, test, actor, at) =>
        var t := FindTest(db.tests, test);
        if t.None? then Failure(MissingRow)
        else
          var error := RecordRetestError(f, t.value);
          if error.Some? then Failure(error.value)
          else Success(Append(db, id, RetestRecorded(test, t.value.result), actor, at))
      case CloseFinding(id, decision, note, actor, at) =>
        if f.status == Closed || decision !in CLOSURE_DECISIONS then Failure(ValueError)
        else Success(Append(db, id, FindingClosed(decision, note), actor, at))
  }

  function Run(cmds: seq<Command>): Db {
    if cmds == [] then EMPTY
    else
      var before := Run(cmds[..|cmds| - 1]);
      var r := Exec(before, cmds[|cmds| - 1]);
      if r.Success? then r.value else before
  }

  /******* Histories *******/

  /** What the commands check of the finding itself before they append. */
  predicate Allows(row: Option<Finding>, b: FindingBody) {
    match b
    case Opened(_, _, _, _) => row.None?
    case UpdateRecorded(_) => row.Some? && row.value.status != Closed
    case RetestRequested => row.Some? && row.value.status == Remediating
    case RetestRecorded(_, _) => row.Some? && row.value.status == Retesting
    case FindingClosed(_, _) => row.Some? && row.value.status != Closed
  }

  ghost predicate AllowedAt(es: seq<FindingEvent>, p: int)
    requires 0 <= p < |es|
  {
    Allows(Fold(ProjectFinding, None, es[..p]), es[p].body)
  }

  ghost predicate Legal(es: seq<FindingEvent>) {
    forall p {:trigger AllowedAt(es, p)} :: 0 <= p < |es| ==> AllowedAt(es, p)
  }

  lemma LegalAppend(es: seq<FindingEvent>, e: FindingEvent)
    requires Legal(es) && Allows(Fold(ProjectFinding, None, es), e.body)
    ensures Legal(es + [e])
  {
    var fs := es + [e];
    forall p | 0 <= p < |fs| ensures AllowedAt(fs, p) {
      if p < |es| {
        assert AllowedAt(es, p);
        assert fs[..p] == es[..p];
      } else {
        assert fs[..p] == es;
      }
    }
  }

  lemma LegalPrefix(es: seq<FindingEvent>, k: nat)
    requires Legal(es) && k <= |es|
    ensures Legal(es[..k])
  {
    forall p | 0 <= p < k ensures AllowedAt(es[..k], p) {
      assert AllowedAt(es, p);
      assert es[..k][..p] == es[..p];
    }
  }

  /** How many events of a history record a remediation update. */
  function Updates(es: seq<FindingEvent>): nat {
    if es == [] then 0 else Updates(es[..|es| - 1]) + if es[|es| - 1].body.UpdateRecorded? then 1 else 0
  }

  /**
   The row after a legal history: closed exactly if its last event closes it; remediating or
   retesting only after a remediation update; and what the opening stated, it still states.
   */
  lemma {:induction false} Story(es: seq<FindingEvent>)
    requires Legal(es) && es != []
    ensures es[0].body.Opened?
    ensures var row := Fold(ProjectFinding, None, es);
      && row.Some?
      && (row.value.status == Closed <==> es[|es| - 1].body.FindingClosed?)
      && (row.value.status == Open ==> Updates(es) == 0)
      && (row.value.status == Remediating || row.value.status == Retesting ==> Updates(es) > 0)
      && |row.value.updates| == Updates(es)
      && row.value.control == es[0].body.control && row.value.source == es[0].body.source
  {
    var n := |es| - 1;
    assert AllowedAt(es, n);
    if n == 0 {
      assert es[..0] == [];
    } else {
      LegalPrefix(es, n);
      Story(es[..n]);
    }
  }

  /** A closing event is the last of its finding, so there is at most one. */
  lemma ClosingIsLast(es: seq<FindingEvent>, p: nat)
    requires Legal(es) && p < |es| && es[p].body.FindingClosed?
    ensures p == |es| - 1
  {
    assert p + 1 < |es| ==> AllowedAt(es, p + 1);
    LegalPrefix(es, p + 1);
    Story(es[..p + 1]);
  }

  /** Retesting needs a request, which needs an earlier update. */
  lemma RetestAfterUpdate(es: seq<FindingEvent>, p: nat) returns (u: nat, r: nat)
    requires Legal(es) && p < |es| && es[p].body.RetestRecorded?
    ensures u < r < p && es[u].body.UpdateRecorded? && es[r].body.RetestRequested?
  {
    assert AllowedAt(es, p);
    LegalPrefix(es, p);
    r := LastRequest(es[..p]);
    assert r == 0 ==> es[..r] == [];
    assert AllowedAt(es, r);
    LegalPrefix(es, r);
    Story(es[..r]);
    u := SomeUpdate(es[..r]);
  }

  lemma {:induction false} LastRequest(es: seq<FindingEvent>) returns (r: nat)
    requires Legal(es) && Fold(ProjectFinding, None, es).Some? &&
        Fold(ProjectFinding, None, es).value.status == Retesting
    ensures r < |es| && es[r].body.RetestRequested?
  {
    var n := |es| - 1;
    assert AllowedAt(es, n);
    if es[n].body.RetestRequested? {
      r := n;
    } else {
      LegalPrefix(es, n);
      r := LastRequest(es[..n]);
    }
  }

  lemma {:induction false} SomeUpdate(es: seq<FindingEvent>) returns (u: nat)
    requires Updates(es) > 0
    ensures u < |es| && es[u].body.UpdateRecorded?
  {
    var n := |es| - 1;
    if es[n].body.UpdateRecorded? {
      u := n;
    } else {
      u := SomeUpdate(es[..n]);
    }
  }

  /******* What every command keeps *******/

  /** A test was recorded under the checks, against the tests recorded before it. */
  ghost predicate TestAt(tests: seq<Test>, i: int)
    requires 0 <= i < |tests|
  {
    RecordTestError(tests[..i], tests[i]).None?
  }

  /** A retest of a finding is an existing test with the lineage that the finding demands. */
  ghost predicate RetestsOk(tests: seq<Test>, f: Finding) {
    && (f.source.Some? ==> FindTest(tests, f.source.value).Some?)
    && forall k {:trigger RetestOk(tests, f, k)} :: 0 <= k < |f.retests| ==> RetestOk(tests, f, k)
  }

  ghost predicate RetestOk(tests: seq<Test>, f: Finding, k: int)
    requires 0 <= k < |f.retests|
  {
    Lineage(tests, f, f.retests[k])
  }

  predicate Lineage(tests: seq<Test>, f: Finding, test: Id) {
    var t := FindTest(tests, test);
    t.Some? && (if f.source.Some? then t.value.retestOf == f.source
                else f.control.Some? ==> t.value.control == f.control.value)
  }

  /** What the tables promise, whatever the histories are. */
  ghost predicate TablesOk(db: Db) {
    && Contiguous(db.log)
    && db.findings == ProjectAll(ProjectFinding, map[], db.log)
    && (forall i {:trigger TestAt(db.tests, i)} :: 0 <= i < |db.tests| ==> TestAt(db.tests, i))
    && (forall v {:trigger db.findings[v]} :: v in db.findings ==> RetestsOk(db.tests, db.findings[v]))
  }

  ghost predicate Inv(db: Db) {
    TablesOk(db) && forall v {:trigger Legal(Of(db.log, v))} :: Legal(Of(db.log, v))
  }

  lemma RowOf(db: Db, v: Id)
    requires TablesOk(db)
    ensures Lookup(db.findings, v) == Fold(ProjectFinding, None, Of(db.log, v))
  {
    RowAfter<Finding, FindingBody>(ProjectFinding, map[], db.log, v);
  }

  lemma AppendKeepsTables(db: Db, id: Id, body: FindingBody, actor: Option<Id>, at: Time)
    requires TablesOk(db)
    requires id in Append(db, id, body, actor, at).findings ==>
             RetestsOk(db.tests, Append(db, id, body, actor, at).findings[id])
    ensures TablesOk(Append(db, id, body, actor, at))
  {
    var after := Append(db, id, body, actor, at);
    var e := after.log[|db.log|];
    ContiguousMax(db.log, id);
    ContiguousAppend(db.log, e);
    assert after.log[..|db.log|] == db.log;
    forall v | v in after.findings ensures RetestsOk(after.tests, after.findings[v]) {
      assert v != id ==> v in db.findings && after.findings[v] == db.findings[v];
    }
  }

  lemma AppendKeepsInv(db: Db, id: Id, body: FindingBody, actor: Option<Id>, at: Time)
    requires Inv(db) && Allows(Lookup(db.findings, id), body)
    requires id in Append(db, id, body, actor, at).findings ==>
             RetestsOk(db.tests, Append(db, id, body, actor, at).findings[id])
    ensures Inv(Append(db, id, body, actor, at))
  {
    var after := Append(db, id, body, actor, at);
    var e := after.log[|db.log|];
    AppendKeepsTables(db, id, body, actor, at);
    forall v ensures Legal(Of(after.log, v)) {
      OfAppend(db.log, e, v);
      assert Legal(Of(db.log, v));
      if v == id {
        RowOf(db, v);
        LegalAppend(Of(db.log, v), e);
      } else {
        assert Of(db.log, v) + [] == Of(db.log, v);
      }
    }
  }

  /** Recording another test does not change what is found under an id in use. */
  lemma MoreTests(tests: seq<Test>, t: Test, f: Finding)
    requires FindTest(tests, t.id).None? && RetestsOk(tests, f)
    ensures RetestsOk(tests + [t], f)
  {
    var more := tests + [t];
    assert more[..|tests|] == tests;
    forall k | 0 <= k < |f.retests| ensures RetestOk(more, f, k) {
      assert RetestOk(tests, f, k);
    }
  }

  lemma RecordTestKeepsTables(db: Db, t: Test)
    requires TablesOk(db) && RecordTestError(db.tests, t).None?
    ensures TablesOk(db.(tests := db.tests + [t]))
  {
    var after := db.(tests := db.tests + [t]);
    forall i | 0 <= i < |after.tests| ensures TestAt(after.tests, i) {
      if i < |db.tests| {
        assert TestAt(db.tests, i);
        assert after.tests[..i] == db.tests[..i];
      } else {
        assert after.tests[..i] == db.tests;
      }
    }
    forall v | v in after.findings ensures RetestsOk(after.tests, after.findings[v]) {
      MoreTests(db.tests, t, db.findings[v]);
    }
  }

  lemma SameRetests(tests: seq<Test>, f: Finding, g: Finding)
    requires RetestsOk(tests, f) && g.source == f.source && g.control == f.control && g.retests == f.retests
    ensures RetestsOk(tests, g)
  {
    forall k | 0 <= k < |g.retests| ensures RetestOk(tests, g, k) {
      assert RetestOk(tests, f, k);
    }
  }

  /** Another retest with the lineage that the finding demands. */
  lemma OneMoreRetest(tests: seq<Test>, f: Finding, g: Finding, test: Id)
    requires RetestsOk(tests, f) && g.source == f.source && g.control == f.control && g.retests == f.retests + [test]
    requires Lineage(tests, f, test)
    ensures RetestsOk(tests, g)
  {
    forall k | 0 <= k < |g.retests| ensures RetestOk(tests, g, k) {
      assert k < |f.retests| ==> RetestOk(tests, f, k);
    }
  }

  lemma RetestKeepsInv(db: Db, id: Id, test: Id, actor: Option<Id>, at: Time)
    requires Inv(db) && id in db.findings && FindTest(db.tests, test).Some?
    requires RecordRetestError(db.findings[id], FindTest(db.tests, test).value).None?
    ensures Inv(Append(db, id, RetestRecorded(test, FindTest(db.tests, test).value.result), actor, at))
  {
    var body := RetestRecorded(test, FindTest(db.tests, test).value.result);
    OneMoreRetest(db.tests, db.findings[id], Append(db, id, body, actor, at).findings[id], test);
    AppendKeepsInv(db, id, body, actor, at);
  }

  lemma ExecKeepsInv(db: Db, c: Command)
    requires Inv(db) && Exec(db, c).Success?
    ensures Inv(Exec(db, c).value)
  {
    if !c.RecordTest? && !c.OpenFinding? {
      assert RetestsOk(db.tests, db.findings[c.id]);
    }
    match c {
      case RecordTest(t) => RecordTestKeepsTables(db, t);
      case OpenFinding(id, body, actor, at) => AppendKeepsInv(db, id, body, actor, at);
      case RecordUpdate(id, note, actor, at) =>
        SameRetests(db.tests, db.findings[id], Append(db, id, UpdateRecorded(note), actor, at).findings[id]);
        AppendKeepsInv(db, id, UpdateRecorded(note), actor, at);
      case RequestRetest(id, actor, at) =>
        SameRetests(db.tests, db.findings[id], Append(db, id, RetestRequested, actor, at).findings[id]);
        AppendKeepsInv(db, id, RetestRequested, actor, at);
      case RecordRetest(id, test, actor, at) => RetestKeepsInv(db, id, test, actor, at);
      case CloseFinding(id, decision, note, actor, at) =>
        SameRetests(db.tests, db.findings[id], Append(db, id, FindingClosed(decision, note), actor, at).findings[id]);
        AppendKeepsInv(db, id, FindingClosed(decision, note), actor, at);
    }
  }

  lemma {:induction false} RunInv(cmds: seq<Command>)
    ensures Inv(Run(cmds))
  {
    if cmds != [] {
      var before := Run(cmds[..|cmds| - 1]);
      RunInv(cmds[..|cmds| - 1]);
      if Exec(before, cmds[|cmds| - 1]).Success? {
        ExecKeepsInv(before, cmds[|cmds| - 1]);
      }
    }
  }

  /******* Guarantees of every run *******/

  /** In every run, a finding's closing event is its last event, and the row says closed exactly then. */
  lemma RunClosesOnce(cmds: seq<Command>, v: Id, p: nat)
    requires p < |Of(Run(cmds).log, v)|
    ensures Of(Run(cmds).log, v)[p].body.FindingClosed? ==> p == |Of(Run(cmds).log, v)| - 1
    ensures v in Run(cmds).findings
    ensures Run(cmds).findings[v].status == Closed <==>
            Of(Run(cmds).log, v)[|Of(Run(cmds).log, v)| - 1].body.FindingClosed?
  {
    RunInv(cmds);
    var es := Of(Run(cmds).log, v);
    assert Legal(es);
    Story(es);
    RowOf(Run(cmds), v);
    if es[p].body.FindingClosed? {
      ClosingIsLast(es, p);
    }
  }

  /** In every run, a finding that is being remediated or retested has an update on record. */
  lemma RunUpdatesFirst(cmds: seq<Command>, v: Id)
    requires v in Run(cmds).findings
    requires Run(cmds).findings[v].status == Remediating || Run(cmds).findings[v].status == Retesting
    ensures Updates(Of(Run(cmds).log, v)) > 0
    ensures |Run(cmds).findings[v].updates| == Updates(Of(Run(cmds).log, v))
  {
    RunInv(cmds);
    RowOf(Run(cmds), v);
    assert Legal(Of(Run(cmds).log, v));
    Story(Of(Run(cmds).log, v));
  }

  /** Where a test stands in the order of recording, and how it was recorded. */
  lemma {:induction false} TestIndex(tests: seq<Test>, id: Id) returns (i: nat)
    requires FindTest(tests, id).Some?
    ensures i < |tests| && tests[i] == FindTest(tests, id).value
  {
    var n := |tests| - 1;
    if tests[n].id == id {
      i := n;
    } else {
      i := TestIndex(tests[..n], id);
    }
  }

  lemma {:induction false} FoundAlike(tests: seq<Test>, k: nat, id: Id)
    requires forall i {:trigger TestAt(tests, i)} :: 0 <= i < |tests| ==> TestAt(tests, i)
    requires k <= |tests| && FindTest(tests[..k], id).Some?
    ensures FindTest(tests, id) == FindTest(tests[..k], id)
    decreases |tests|
  {
    if k == |tests| {
      assert tests[..k] == tests;
    } else {
      var n := |tests| - 1;
      var front := tests[..n];
      assert front[..k] == tests[..k];
      forall i | 0 <= i < n ensures TestAt(front, i) {
        assert TestAt(tests, i);
        assert front[..i] == tests[..i];
      }
      FoundAlike(front, k, id);
      assert TestAt(tests, n);
    }
  }

  /** What record_test leaves behind: the retested test was recorded earlier, for the same control. */
  lemma RetestedEarlier(tests: seq<Test>, i: nat) returns (j: nat)
    requires forall k {:trigger TestAt(tests, k)} :: 0 <= k < |tests| ==> TestAt(tests, k)
    requires i < |tests| && tests[i].retestOf.Some?
    ensures j < i && tests[j].id == tests[i].retestOf.value && tests[j].control == tests[i].control
    ensures FindTest(tests, tests[i].retestOf.value) == Some(tests[j])
  {
    assert TestAt(tests, i);
    j := TestIndex(tests[..i], tests[i].retestOf.value);
    FoundAlike(tests, i, tests[i].retestOf.value);
  }

  /**
   In every run, a retest of a finding that came from a test is a test of that test's control: one
   function checks the lineage, another the control.
   */
  lemma RetestHasSourcesControl(cmds: seq<Command>, v: Id, k: nat)
    requires v in Run(cmds).findings && k < |Run(cmds).findings[v].retests|
    ensures var db, f := Run(cmds), Run(cmds).findings[v];
      && FindTest(db.tests, f.retests[k]).Some?
      && (f.source.Some? ==>
            && FindTest(db.tests, f.source.value).Some?
            && FindTest(db.tests, f.retests[k]).value.control == FindTest(db.tests, f.source.value).value.control)
      && (f.source.None? && f.control.Some? ==> FindTest(db.tests, f.retests[k]).value.control == f.control.value)
  {
    var db, f := Run(cmds), Run(cmds).findings[v];
    RunInv(cmds);
    assert RetestsOk(db.tests, f);
    assert RetestOk(db.tests, f, k);
    if f.source.Some? {
      var i := TestIndex(db.tests, f.retests[k]);
      var j := RetestedEarlier(db.tests, i);
    }
  }

  /**
   open_finding does not compare the finding's control with its source test's. A retest is then of
   the finding's own control exactly if that test was.
   */
  lemma RetestHasFindingsControlIff(cmds: seq<Command>, v: Id, k: nat)
    requires v in Run(cmds).findings && k < |Run(cmds).findings[v].retests|
    requires Run(cmds).findings[v].control.Some?
    ensures var db, f := Run(cmds), Run(cmds).findings[v];
      && FindTest(db.tests, f.retests[k]).Some?
      && (FindTest(db.tests, f.retests[k]).value.control == f.control.value <==>
          (f.source.Some? ==> FindTest(db.tests, f.source.value).Some? &&
                              FindTest(db.tests, f.source.value).value.control == f.control.value))
  {
    RetestHasSourcesControl(cmds, v, k);
  }

  lemma RunOne(cmds: seq<Command>, c: Command)
    ensures Run(cmds + [c]) == if Exec(Run(cmds), c).Success? then Exec(Run(cmds), c).value else Run(cmds)
  {
    assert (cmds + [c])[..|cmds|] == cmds;
  }

  /** A finding is opened for one control from a test of another, and gets as far as its retest. */
  lemma MismatchedRetesting(a: Id, b: Id) returns (cmds: seq<Command>)
    ensures var db := Run(cmds);
      && db.tests == [Test(1, a, "no_exceptions", None, [], None)]
      && 0 in db.findings && db.findings[0].status == Retesting && db.findings[0].retests == []
      && db.findings[0].control == Some(b) && db.findings[0].source == Some(1)
  {
    var test := Test(1, a, "no_exceptions", None, [], None);
    cmds := [];
    RunOne(cmds, RecordTest(test));
    cmds := cmds + [RecordTest(test)];
    assert Run(cmds) == Db([test], [], map[]);
    var opening := Opened("t", "low", Some(b), Some(1));
    assert !PolicyLifecycle.Blank("t") by {
      assert 't' in "t" && !IsSpace('t');
    }
    RunOne(cmds, OpenFinding(0, opening, None, 0));
    cmds := cmds + [OpenFinding(0, opening, None, 0)];
    RunOne(cmds, RecordUpdate(0, "t", None, 0));
    cmds := cmds + [RecordUpdate(0, "t", None, 0)];
    RunOne(cmds, RequestRetest(0, None, 0));
    cmds := cmds + [RequestRetest(0, None, 0)];
  }

  /** Then its retest, a test of the source test's control, is not one of the finding's own control. */
  lemma MismatchedRetest(a: Id, b: Id) returns (cmds: seq<Command>)
    requires a != b
    ensures var db := Run(cmds);
      && 0 in db.findings && db.findings[0].control == Some(b) && db.findings[0].retests == [2]
      && FindTest(db.tests, 2).Some? && FindTest(db.tests, 2).value.control == a
  {
    var front := MismatchedRetesting(a, b);
    var retest := Test(2, a, "no_exceptions", None, [], Some(1));
    RunOne(front, RecordTest(retest));
    var recorded := front + [RecordTest(retest)];
    assert Run(recorded).tests[..1] == Run(front).tests;
    RunOne(recorded, RecordRetest(0, 2, None, 0));
    cmds := recorded + [RecordRetest(0, 2, None, 0)];
  }

  lemma UniqueTestIds(tests: seq<Test>, i: nat, j: nat)
    requires forall k {:trigger TestAt(tests, k)} :: 0 <= k < |tests| ==> TestAt(tests, k)
    requires i < |tests| && j < |tests| && tests[i].id == tests[j].id
    ensures i == j
  {
    if i < j {
      NewTestId(tests, i, j);
    } else if j < i {
      NewTestId(tests, j, i);
    }
  }

  lemma NewTestId(tests: seq<Test>, i: nat, j: nat)
    requires i < j < |tests| && TestAt(tests, j)
    ensures tests[i].id != tests[j].id
  {
    assert tests[..j][i] == tests[i];
  }

  /** The test at position `a` is recorded as a retest of the one at position `b`. */
  predicate Retests(tests: seq<Test>, a: nat, b: nat) {
    a < |tests| && b < |tests| && tests[a].retestOf == Some(tests[b].id)
  }

  lemma RetestGoesBack(tests: seq<Test>, a: nat, b: nat)
    requires forall k {:trigger TestAt(tests, k)} :: 0 <= k < |tests| ==> TestAt(tests, k)
    requires Retests(tests, a, b)
    ensures b < a
  {
    var j := RetestedEarlier(tests, a);
    UniqueTestIds(tests, j, b);
  }

  /** retest_of links never form a cycle: along a chain the tests were recorded earlier and earlier. */
  lemma {:induction false} RetestsAreAcyclic(cmds: seq<Command>, path: seq<nat>, i: nat, j: nat)
    requires forall k :: 0 <= k < |path| - 1 ==> Retests(Run(cmds).tests, path[k], path[k + 1])
    requires i < j < |path|
    ensures path[j] < path[i]
    decreases j
  {
    RunInv(cmds);
    assert Retests(Run(cmds).tests, path[j - 1], path[j - 1 + 1]);
    RetestGoesBack(Run(cmds).tests, path[j - 1], path[j]);
    if i < j - 1 {
      RetestsAreAcyclic(cmds, path, i, j - 1);
    }
  }

  /** The findings are rebuilt from their events, if recorded times do not fall along any of them. */
  lemma RebuildRestoresFindings(cmds: seq<Command>, es: seq<FindingEvent>)
    requires RecordedInOrder(Run(cmds).log) && Selected(RebuildOrder<FindingBody>, Run(cmds).log, es)
    ensures ProjectAll(ProjectFinding, map[], es) == Run(cmds).findings
  {
    RunInv(cmds);
    RebuildEqualsLive<Finding, FindingBody>(ProjectFinding, map[], Run(cmds).log, es);
  }

  /******* The session *******/

  class FindingSession {
    var db: Db

    constructor ()
      ensures db == EMPTY
    {
      db := EMPTY;
    }

    /** The loop of record_test over the exceptions. */
    method CheckExceptions(exceptions: seq<Option<Id>>, sample: Sample) returns (ok: bool)
      ensures ok == ExceptionsBelong(exceptions, sample)
    {
      for i := 0 to |exceptions|
        invariant ExceptionsBelong(exceptions[..i], sample)
      {
        if exceptions[i].Some? && exceptions[i].value !in sample.items {
          return false;
        }
      }
      ok := true;
    }

    method RecordTestRow(t: Test) returns (error: Option<Error>)
      requires Inv(db)
      modifies this
      ensures Inv(db)
      ensures error.None? ==> Exec(old(db), RecordTest(t)) == Success(db) && db.tests == old(db.tests) + [t]
      ensures error.Some? ==> Exec(old(db), RecordTest(t)) == Failure(error.value) && db == old(db)
    {
      if t.result !in TEST_RESULTS || (t.exceptions != [] && t.result != "exceptions_noted") {
        return Some(ValueError);
      }
      if t.sample.Some? {
        var ok := CheckExceptions(t.exceptions, t.sample.value);
        if t.sample.value.control != t.control || !ok {
          return Some(ValueError);
        }
      }
      if t.retestOf.Some? {
        var previous := FindTest(db.tests, t.retestOf.value);
        if previous.None? {
          return Some(MissingRow);
        }
        if previous.value.control != t.control {
          return Some(ValueError);
        }
      }
      if FindTest(db.tests, t.id).Some? {
        return Some(IntegrityError);
      }
      RecordTestKeepsTables(db, t);
      db := db.(tests := db.tests + [t]);
      error := None;
    }

    method RecordRetestOf(id: Id, test: Id, actor: Option<Id>, at: Time) returns (error: Option<Error>)
      requires Inv(db)
      modifies this
      ensures Inv(db)
      ensures error.None? ==> Exec(old(db), RecordRetest(id, test, actor, at)) == Success(db)
      ensures error.Some? ==> Exec(old(db), RecordRetest(id, test, actor, at)) == Failure(error.value) && db == old(db)
    {
      var t := FindTest(db.tests, test);
      if id !in db.findings || t.None? {
        return Some(MissingRow);
      }
      var f := db.findings[id];
      if f.status != Retesting || (f.source.Some? && t.value.retestOf != f.source) {
        return Some(ValueError);
      }
      if f.source.None? && f.control.Some? && t.value.control != f.control.value {
        return Some(ValueError);
      }
      RetestKeepsInv(db, id, test, actor, at);
      db := Append(db, id, RetestRecorded(test, t.value.result), actor, at);
      error := None;
    }

    method Open(id: Id, title: string, severity: string, control: Option<Id>, source: Option<Id>,
                actor: Option<Id>, at: Time)
      returns (error: Option<Error>)
      requires Inv(db)
      modifies this
      ensures Inv(db)
      ensures error.None? ==>
        Exec(old(db), OpenFinding(id, Opened(title, severity, control, source), actor, at)) == Success(db)
      ensures error.Some? ==>
        && Exec(old(db), OpenFinding(id, Opened(title, severity, control, source), actor, at)) == Failure(error.value)
        && db == old(db)
    {
      if severity !in SEVERITIES || PolicyLifecycle.Blank(title) {
        return Some(ValueError);
      }
      if id in db.findings || (source.Some? && FindTest(db.tests, source.value).None?) {
        return Some(IntegrityError);
      }
      ExecKeepsInv(db, OpenFinding(id, Opened(title, severity, control, source), actor, at));
      db := Append(db, id, Opened(title, severity, control, source), actor, at);
      error := None;
    }

    method Update(id: Id, note: string, actor: Option<Id>, at: Time) returns (error: Option<Error>)
      requires Inv(db)
      modifies this
      ensures Inv(db)
      ensures error.None? ==> Exec(old(db), RecordUpdate(id, note, actor, at)) == Success(db)
      ensures error.Some? ==> Exec(old(db), RecordUpdate(id, note, actor, at)) == Failure(error.value) && db == old(db)
    {
      if id !in db.findings {
        return Some(MissingRow);
      }
      if db.findings[id].status == Closed || PolicyLifecycle.Blank(note) {
        return Some(ValueError);
      }
      ExecKeepsInv(db, RecordUpdate(id, note, actor, at));
      db := Append(db, id, UpdateRecorded(note), actor, at);
      error := None;
    }

    method AskForRetest(id: Id, actor: Option<Id>, at: Time) returns (error: Option<Error>)
      requires Inv(db)
      modifies this
      ensures Inv(db)
      ensures error.None? ==> Exec(old(db), RequestRetest(id, actor, at)) == Success(db)
      ensures error.Some? ==> Exec(old(db), RequestRetest(id, actor, at)) == Failure(error.value) && db == old(db)
    {
      if id !in db.findings {
        return Some(MissingRow);
      }
      if db.findings[id].status != Remediating {
        return Some(ValueError);
      }
      ExecKeepsInv(db, RequestRetest(id, actor, at));
      db := Append(db, id, RetestRequested, actor, at);
      error := None;
    }

    method Close(id: Id, decision: string, note: string, actor: Option<Id>, at: Time) returns (error: Option<Error>)
      requires Inv(db)
      modifies this
      ensures Inv(db)
      ensures error.None? ==> Exec(old(db), CloseFinding(id, decision, note, actor, at)) == Success(db)
      ensures error.Some? ==>
        Exec(old(db), CloseFinding(id, decision, note, actor, at)) == Failure(error.value) && db == old(db)
    {
      if id !in db.findings {
        return Some(MissingRow);
      }
      if db.findings[id].status == Closed || decision !in CLOSURE_DECISIONS {
        return Some(ValueError);
      }
      ExecKeepsInv(db, CloseFinding(id, decision, note, actor, at));
      db := Append(db, id, FindingClosed(decision, note), actor, at);
      error := None;
    }
  }
}
