/**
 What findings and control tests hold (app/finding_lifecycle.py, app/control_tests.py): the whole row of a
 finding from its events, what the events and tests of every run state, and which commands are accepted.
 */
module FindingRecords {
  import opened Common
  import opened EventLog
  import opened Replay
  import opened Findings
  import PolicyLifecycle
  import Overlap
  import Requests = FindingRequests

  /******* The row of a finding *******/

  /** The notes of the remediation updates, in order. */
  function Notes(es: seq<FindingEvent>): seq<string> {
    if es == [] then []
    else
      var body := es[|es| - 1].body;
      Notes(es[..|es| - 1]) + if body.UpdateRecorded? then [body.note] else []
  }

  /** The tests of the recorded retests, in order. */
  function Retested(es: seq<FindingEvent>): seq<Id> {
    if es == [] then []
    else
      var body := es[|es| - 1].body;
      Retested(es[..|es| - 1]) + if body.RetestRecorded? then [body.test] else []
  }

  /** A finding is opened by its first event, and by no other. */
  ghost predicate OpenedFirst(es: seq<FindingEvent>) {
    es != [] ==> es[0].body.Opened? && forall i :: 0 < i < |es| ==> !es[i].body.Opened?
  }

  /** The event at `m` is the last one that is not a remediation update. */
  ghost predicate LastMove(es: seq<FindingEvent>, m: nat) {
    m < |es| && !es[m].body.UpdateRecorded? && forall i :: m < i < |es| ==> es[i].body.UpdateRecorded?
  }

  ghost predicate LastClosing(es: seq<FindingEvent>, c: nat) {
    c < |es| && es[c].body.FindingClosed? && forall i :: c < i < |es| ==> !es[i].body.FindingClosed?
  }

  /**
   The status that the event at `m` left: after an opening, open until the first update; after a request,
   retesting; after a retest, as its result says; after a closing, closed.
   */
  ghost predicate StatusLeft(status: Status, es: seq<FindingEvent>, m: nat)
    requires m < |es|
  {
    var body := es[m].body;
    && (body.Opened? ==> status == if m == |es| - 1 then Open else Remediating)
    && (body.RetestRequested? ==> status == Retesting)
    && (body.RetestRecorded? ==> status == if body.result == "exceptions_noted" then Remediating else Retesting)
    && (body.FindingClosed? ==> status == Closed)
  }

  /** What the opening states, the notes and the retests in order, and the times of the first and last event. */
  ghost predicate TellsFacts(f: Finding, es: seq<FindingEvent>)
    requires es != [] && es[0].body.Opened?
  {
    && f.title == es[0].body.title && f.severity == es[0].body.severity
    && f.control == es[0].body.control && f.source == es[0].body.source
    && f.createdAt == es[0].recordedAt && f.updatedAt == es[|es| - 1].recordedAt
    && f.updates == Notes(es) && f.retests == Retested(es)
  }

  ghost predicate TellsStatus(f: Finding, es: seq<FindingEvent>) {
    exists m: nat {:trigger LastMove(es, m)} :: LastMove(es, m) && StatusLeft(f.status, es, m)
  }

  /** Decision and note of the last closing event, if there is one. */
  ghost predicate TellsClosure(f: Finding, es: seq<FindingEvent>) {
    && (forall c: nat {:trigger LastClosing(es, c)} :: LastClosing(es, c) ==>
          f.decision == Some(es[c].body.decision) && f.closureNote == es[c].body.closureNote)
    && ((forall i :: 0 <= i < |es| ==> !es[i].body.FindingClosed?) ==> f.decision == None && f.closureNote == "")
  }

  /** The row says what its events say, in every column. */
  ghost predicate Tells(f: Finding, es: seq<FindingEvent>) {
    es != [] && es[0].body.Opened? && TellsFacts(f, es) && TellsStatus(f, es) && TellsClosure(f, es)
  }

  lemma FirstRow(e: FindingEvent)
    requires e.body.Opened?
    ensures Fold(ProjectFinding, None, [e]).Some? && Tells(Fold(ProjectFinding, None, [e]).value, [e])
  {
    assert [e][..0] == [];
    assert Fold(ProjectFinding, None, [e]) == ProjectFinding(None, e);
    assert LastMove([e], 0);
  }

  /** The row after a history that opens it once is what the events say, also if it was written while closed. */
  lemma {:induction false} RowFromEvents(es: seq<FindingEvent>)
    requires es != [] && OpenedFirst(es)
    ensures var row := Fold(ProjectFinding, None, es); row.Some? && Tells(row.value, es)
  {
    var n := |es| - 1;
    if n == 0 {
      FirstRow(es[0]);
      assert es == [es[0]];
    } else {
      var front := es[..n];
      assert OpenedFirst(front);
      RowFromEvents(front);
      var f := Fold(ProjectFinding, None, front).value;
      KeptFacts(front, es[n], f);
      MovedStatus(front, es[n], f);
      ClosedAs(front, es[n], f);
      assert es == front + [es[n]];
    }
  }

  /** The row after one more event. */
  function Then(f: Finding, e: FindingEvent): Finding
    requires !e.body.Opened?
  {
    ProjectFinding(Some(f), e).value
  }

  lemma KeptFacts(es: seq<FindingEvent>, e: FindingEvent, f: Finding)
    requires es != [] && es[0].body.Opened? && !e.body.Opened? && TellsFacts(f, es)
    ensures TellsFacts(Then(f, e), es + [e])
  {
    assert (es + [e])[..|es|] == es;
    assert Notes(es) + [] == Notes(es) && Retested(es) + [] == Retested(es);
  }

  lemma MovedStatus(es: seq<FindingEvent>, e: FindingEvent, f: Finding)
    requires es != [] && !e.body.Opened? && TellsStatus(f, es)
    ensures TellsStatus(Then(f, e), es + [e])
  {
    var fs, g := es + [e], Then(f, e);
    if e.body.UpdateRecorded? {
      var m: nat :| LastMove(es, m) && StatusLeft(f.status, es, m);
      assert LastMove(fs, m) && StatusLeft(g.status, fs, m);
    } else {
      assert LastMove(fs, |es|) && StatusLeft(g.status, fs, |es|);
    }
  }

  lemma ClosedAs(es: seq<FindingEvent>, e: FindingEvent, f: Finding)
    requires es != [] && !e.body.Opened? && TellsClosure(f, es)
    ensures TellsClosure(Then(f, e), es + [e])
  {
    var fs, g := es + [e], Then(f, e);
    forall c: nat | LastClosing(fs, c)
      ensures g.decision == Some(fs[c].body.decision) && g.closureNote == fs[c].body.closureNote
    {
      if c < |es| {
        assert forall i :: 0 <= i < |es| ==> es[i] == fs[i];
        assert LastClosing(es, c);
        assert !fs[|es|].body.FindingClosed?;
      }
    }
    if forall i :: 0 <= i < |fs| ==> !fs[i].body.FindingClosed? {
      assert forall i :: 0 <= i < |es| ==> fs[i] == es[i];
      assert !fs[|es|].body.FindingClosed?;
    }
  }

  lemma {:induction false} LegalOpenedFirst(es: seq<FindingEvent>)
    requires Legal(es)
    ensures OpenedFirst(es)
  {
    if es != [] {
      var n := |es| - 1;
      LegalPrefix(es, n);
      LegalOpenedFirst(es[..n]);
      assert AllowedAt(es, n);
      if n > 0 {
        RowFromEvents(es[..n]);
        assert forall i :: 0 <= i < n ==> es[..n][i] == es[i];
      } else {
        assert es[..0] == [];
      }
    }
  }

  /** One command at a time: in every run, there is a row exactly for each finding with events, and it tells them. */
  lemma RunRows(cmds: seq<Command>, v: Id)
    ensures var db := Run(cmds);
      && (v in db.findings <==> Of(db.log, v) != [])
      && (v in db.findings ==> Tells(db.findings[v], Of(db.log, v)))
  {
    RunInv(cmds);
    var es := Of(Run(cmds).log, v);
    assert Legal(es);
    LegalOpenedFirst(es);
    RowOf(Run(cmds), v);
    if es != [] {
      RowFromEvents(es);
    }
  }

  /******* Overlapping requests *******/

  lemma {:induction false} OverlappedOpenedFirst(log: seq<FindingEvent>, readAt: seq<nat>, k: nat, v: Id)
    requires Overlap.Guarded(Requests.FINDING_RULES, log, readAt) && Requests.OpenedAtOnce(log, readAt) && k <= |log|
    ensures OpenedFirst(Of(log[..k], v))
    decreases k
  {
    if k > 0 {
      var n := k - 1;
      var es := Of(log[..n], v);
      OverlappedOpenedFirst(log, readAt, n, v);
      assert log[..k] == log[..n] + [log[n]];
      OfAppend(log[..n], log[n], v);
      if log[n].id == v {
        assert Overlap.GuardedAt(Requests.FINDING_RULES, log, readAt, n);
        if es != [] {
          RowFromEvents(es);
        } else {
          assert log[..n][..readAt[n]] == log[..readAt[n]];
          OfPrefix(log[..n], readAt[n], v);
        }
      } else {
        assert es + [] == es;
      }
    }
  }

  /** However requests overlap: a finding's row tells its events, in every column. */
  lemma OverlappedRows(steps: seq<Requests.Step>, v: Id)
    ensures var db := Requests.Run(steps).db;
      && (v in db.findings <==> Of(db.log, v) != [])
      && (v in db.findings ==> Tells(db.findings[v], Of(db.log, v)))
  {
    Requests.RunKeepsInv(steps);
    var s := Requests.Run(steps);
    OverlappedOpenedFirst(s.db.log, s.readAt, |s.db.log|, v);
    assert s.db.log[..|s.db.log|] == s.db.log;
    RowOf(s.db, v);
    if Of(s.db.log, v) != [] {
      RowFromEvents(Of(s.db.log, v));
    }
  }

  /******* What events and tests state *******/

  ghost predicate HasTest(tests: seq<Test>, id: Id) {
    exists k :: 0 <= k < |tests| && tests[k].id == id
  }

  /** The content that the commands insist on. */
  ghost predicate Sound(tests: seq<Test>, b: FindingBody) {
    match b
    case Opened(title, severity, _, source) =>
      && HasText(title) && severity in ["low", "medium", "high", "critical"]
      && (source.Some? ==> HasTest(tests, source.value))
    case UpdateRecorded(note) => HasText(note)
    case RetestRequested => true
    case RetestRecorded(test, result) =>
      exists k :: 0 <= k < |tests| && tests[k].id == test && tests[k].result == result
    case FindingClosed(decision, _) =>
      decision in ["remediated_and_retested", "risk_accepted", "false_positive", "other"]
  }

  lemma FoundIff(tests: seq<Test>, id: Id)
    ensures FindTest(tests, id).Some? <==> HasTest(tests, id)
  {
    var r := FindTest(tests, id);
    if r.Some? {
      var k :| 0 <= k < |tests| && tests[k] == r.value;
    }
  }

  lemma SoundGrows(tests: seq<Test>, more: seq<Test>, b: FindingBody)
    requires tests <= more && Sound(tests, b)
    ensures Sound(more, b)
  {
    if b.RetestRecorded? {
      var k :| 0 <= k < |tests| && tests[k].id == b.test && tests[k].result == b.result;
      assert more[k] == tests[k];
    } else if b.Opened? && b.source.Some? {
      var k :| 0 <= k < |tests| && tests[k].id == b.source.value;
      assert more[k] == tests[k];
    }
  }

  ghost predicate AllSound(tests: seq<Test>, log: seq<FindingEvent>) {
    forall k {:trigger log[k]} :: 0 <= k < |log| ==> Sound(tests, log[k].body)
  }

  /** What a command that is accepted records, and nothing else of the tables. */
  ghost function BodyFor(db: Db, c: Command): FindingBody
    requires !c.RecordTest? && Exec(db, c).Success?
  {
    match c
    case OpenFinding(_, body, _, _) => body
    case RecordUpdate(_, note, _, _) => UpdateRecorded(note)
    case RequestRetest(_, _, _) => RetestRequested
    case RecordRetest(_, test, _, _) => RetestRecorded(test, FindTest(db.tests, test).value.result)
    case CloseFinding(_, decision, note, _, _) => FindingClosed(decision, note)
  }

  lemma AcceptedIsSound(db: Db, c: Command)
    requires !c.RecordTest? && Exec(db, c).Success?
    ensures Sound(db.tests, BodyFor(db, c))
    ensures Exec(db, c).value == Append(db, c.id, BodyFor(db, c), c.actor, c.at)
  {
    match c {
      case OpenFinding(_, body, _, _) =>
        PolicyLifecycle.BlankIff(body.title);
        if body.source.Some? {
          FoundIff(db.tests, body.source.value);
        }
      case RecordUpdate(_, note, _, _) => PolicyLifecycle.BlankIff(note);
      case RequestRetest(_, _, _) =>
      case RecordRetest(_, test, _, _) =>
        var k := TestIndex(db.tests, test);
        assert db.tests[k].id == test;
      case CloseFinding(_, _, _, _, _) =>
    }
  }

  lemma AppendSound(tests: seq<Test>, log: seq<FindingEvent>, e: FindingEvent)
    requires AllSound(tests, log) && Sound(tests, e.body)
    ensures AllSound(tests, log + [e])
  {
  }

  lemma RecordedSound(tests: seq<Test>, log: seq<FindingEvent>, t: Test)
    requires AllSound(tests, log)
    ensures AllSound(tests + [t], log)
  {
    forall k | 0 <= k < |log| ensures Sound(tests + [t], log[k].body) {
      SoundGrows(tests, tests + [t], log[k].body);
    }
  }

  ghost predicate RequestsSound(s: Requests.Shared) {
    forall r :: r in s.open ==> Sound(s.db.tests, s.open[r].body)
  }

  lemma StepSound(s: Requests.Shared, step: Requests.Step)
    requires AllSound(s.db.tests, s.db.log) && RequestsSound(s)
    ensures var t := Requests.Next(s, step); AllSound(t.db.tests, t.db.log) && RequestsSound(t)
  {
    var t := Requests.Next(s, step);
    match step {
      case Create(cmd) =>
        if cmd.RecordTest? {
          if Exec(s.db, cmd).Success? {
            RecordedSound(s.db.tests, s.db.log, cmd.row);
            forall r | r in t.open ensures Sound(t.db.tests, t.open[r].body) {
              SoundGrows(s.db.tests, t.db.tests, t.open[r].body);
            }
          }
        } else if cmd.OpenFinding? && Exec(s.db, cmd).Success? {
          AcceptedIsSound(s.db, cmd);
          AppendSound(s.db.tests, s.db.log, t.db.log[|s.db.log|]);
        }
      case Load(r, cmd) =>
        if !Requests.Creating(cmd) && Exec(s.db, cmd).Success? {
          AcceptedIsSound(s.db, cmd);
        }
      case Write(r) =>
        if r in s.open {
          AppendSound(s.db.tests, s.db.log, t.db.log[|s.db.log|]);
        }
      case Drop(r) =>
    }
  }

  /**
   However requests overlap, every event states what its command insists on: a title or note with text, a
   severity and a closing decision of the lists, a source test and a retest that were recorded.
   */
  lemma {:induction false} OverlappedSound(steps: seq<Requests.Step>)
    ensures AllSound(Requests.Run(steps).db.tests, Requests.Run(steps).db.log) && RequestsSound(Requests.Run(steps))
  {
    if steps != [] {
      OverlappedSound(steps[..|steps| - 1]);
      StepSound(Requests.Run(steps[..|steps| - 1]), steps[|steps| - 1]);
    }
  }

  /** One command at a time: every event states what its command insists on. */
  lemma {:induction false} RunSound(cmds: seq<Command>)
    ensures AllSound(Run(cmds).tests, Run(cmds).log)
  {
    if cmds != [] {
      var n := |cmds| - 1;
      var before, c := Run(cmds[..n]), cmds[n];
      RunSound(cmds[..n]);
      if Exec(before, c).Success? {
        if c.RecordTest? {
          RecordedSound(before.tests, before.log, c.row);
        } else {
          AcceptedIsSound(before, c);
          AppendSound(before.tests, before.log, Run(cmds).log[|before.log|]);
        }
      }
    }
  }

  /******* Which commands are accepted *******/

  /** An earlier test with that id is one of that control. */
  ghost predicate EarlierTestOf(tests: seq<Test>, id: Id, control: Id) {
    exists k :: 0 <= k < |tests| && tests[k].id == id && tests[k].control == control
  }

  /** The conditions under which a test can be recorded, after the tests on record. */
  ghost predicate Recordable(tests: seq<Test>, t: Test) {
    && (t.result == "no_exceptions" || t.result == "exceptions_noted")
    && (t.exceptions != [] ==> t.result == "exceptions_noted")
    && (t.sample.Some? ==> t.sample.value.control == t.control)
    && (t.sample.Some? ==> forall i :: 0 <= i < |t.exceptions| && t.exceptions[i].Some? ==>
          t.exceptions[i].value in t.sample.value.items)
    && (t.retestOf.Some? ==> EarlierTestOf(tests, t.retestOf.value, t.control))
    && !HasTest(tests, t.id)
  }

  ghost predicate AllTestsAt(tests: seq<Test>) {
    forall k {:trigger TestAt(tests, k)} :: 0 <= k < |tests| ==> TestAt(tests, k)
  }

  lemma EarlierIff(tests: seq<Test>, id: Id, control: Id)
    requires AllTestsAt(tests)
    ensures EarlierTestOf(tests, id, control) <==>
      FindTest(tests, id).Some? && FindTest(tests, id).value.control == control
  {
    if FindTest(tests, id).Some? {
      var j := TestIndex(tests, id);
      if k :| 0 <= k < |tests| && tests[k].id == id && tests[k].control == control {
        UniqueTestIds(tests, j, k);
      }
    } else {
      FoundIff(tests, id);
    }
  }

  lemma RecordableIff(tests: seq<Test>, t: Test)
    requires AllTestsAt(tests)
    ensures RecordTestError(tests, t).None? <==> Recordable(tests, t)
  {
    FoundIff(tests, t.id);
    if t.retestOf.Some? {
      EarlierIff(tests, t.retestOf.value, t.control);
    }
  }

  /** In every run each test met those conditions against the tests recorded before it. */
  lemma RunTests(cmds: seq<Command>, i: nat)
    requires i < |Run(cmds).tests|
    ensures Recordable(Run(cmds).tests[..i], Run(cmds).tests[i])
  {
    RunInv(cmds);
    var tests := Run(cmds).tests;
    assert TestAt(tests, i);
    forall k | 0 <= k < i ensures TestAt(tests[..i], k) {
      assert TestAt(tests, k);
      assert tests[..i][..k] == tests[..k];
    }
    RecordableIff(tests[..i], tests[i]);
  }

  /** A test that a retest of the finding may be: of the source's lineage, or else of the finding's control. */
  ghost predicate RetestFor(tests: seq<Test>, f: Finding, test: Id) {
    exists k :: 0 <= k < |tests| && tests[k].id == test && Fits(f, tests[k])
  }

  ghost predicate Fits(f: Finding, t: Test) {
    && (f.source.Some? ==> t.retestOf == f.source)
    && (f.source.None? && f.control.Some? ==> t.control == f.control.value)
  }

  lemma RetestForIff(tests: seq<Test>, f: Finding, test: Id)
    requires AllTestsAt(tests)
    ensures RetestFor(tests, f, test) <==> Lineage(tests, f, test)
  {
    if FindTest(tests, test).Some? {
      var j := TestIndex(tests, test);
      if k :| 0 <= k < |tests| && tests[k].id == test && Fits(f, tests[k]) {
        UniqueTestIds(tests, j, k);
      }
    } else {
      FoundIff(tests, test);
    }
  }

  /** When each command goes through. */
  ghost predicate Acceptable(db: Db, c: Command) {
    match c
    case RecordTest(t) => Recordable(db.tests, t)
    case OpenFinding(id, body, _, _) => body.Opened? && Sound(db.tests, body) && id !in db.findings
    case RecordUpdate(id, note, _, _) => id in db.findings && db.findings[id].status != Closed && HasText(note)
    case RequestRetest(id, _, _) => id in db.findings && db.findings[id].status == Remediating
    case RecordRetest(id, test, _, _) =>
      id in db.findings && db.findings[id].status == Retesting && RetestFor(db.tests, db.findings[id], test)
    case CloseFinding(id, decision, _, _, _) =>
      && id in db.findings && db.findings[id].status != Closed
      && decision in ["remediated_and_retested", "risk_accepted", "false_positive", "other"]
  }

  /** A command is accepted exactly then, from every reachable state. */
  lemma AcceptedIff(db: Db, c: Command)
    requires Inv(db)
    ensures Exec(db, c).Success? <==> Acceptable(db, c)
    ensures !c.RecordTest? && !c.OpenFinding? ==>
      (Exec(db, c) == Failure(MissingRow) <==>
       c.id !in db.findings || (c.RecordRetest? && !HasTest(db.tests, c.test)))
    ensures c.OpenFinding? && c.body.Opened? ==>
      (Exec(db, c) == Failure(ValueError) <==>
       !HasText(c.body.title) || c.body.severity !in ["low", "medium", "high", "critical"])
  {
    match c {
      case RecordTest(t) => RecordableIff(db.tests, t);
      case OpenFinding(_, body, _, _) =>
        if body.Opened? {
          PolicyLifecycle.BlankIff(body.title);
          if body.source.Some? {
            FoundIff(db.tests, body.source.value);
          }
        }
      case RecordUpdate(_, note, _, _) => PolicyLifecycle.BlankIff(note);
      case RequestRetest(_, _, _) =>
      case RecordRetest(id, test, _, _) =>
        FoundIff(db.tests, test);
        if id in db.findings {
          RetestForIff(db.tests, db.findings[id], test);
        }
      case CloseFinding(_, _, _, _, _) =>
    }
  }

  /** The actor and the time of a command are those of its event, and no other finding changes. */
  lemma AcceptedRecords(db: Db, c: Command)
    requires Inv(db) && !c.RecordTest? && Exec(db, c).Success?
    ensures var after := Exec(db, c).value;
      && after.tests == db.tests && |after.log| == |db.log| + 1 && after.log[..|db.log|] == db.log
      && after.log[|db.log|].id == c.id && after.log[|db.log|].body == BodyFor(db, c)
      && after.log[|db.log|].sequence == |Of(db.log, c.id)| + 1
      && after.log[|db.log|].recordedAt == c.at && after.log[|db.log|].occurredAt == c.at
      && after.log[|db.log|].actor == c.actor
      && forall v :: v != c.id ==> Lookup(after.findings, v) == Lookup(db.findings, v)
  {
    AcceptedIsSound(db, c);
    ContiguousMax(db.log, c.id);
  }

  /** A request with no other step in between does what the command does when called alone, or nothing. */
  lemma LoneRequestIsCommand(s: Requests.Shared, r: Requests.RequestId, cmd: Command)
    requires r !in s.open && !cmd.RecordTest? && !cmd.OpenFinding?
    ensures var t := Requests.Next(Requests.Next(s, Requests.Load(r, cmd)), Requests.Write(r));
      t.db == (if Exec(s.db, cmd).Success? then Exec(s.db, cmd).value else s.db) && t.open == s.open
  {
    if Exec(s.db, cmd).Success? {
      AcceptedIsSound(s.db, cmd);
      assert Requests.BodyOf(s.db, cmd) == BodyFor(s.db, cmd);
    }
  }

  /** Recording a test and opening a finding are the same in both machines. */
  lemma CreatingIsCommand(s: Requests.Shared, cmd: Command)
    requires cmd.RecordTest? || cmd.OpenFinding?
    ensures var t := Requests.Next(s, Requests.Create(cmd));
      t.db == (if Exec(s.db, cmd).Success? then Exec(s.db, cmd).value else s.db) && t.open == s.open
  {
  }
}
