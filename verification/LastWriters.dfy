/**
 Exactly when a rebuild of the policy lifecycle columns (app/events.py, app/policy_lifecycle.py) gives
 back what the live commands left, whatever the recorded times are. Each projector overwrites a fixed
 group of columns, so an arrangement of a version's events matters only through its last writers.
 */
module LastWriters {
  import opened Common
  import opened EventLog
  import opened Replay
  import opened VersionLifecycle
  import opened PolicyLifecycle

  /** The groups of columns, by the events that write them. Every event writes the status. */
  datatype Group = StatusColumn | Submission | Decision | Effect | Supersession | Withdrawal

  predicate Writes(e: VersionEvent, g: Group) {
    match g
    case StatusColumn => true
    case Submission => e.body.SubmittedForReview?
    case Decision => e.body.Reviewed?
    case Effect => e.body.MadeEffective?
    case Supersession => e.body.SupersededBy?
    case Withdrawal => e.body.WithdrawnFor?
  }

  function LastWriter(es: seq<VersionEvent>, g: Group): Option<VersionEvent> {
    if es == [] then None
    else if Writes(es[|es| - 1], g) then Some(es[|es| - 1])
    else LastWriter(es[..|es| - 1], g)
  }

  function StatusBy(e: Option<VersionEvent>): Status {
    if e.Some? then Leaves(e.value.body) else Draft
  }

  function ActorOf(e: Option<VersionEvent>): Option<Id> {
    if e.Some? then e.value.actor else None
  }

  function TimeOf(e: Option<VersionEvent>): Option<Time> {
    if e.Some? then Some(e.value.occurredAt) else None
  }

  function DecisionOf(e: Option<VersionEvent>): Option<string> {
    if e.Some? && e.value.body.Reviewed? then Some(e.value.body.decision) else None
  }

  function CommentOf(e: Option<VersionEvent>): string {
    if e.Some? && e.value.body.Reviewed? then e.value.body.comment else ""
  }

  function SuccessorOf(e: Option<VersionEvent>): Option<Id> {
    if e.Some? && e.value.body.SupersededBy? then Some(e.value.body.successor) else None
  }

  function ReasonOf(e: Option<VersionEvent>): string {
    if e.Some? && e.value.body.WithdrawnFor? then e.value.body.reason else ""
  }

  /** The columns that the last writers of the groups leave. */
  function Columns(status: Option<VersionEvent>, submit: Option<VersionEvent>, review: Option<VersionEvent>,
                   effect: Option<VersionEvent>, supersede: Option<VersionEvent>, withdraw: Option<VersionEvent>)
    : Lifecycle
  {
    Lifecycle(StatusBy(status), ActorOf(submit), TimeOf(submit), ActorOf(review), TimeOf(review), DecisionOf(review),
              CommentOf(review), TimeOf(effect), TimeOf(supersede), SuccessorOf(supersede), TimeOf(withdraw),
              ReasonOf(withdraw))
  }

  ghost predicate NoDrafts(es: seq<VersionEvent>) {
    forall i :: 0 <= i < |es| ==> !es[i].body.Drafted?
  }

  lemma {:induction false} SubmissionColumns(es: seq<VersionEvent>)
    ensures var l := After(es);
      l.submittedBy == ActorOf(LastWriter(es, Submission)) && l.submittedAt == TimeOf(LastWriter(es, Submission))
  {
    if es != [] {
      SubmissionColumns(es[..|es| - 1]);
    }
  }

  lemma {:induction false} DecisionColumns(es: seq<VersionEvent>)
    ensures var l := After(es);
      && l.reviewedBy == ActorOf(LastWriter(es, Decision)) && l.reviewedAt == TimeOf(LastWriter(es, Decision))
      && l.reviewDecision == DecisionOf(LastWriter(es, Decision)) &&
          l.reviewComment == CommentOf(LastWriter(es, Decision))
  {
    if es != [] {
      DecisionColumns(es[..|es| - 1]);
    }
  }

  lemma {:induction false} EffectColumn(es: seq<VersionEvent>)
    ensures var l := After(es);
      l.effectiveAt == TimeOf(LastWriter(es, Effect))
  {
    if es != [] {
      EffectColumn(es[..|es| - 1]);
    }
  }

  lemma {:induction false} SupersessionColumns(es: seq<VersionEvent>)
    ensures var l := After(es);
      l.supersededAt == TimeOf(LastWriter(es, Supersession)) &&
          l.supersededBy == SuccessorOf(LastWriter(es, Supersession))
  {
    if es != [] {
      SupersessionColumns(es[..|es| - 1]);
    }
  }

  lemma {:induction false} WithdrawalColumns(es: seq<VersionEvent>)
    ensures var l := After(es);
      l.withdrawnAt == TimeOf(LastWriter(es, Withdrawal)) && l.withdrawnReason == ReasonOf(LastWriter(es, Withdrawal))
  {
    if es != [] {
      WithdrawalColumns(es[..|es| - 1]);
    }
  }

  /** In whatever order a version's events are applied, its columns are those of the last writers. */
  lemma AfterIsLastWriters(es: seq<VersionEvent>)
    requires NoDrafts(es)
    ensures After(es) ==
            Columns(LastWriter(es, StatusColumn), LastWriter(es, Submission), LastWriter(es, Decision),
                    LastWriter(es, Effect), LastWriter(es, Supersession), LastWriter(es, Withdrawal))
  {
    SubmissionColumns(es);
    DecisionColumns(es);
    EffectColumn(es);
    SupersessionColumns(es);
    WithdrawalColumns(es);
    if es != [] {
      StatusIsLast(es);
    }
  }

  lemma {:induction false} LastWriterIndex(es: seq<VersionEvent>, g: Group) returns (j: nat)
    requires LastWriter(es, g).Some?
    ensures j < |es| && es[j] == LastWriter(es, g).value && Writes(es[j], g)
    ensures forall i :: j < i < |es| ==> !Writes(es[i], g)
  {
    var n := |es| - 1;
    if Writes(es[n], g) {
      j := n;
    } else {
      j := LastWriterIndex(es[..n], g);
    }
  }

  lemma {:induction false} SomeWriter(es: seq<VersionEvent>, g: Group, i: nat)
    requires i < |es| && Writes(es[i], g)
    ensures LastWriter(es, g).Some?
  {
    if !Writes(es[|es| - 1], g) {
      SomeWriter(es[..|es| - 1], g, i);
    }
  }

  /** No event that writes the group was recorded later than the last one appended. */
  ghost predicate LastWord(es: seq<VersionEvent>, g: Group) {
    LastWriter(es, g).Some? ==>
      forall e :: e in es && Writes(e, g) ==> e.recordedAt <= LastWriter(es, g).value.recordedAt
  }

  ghost predicate Rising(es: seq<VersionEvent>) {
    forall i, j :: 0 <= i < j < |es| ==> es[i].sequence < es[j].sequence
  }

  /** The last writer in append order has the largest number. */
  lemma AppendedLast(es: seq<VersionEvent>, g: Group, e: VersionEvent)
    requires Rising(es) && e in es && Writes(e, g)
    ensures LastWriter(es, g).Some? && LastWriter(es, g).value in es && Writes(LastWriter(es, g).value, g)
    ensures e == LastWriter(es, g).value || e.sequence < LastWriter(es, g).value.sequence
  {
    var i :| 0 <= i < |es| && es[i] == e;
    SomeWriter(es, g, i);
    var j := LastWriterIndex(es, g);
    assert i <= j;
  }

  /** The last writer in the order of the replay is the largest by recorded time, then number. */
  lemma ReplayedLast(es: seq<VersionEvent>, g: Group, e: VersionEvent)
    requires Ascending(es) && e in es && Writes(e, g)
    ensures LastWriter(es, g).Some? && LastWriter(es, g).value in es && Writes(LastWriter(es, g).value, g)
    ensures e == LastWriter(es, g).value || Before(e, LastWriter(es, g).value)
  {
    var i :| 0 <= i < |es| && es[i] == e;
    SomeWriter(es, g, i);
    var j := LastWriterIndex(es, g);
    assert i < j ==> Before(es[i], es[j]);
  }

  lemma SameMembers(es: seq<VersionEvent>, fs: seq<VersionEvent>, e: VersionEvent)
    requires multiset(es) == multiset(fs)
    ensures e in es <==> e in fs
  {
    assert e in es <==> e in multiset(es);
    assert e in fs <==> e in multiset(fs);
  }

  /** A group has the same last writer in both orders exactly if that one has the last word. */
  lemma SameLastWriterIff(es: seq<VersionEvent>, fs: seq<VersionEvent>, g: Group)
    requires Rising(es) && Ascending(fs) && multiset(es) == multiset(fs)
    ensures LastWriter(es, g) == LastWriter(fs, g) <==> LastWord(es, g)
  {
    if LastWriter(es, g).None? {
      if LastWriter(fs, g).Some? {
        var j := LastWriterIndex(fs, g);
        SameMembers(es, fs, fs[j]);
        AppendedLast(es, g, fs[j]);
      }
    } else {
      var k := LastWriterIndex(es, g);
      SameMembers(es, fs, es[k]);
      ReplayedLast(fs, g, es[k]);
      var a, b := LastWriter(es, g).value, LastWriter(fs, g).value;
      SameMembers(es, fs, b);
      AppendedLast(es, g, b);
      if a == b {
        forall e | e in es && Writes(e, g) ensures e.recordedAt <= a.recordedAt {
          SameMembers(es, fs, e);
          ReplayedLast(fs, g, e);
        }
      }
    }
  }

  /** Where several writers are possible, the recorded time is itself a column. */
  lemma DistinctWritersDiffer(es: seq<VersionEvent>, fs: seq<VersionEvent>, g: Group)
    requires Rising(es) && Ascending(fs) && multiset(es) == multiset(fs) && g in {Submission, Decision}
    requires StatedTimes(es) && After(es) == After(fs) && NoDrafts(es) && NoDrafts(fs)
    ensures LastWriter(es, g) == LastWriter(fs, g)
  {
    AfterIsLastWriters(es);
    AfterIsLastWriters(fs);
    if LastWriter(es, g).Some? {
      var k := LastWriterIndex(es, g);
      var j := LastWriterIndex(fs, g);
      SameMembers(es, fs, fs[j]);
      SameMembers(es, fs, es[k]);
      AppendedLast(es, g, fs[j]);
      ReplayedLast(fs, g, es[k]);
      var m :| 0 <= m < |es| && es[m] == fs[j];
      assert es[k].occurredAt == es[k].recordedAt && es[m].occurredAt == es[m].recordedAt;
    }
  }

  /** A legal history has at most one event of each later kind. */
  lemma OnlyWriter(es: seq<VersionEvent>, g: Group, i: nat, j: nat)
    requires Legal(es) && g in {Effect, Supersession, Withdrawal}
    requires i < |es| && j < |es| && Writes(es[i], g) && Writes(es[j], g)
    ensures i == j
  {
    if g == Effect {
      EffectiveStory(es, i);
    } else {
      TerminalIsLast(es, i);
      TerminalIsLast(es, j);
    }
  }

  lemma OnlyWriterIsLast(es: seq<VersionEvent>, fs: seq<VersionEvent>, g: Group)
    requires Legal(es) && multiset(es) == multiset(fs) && g in {Effect, Supersession, Withdrawal}
    ensures LastWriter(es, g) == LastWriter(fs, g)
  {
    if LastWriter(fs, g).Some? {
      var j := LastWriterIndex(fs, g);
      SameMembers(es, fs, fs[j]);
      var i :| 0 <= i < |es| && es[i] == fs[j];
      SomeWriter(es, g, i);
      var k := LastWriterIndex(es, g);
      OnlyWriter(es, g, i, k);
    } else if LastWriter(es, g).Some? {
      var k := LastWriterIndex(es, g);
      SameMembers(es, fs, es[k]);
      var i :| 0 <= i < |fs| && fs[i] == es[k];
      SomeWriter(fs, g, i);
    }
  }

  /** The group of columns that an event writes besides the status. */
  function OwnGroup(e: VersionEvent): Group {
    match e.body
    case Drafted(_, _) => StatusColumn
    case SubmittedForReview => Submission
    case Reviewed(_, _) => Decision
    case MadeEffective => Effect
    case SupersededBy(_) => Supersession
    case WithdrawnFor(_) => Withdrawal
  }

  /** Equal columns have equal last writers: the status tells the kind of the last event. */
  lemma SameStatusSameWriter(es: seq<VersionEvent>, fs: seq<VersionEvent>)
    requires Legal(es) && Rising(es) && Ascending(fs) && multiset(es) == multiset(fs)
    requires StatedTimes(es) && After(es) == After(fs) && NoDrafts(es) && NoDrafts(fs)
    ensures LastWriter(es, StatusColumn) == LastWriter(fs, StatusColumn)
  {
    assert |es| == |multiset(es)| == |multiset(fs)| == |fs|;
    if es != [] {
      var a, b := es[|es| - 1], fs[|fs| - 1];
      StatusIsLast(es);
      StatusIsLast(fs);
      if OwnGroup(a) in {Submission, Decision} {
        DistinctWritersDiffer(es, fs, OwnGroup(a));
      } else {
        OnlyWriterIsLast(es, fs, OwnGroup(a));
      }
    }
  }

  lemma StatusIsLast(es: seq<VersionEvent>)
    requires es != [] && NoDrafts(es)
    ensures After(es).status == Leaves(es[|es| - 1].body)
    ensures LastWriter(es, OwnGroup(es[|es| - 1])) == Some(es[|es| - 1])
  {
  }

  /** For one version: the replayed columns are the live ones exactly if three groups keep their last writer. */
  lemma SameColumnsIff(es: seq<VersionEvent>, fs: seq<VersionEvent>)
    requires Legal(es) && Rising(es) && Ascending(fs) && multiset(es) == multiset(fs)
    requires StatedTimes(es) && NoDrafts(es)
    ensures After(fs) == After(es) <==> LastWords(es)
  {
    forall i | 0 <= i < |fs| ensures !fs[i].body.Drafted? {
      SameMembers(es, fs, fs[i]);
    }
    SameLastWriterIff(es, fs, StatusColumn);
    SameLastWriterIff(es, fs, Submission);
    SameLastWriterIff(es, fs, Decision);
    if After(fs) == After(es) {
      SameStatusSameWriter(es, fs);
      DistinctWritersDiffer(es, fs, Submission);
      DistinctWritersDiffer(es, fs, Decision);
    }
    if LastWords(es) {
      OnlyWriterIsLast(es, fs, Effect);
      OnlyWriterIsLast(es, fs, Supersession);
      OnlyWriterIsLast(es, fs, Withdrawal);
      AfterIsLastWriters(es);
      AfterIsLastWriters(fs);
    }
  }

  /** The last event, the last submission and the last decision were not recorded before an earlier one. */
  ghost predicate LastWords(es: seq<VersionEvent>) {
    LastWord(es, StatusColumn) && LastWord(es, Submission) && LastWord(es, Decision)
  }

  /******* The table *******/

  lemma OrderFacts(log: seq<VersionEvent>, v: Id)
    requires Contiguous(log) && StatedTimes(log) && NoDrafts(log)
    ensures Rising(Of(log, v)) && StatedTimes(Of(log, v)) && NoDrafts(Of(log, v))
  {
    var es := Of(log, v);
    forall i | 0 <= i < |es| ensures es[i] in log && es[i].sequence == i + 1 {
      ContiguousAt(log, v, i);
      OfMember(log, v, es[i]);
    }
    forall i | 0 <= i < |es| && !es[i].body.WithdrawnFor? ensures es[i].occurredAt == es[i].recordedAt {
      var k :| 0 <= k < |log| && log[k] == es[i];
    }
    forall i | 0 <= i < |es| ensures !es[i].body.Drafted? {
      var k :| 0 <= k < |log| && log[k] == es[i];
    }
  }

  lemma SortedFacts(log: seq<VersionEvent>, es: seq<VersionEvent>, v: Id)
    requires Contiguous(log) && Selected(RebuildOrder<Body>, log, es)
    ensures Ascending(Of(es, v)) && multiset(Of(log, v)) == multiset(Of(es, v))
  {
    ContiguousUnique(log);
    UniquePermuted(log, es);
    HistoryAscending(es, v);
    OfPermuted(log, es, v);
  }

  /**
   Exactly when a rebuild gives back the live table, for every reachable state and every course of the
   clock: if and only if no version's last event, last submission or last decision was recorded with
   an earlier time than another event, submission or decision of that version.
   */
  lemma RebuildRestoresIff(db: Db, es: seq<VersionEvent>)
    requires Inv(db) && NoDrafts(db.log) && Selected(RebuildOrder<Body>, db.log, es)
    ensures ProjectAll(ProjectRow, Reset(db.versions), es) == db.versions <==>
            forall v :: v in db.versions ==> LastWords(Of(db.log, v))
  {
    var rebuilt := ProjectAll(ProjectRow, Reset(db.versions), es);
    forall v ensures Lookup(rebuilt, v) == Lookup(db.versions, v) <==> (v in db.versions ==> LastWords(Of(db.log, v))) {
      ReplayedRow(db.versions, es, v);
      if v in db.versions {
        RowRestoredIff(db, es, v);
      }
    }
    if forall v :: v in db.versions ==> LastWords(Of(db.log, v)) {
      SameTable(rebuilt, db.versions);
    }
  }

  lemma RowRestoredIff(db: Db, es: seq<VersionEvent>, v: Id)
    requires Inv(db) && NoDrafts(db.log) && Selected(RebuildOrder<Body>, db.log, es) && v in db.versions
    ensures db.versions[v].lifecycle == After(Of(es, v)) <==> LastWords(Of(db.log, v))
  {
    assert RowIsLive(db, v);
    DisciplinedLegal(db.log, Parents(db.versions), v);
    OrderFacts(db.log, v);
    SortedFacts(db.log, es, v);
    SameColumnsIff(Of(db.log, v), Of(es, v));
  }

  /** Every run of policy commands leads to such a state. */
  lemma {:induction false} RunHasNoDrafts(cmds: seq<Command>)
    ensures NoDrafts(Run(cmds).log)
  {
    if cmds != [] {
      var n := |cmds| - 1;
      RunHasNoDrafts(cmds[..n]);
      RunInv(cmds[..n]);
    }
  }

  lemma RunRebuildRestoresIff(cmds: seq<Command>, es: seq<VersionEvent>)
    requires Selected(RebuildOrder<Body>, Run(cmds).log, es)
    ensures ProjectAll(ProjectRow, Reset(Run(cmds).versions), es) == Run(cmds).versions <==>
            forall v :: v in Run(cmds).versions ==> LastWords(Of(Run(cmds).log, v))
  {
    RunInv(cmds);
    RunHasNoDrafts(cmds);
    RebuildRestoresIff(Run(cmds), es);
  }

  /**
   From every reachable state with a draft: submitting it and approving it with an earlier clock
   reading leaves a log whose rebuild differs from the live table.
   */
  lemma EarlierApprovalBreaksRebuild(db: Db, v: Id, actor: Option<Id>, t: Time, u: Time, es: seq<VersionEvent>)
    returns (submitted: Db, approved: Db)
    requires Inv(db) && NoDrafts(db.log) && v in db.versions && db.versions[v].lifecycle.status == Draft && u < t
    ensures Exec(db, Submit(v, actor, t)) == Success(submitted)
    ensures Exec(submitted, Review(v, "approved", "", actor, u)) == Success(approved)
    ensures Selected(RebuildOrder<Body>, approved.log, es) ==>
            ProjectAll(ProjectRow, Reset(approved.versions), es) != approved.versions
  {
    var e := NewEvent(db.log, v, SubmittedForReview, None, actor, t);
    submitted := AppendAndProject(db, e);
    AppendRow(db, e);
    var f := NewEvent(submitted.log, v, Reviewed("approved", ""), None, actor, u);
    approved := AppendAndProject(submitted, f);
    AppendRow(submitted, f);
    ExecKeepsInv(db, Submit(v, actor, t));
    ExecKeepsInv(submitted, Review(v, "approved", "", actor, u));
    if Selected(RebuildOrder<Body>, approved.log, es) {
      EarlierIsNotLast(db.log, e, f);
      RebuildRestoresIff(approved, es);
    }
  }

  lemma EarlierIsNotLast(log: seq<VersionEvent>, e: VersionEvent, f: VersionEvent)
    requires e.id == f.id && f.recordedAt < e.recordedAt
    ensures !LastWord(Of(log + [e] + [f], e.id), StatusColumn)
    ensures Of(log + [e] + [f], e.id) != [] && Of(log + [e] + [f], e.id)[|Of(log + [e] + [f], e.id)| - 1] == f
  {
    OfAppend(log, e, e.id);
    OfAppend(log + [e], f, e.id);
    var es := Of(log + [e] + [f], e.id);
    assert es[|es| - 1] == f && es[|es| - 2] == e;
    assert e in es && Writes(e, StatusColumn) && LastWriter(es, StatusColumn) == Some(f);
  }

  /** Also in a history that no guard allows: a last submission that was not recorded last is not restored. */
  lemma LateSubmissionDiffers(es: seq<VersionEvent>, fs: seq<VersionEvent>)
    requires Rising(es) && Ascending(fs) && multiset(es) == multiset(fs) && StatedTimes(es) && NoDrafts(es)
    requires es != [] && es[|es| - 1].body.SubmittedForReview? && !LastWord(es, StatusColumn)
    ensures After(fs) != After(es)
  {
    assert |es| == |multiset(es)| == |multiset(fs)| == |fs|;
    forall i | 0 <= i < |fs| ensures !fs[i].body.Drafted? {
      SameMembers(es, fs, fs[i]);
    }
    StatusIsLast(es);
    StatusIsLast(fs);
    SameLastWriterIff(es, fs, StatusColumn);
    if After(fs) == After(es) {
      DistinctWritersDiffer(es, fs, Submission);
    }
  }
}
