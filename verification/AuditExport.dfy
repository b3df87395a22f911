/**
 The policy versions that an audit package takes for a period (app/audit_package.py), compared with what
 the point-in-time reconstruction (app/history.py) shows inside the period. The package looks at the final
 projection, the reconstruction at the events in the order of their recorded times.
 */
module AuditExport {
  import opened Common
  import opened EventLog
  import opened Replay
  import opened VersionLifecycle
  import opened PolicyLifecycle
  import opened LastWriters
  import opened History

  /** Seconds per day: `.date()` of a UTC timestamp. */
  const DAY := 86400

  function DateOf(t: Time): int {
    t / DAY
  }

  /** _policy_versions_for_period, on the final projection. */
  predicate SelectedForPeriod(l: Lifecycle, start: int, end: int) {
    && l.effectiveAt.Some?
    && DateOf(l.effectiveAt.value) <= end
    && (l.supersededAt.None? || DateOf(l.supersededAt.value) >= start)
  }

  function VersionsForPeriod(versions: map<Id, VersionRow>, policy: Id, start: int, end: int): set<Id> {
    set v | v in versions && versions[v].owner == policy && SelectedForPeriod(versions[v].lifecycle, start, end)
  }

  /**
   With recorded times in order along each version: the package of a period omits no version that a
   reconstruction at some instant of the period shows as effective.
   */
  lemma PackageOmitsNothing(db: Db, policy: Id, start: int, end: int, asOf: Time, fs: seq<VersionEvent>, v: Id)
    requires Inv(db) && RecordedInOrder(db.log) && start <= DateOf(asOf) <= end && Shows(db, policy, asOf, fs, v)
    ensures v in VersionsForPeriod(db.versions, policy, start, end)
  {
    ReconstructionShows(db, policy, asOf, fs, v);
    ShownWhenInForce(db, asOf, v);
  }

  /** Every event was recorded after its version's row was created. */
  ghost predicate CreatedFirst(db: Db) {
    forall i :: 0 <= i < |db.log| && db.log[i].id in db.versions ==>
      db.versions[db.log[i].id].createdAt <= db.log[i].recordedAt
  }

  /**
   What the package adds, with recorded times in order along each version: a chosen version that no
   instant of the period shows was withdrawn by then, or superseded as the period or its own force began.
   */
  lemma PackageExtras(db: Db, policy: Id, start: int, end: int, v: Id)
    requires Inv(db) && RecordedInOrder(db.log) && CreatedFirst(db) && start <= end
    requires v in VersionsForPeriod(db.versions, policy, start, end)
    requires forall t :: start <= DateOf(t) <= end ==> !ShownEffective(db, t, v)
    ensures var l := db.versions[v].lifecycle;
            var first := Max(l.effectiveAt.value, start * DAY);
            (l.withdrawnAt.Some? && l.withdrawnAt.value <= first) ||
            (l.supersededAt.Some? && l.supersededAt.value <= first)
  {
    var l := db.versions[v].lifecycle;
    var t := Max(l.effectiveAt.value, start * DAY);
    assert RowIsLive(db, v);
    var k := Began(db.log, Parents(db.versions), v);
    assert db.versions[v].createdAt <= db.log[k].recordedAt;
    ShownWhenInForce(db, t, v);
    assert start <= DateOf(t) <= end;
  }

  /******* Whatever the recorded times are *******/

  /** Of the events stated by `asOf`, the one recorded last makes the version effective. */
  ghost predicate LastMakesEffective(es: seq<VersionEvent>, asOf: Time, m: VersionEvent) {
    && m in es && m.occurredAt <= asOf && m.body.MadeEffective?
    && forall x :: x in es && x.occurredAt <= asOf ==> x == m || Before(x, m)
  }

  lemma {:induction false} UptoMember(es: seq<VersionEvent>, asOf: Time, e: VersionEvent)
    ensures e in Upto(es, asOf) <==> e in es && e.occurredAt <= asOf
  {
    if es != [] {
      UptoMember(es[..|es| - 1], asOf, e);
      assert es == es[..|es| - 1] + [es[|es| - 1]];
    }
  }

  lemma SortedMember(es: seq<VersionEvent>, gs: seq<VersionEvent>, asOf: Time, x: VersionEvent)
    requires multiset(gs) == multiset(Upto(es, asOf))
    ensures x in gs <==> x in es && x.occurredAt <= asOf
  {
    UptoMember(es, asOf, x);
    SameMembers(gs, Upto(es, asOf), x);
  }

  lemma LastIsAfter(gs: seq<VersionEvent>, x: VersionEvent)
    requires Ascending(gs) && x in gs
    ensures x == gs[|gs| - 1] || Before(x, gs[|gs| - 1])
  {
    var i :| 0 <= i < |gs| && gs[i] == x;
    assert i < |gs| - 1 ==> Before(gs[i], gs[|gs| - 1]);
  }

  /** What the sorted replay of one version's events up to the cutoff ends with. */
  lemma SortedStatus(es: seq<VersionEvent>, gs: seq<VersionEvent>, asOf: Time)
    requires NoDrafts(es) && Ascending(gs) && multiset(gs) == multiset(Upto(es, asOf))
    ensures After(gs).status == Effective <==> exists m :: LastMakesEffective(es, asOf, m)
  {
    if gs == [] {
      forall m ensures !LastMakesEffective(es, asOf, m) {
        SortedMember(es, gs, asOf, m);
      }
    } else {
      var last := gs[|gs| - 1];
      SortedMember(es, gs, asOf, last);
      SortedNoDrafts(es, gs, asOf);
      StatusIsLast(gs);
      if last.body.MadeEffective? {
        forall x | x in es && x.occurredAt <= asOf ensures x == last || Before(x, last) {
          SortedMember(es, gs, asOf, x);
          LastIsAfter(gs, x);
        }
        assert LastMakesEffective(es, asOf, last);
      }
      if m :| LastMakesEffective(es, asOf, m) {
        SortedMember(es, gs, asOf, m);
        LastIsAfter(gs, m);
      }
    }
  }

  lemma SortedNoDrafts(es: seq<VersionEvent>, gs: seq<VersionEvent>, asOf: Time)
    requires NoDrafts(es) && multiset(gs) == multiset(Upto(es, asOf))
    ensures NoDrafts(gs)
  {
    forall i | 0 <= i < |gs| ensures !gs[i].body.Drafted? {
      SortedMember(es, gs, asOf, gs[i]);
    }
  }

  /** What every reconstruction shows, without any assumption about the clock. */
  lemma ShowsIff(db: Db, policy: Id, asOf: Time, fs: seq<VersionEvent>, v: Id)
    requires Inv(db) && NoDrafts(db.log) && Answers(db, policy, asOf, fs)
    requires v in db.versions && db.versions[v].owner == policy && db.versions[v].createdAt <= asOf
    ensures Shows(db, policy, asOf, fs, v) <==> exists m :: LastMakesEffective(Of(db.log, v), asOf, m)
  {
    var ids := Existing(db.versions, policy, asOf);
    ContiguousUnique(db.log);
    QuerySub(db.log, ids, asOf);
    UniquePermuted(db.log, Query(db.log, ids, asOf));
    SelectedHistory(Query(db.log, ids, asOf), fs, v);
    OfQuery(db.log, ids, asOf, v);
    OrderFacts(db.log, v);
    SortedStatus(Of(db.log, v), Of(fs, v), asOf);
  }

  /** The first instant from which a period may begin after the supersession's day. */
  function FirstOmitted(createdAt: Time, m: VersionEvent, s: VersionEvent): Time {
    Max(Max(m.recordedAt, createdAt), (DateOf(s.recordedAt) + 1) * DAY)
  }

  /**
   The version's supersession was recorded before the event that made it effective, and no later event of
   the version is recorded before a new day has begun after the supersession's.
   */
  ghost predicate Backdated(createdAt: Time, es: seq<VersionEvent>, m: VersionEvent, s: VersionEvent) {
    && m in es && m.body.MadeEffective? && s in es && s.body.SupersededBy? && s.recordedAt < m.recordedAt
    && forall x :: x in es ==> !(m.recordedAt < x.recordedAt <= FirstOmitted(createdAt, m, s))
  }

  ghost predicate NeverBackdated(db: Db) {
    forall v, m, s :: v in db.versions ==> !Backdated(db.versions[v].createdAt, Of(db.log, v), m, s)
  }

  /** The columns of a superseded version, from its two events. */
  lemma SupersededColumns(db: Db, v: Id, m: VersionEvent)
    requires Inv(db) && v in db.versions && m in Of(db.log, v) && m.body.MadeEffective?
    ensures db.versions[v].lifecycle.effectiveAt == Some(m.occurredAt) && m.occurredAt == m.recordedAt
  {
    assert RowIsLive(db, v);
    OfMember(db.log, v, m);
    var k :| 0 <= k < |db.log| && db.log[k] == m;
    EffectiveColumn(db.log, Parents(db.versions), v, k);
  }

  lemma SupersededColumn(db: Db, v: Id)
    requires Inv(db) && v in db.versions
    ensures db.versions[v].lifecycle.supersededAt.Some? ==>
      exists s :: s in Of(db.log, v) && s.body.SupersededBy? &&
        db.versions[v].lifecycle.supersededAt == Some(s.recordedAt)
    ensures forall s :: s in Of(db.log, v) && s.body.SupersededBy? ==>
      db.versions[v].lifecycle.supersededAt == Some(s.recordedAt)
  {
    var es := Of(db.log, v);
    assert RowIsLive(db, v);
    DisciplinedLegal(db.log, Parents(db.versions), v);
    SupersessionColumns(es);
    if LastWriter(es, Supersession).Some? {
      var j := LastWriterIndex(es, Supersession);
      OfMember(db.log, v, es[j]);
      var k :| 0 <= k < |db.log| && db.log[k] == es[j];
    }
    forall s | s in es && s.body.SupersededBy? ensures db.versions[v].lifecycle.supersededAt == Some(s.recordedAt) {
      var i :| 0 <= i < |es| && es[i] == s;
      SomeWriter(es, Supersession, i);
      var j := LastWriterIndex(es, Supersession);
      OnlyWriter(es, Supersession, i, j);
    }
  }

  /**
   What the package of a period holds, in terms of the events: the policy's versions with an event that made
   them effective before the day after the period, and without a supersession before its first day.
   */
  lemma PackageHolds(db: Db, policy: Id, start: int, end: int, v: Id)
    requires Inv(db)
    ensures v in VersionsForPeriod(db.versions, policy, start, end) <==>
      && v in db.versions && db.versions[v].owner == policy
      && (exists m :: m in Of(db.log, v) && m.body.MadeEffective? && m.occurredAt < (end + 1) * 86400)
      && forall s :: s in Of(db.log, v) && s.body.SupersededBy? ==> s.occurredAt >= start * 86400
  {
    if v in db.versions && db.versions[v].owner == policy {
      var es, l := Of(db.log, v), db.versions[v].lifecycle;
      assert RowIsLive(db, v);
      SupersededColumn(db, v);
      forall s | s in es && s.body.SupersededBy? ensures s.occurredAt == s.recordedAt {
        StatedBySuperseding(db, v, s);
      }
      if l.effectiveAt.Some? {
        var k := Began(db.log, Parents(db.versions), v);
        OfMember(db.log, v, db.log[k]);
        assert db.log[k] in es;
      }
      forall m | m in es && m.body.MadeEffective? ensures l.effectiveAt == Some(m.occurredAt) {
        SupersededColumns(db, v, m);
      }
    }
  }

  /** In a superseded version's history the supersession has the largest number, and nothing is withdrawn. */
  lemma SupersededLast(db: Db, v: Id, s: VersionEvent, x: VersionEvent)
    requires Inv(db) && NoDrafts(db.log) && s in Of(db.log, v) && s.body.SupersededBy? && x in Of(db.log, v)
    ensures x == s || (x.sequence < s.sequence && !x.body.WithdrawnFor? && x.occurredAt == x.recordedAt)
  {
    var es := Of(db.log, v);
    DisciplinedLegal(db.log, Parents(db.versions), v);
    OrderFacts(db.log, v);
    var i :| 0 <= i < |es| && es[i] == s;
    var j :| 0 <= j < |es| && es[j] == x;
    TerminalIsLast(es, i);
    if es[j].body.WithdrawnFor? {
      TerminalIsLast(es, j);
    }
  }

  /** A version that is shown and not backdated is in the package. */
  lemma ShownIsSelected(db: Db, start: int, end: int, asOf: Time, v: Id, m: VersionEvent)
    requires Inv(db) && NoDrafts(db.log) && v in db.versions && db.versions[v].createdAt <= asOf
    requires start <= DateOf(asOf) <= end && LastMakesEffective(Of(db.log, v), asOf, m)
    requires forall s :: !Backdated(db.versions[v].createdAt, Of(db.log, v), m, s)
    ensures SelectedForPeriod(db.versions[v].lifecycle, start, end)
  {
    var es, l := Of(db.log, v), db.versions[v].lifecycle;
    SupersededColumns(db, v, m);
    SupersededColumn(db, v);
    if l.supersededAt.Some? && DateOf(l.supersededAt.value) < start {
      var s :| s in es && s.body.SupersededBy? && l.supersededAt == Some(s.recordedAt);
      SupersededLast(db, v, s, m);
      StatedBySuperseding(db, v, s);
      forall x | x in es ensures !(m.recordedAt < x.recordedAt <= FirstOmitted(db.versions[v].createdAt, m, s)) {
        SupersededLast(db, v, s, x);
      }
      assert Backdated(db.versions[v].createdAt, es, m, s);
    }
  }

  lemma StatedBySuperseding(db: Db, v: Id, s: VersionEvent)
    requires Inv(db) && s in Of(db.log, v) && s.body.SupersededBy?
    ensures s.occurredAt == s.recordedAt
  {
    OfMember(db.log, v, s);
    var k :| 0 <= k < |db.log| && db.log[k] == s;
  }

  /** A backdated version is shown at the first omitted instant, by every reconstruction. */
  lemma BackdatedIsShown(db: Db, v: Id, m: VersionEvent, s: VersionEvent)
    requires Inv(db) && NoDrafts(db.log) && v in db.versions
    requires Backdated(db.versions[v].createdAt, Of(db.log, v), m, s)
    ensures LastMakesEffective(Of(db.log, v), FirstOmitted(db.versions[v].createdAt, m, s), m)
  {
    var es, asOf := Of(db.log, v), FirstOmitted(db.versions[v].createdAt, m, s);
    SupersededColumns(db, v, m);
    StatedBySuperseding(db, v, s);
    forall x | x in es && x.occurredAt <= asOf ensures x == m || Before(x, m) {
      SupersededLast(db, v, s, x);
      SameRecorded(db, v, m, s, x);
    }
  }

  /** Nothing but its end comes after the event that made a version effective. */
  lemma SameRecorded(db: Db, v: Id, m: VersionEvent, s: VersionEvent, x: VersionEvent)
    requires Inv(db) && NoDrafts(db.log) && m in Of(db.log, v) && m.body.MadeEffective?
    requires s in Of(db.log, v) && s.body.SupersededBy? && x in Of(db.log, v)
    ensures x == m || x == s || x.sequence < m.sequence
  {
    var es := Of(db.log, v);
    DisciplinedLegal(db.log, Parents(db.versions), v);
    OrderFacts(db.log, v);
    var k :| 0 <= k < |es| && es[k] == m;
    var i :| 0 <= i < |es| && es[i] == s;
    var j :| 0 <= j < |es| && es[j] == x;
    EffectiveStory(es, k);
    TerminalIsLast(es, i);
  }

  /** The package of some period leaves out a version that a reconstruction inside the period shows. */
  ghost predicate Omits(db: Db, policy: Id, start: int, end: int, asOf: Time, fs: seq<VersionEvent>, v: Id) {
    start <= DateOf(asOf) <= end && Shows(db, policy, asOf, fs, v) &&
    v !in VersionsForPeriod(db.versions, policy, start, end)
  }

  lemma BackdatedIsOmitted(db: Db, v: Id, m: VersionEvent, s: VersionEvent) returns (asOf: Time, fs: seq<VersionEvent>)
    requires Inv(db) && NoDrafts(db.log) && v in db.versions
    requires Backdated(db.versions[v].createdAt, Of(db.log, v), m, s)
    ensures asOf == FirstOmitted(db.versions[v].createdAt, m, s)
    ensures Omits(db, db.versions[v].owner, DateOf(asOf), DateOf(asOf), asOf, fs, v)
  {
    var policy := db.versions[v].owner;
    asOf := FirstOmitted(db.versions[v].createdAt, m, s);
    fs := AnswerExists(Query(db.log, Existing(db.versions, policy, asOf), asOf));
    BackdatedIsShown(db, v, m, s);
    ShowsIff(db, policy, asOf, fs, v);
    SupersededColumn(db, v);
    LaterDay(s.recordedAt, asOf);
  }

  lemma LaterDay(t: Time, asOf: Time)
    requires (DateOf(t) + 1) * DAY <= asOf
    ensures DateOf(t) < DateOf(asOf)
  {
  }

  /**
   Exactly when no package omits what a reconstruction inside its period shows, for every reachable state
   and every course of the clock: if and only if no version is backdated.
   */
  lemma PackageCoversIff(db: Db)
    requires Inv(db) && NoDrafts(db.log)
    ensures (forall policy, start, end, asOf, fs, v :: !Omits(db, policy, start, end, asOf, fs, v)) <==>
            NeverBackdated(db)
  {
    if NeverBackdated(db) {
      forall policy, start, end, asOf, fs, v ensures !Omits(db, policy, start, end, asOf, fs, v) {
        if Omits(db, policy, start, end, asOf, fs, v) {
          ShowsIff(db, policy, asOf, fs, v);
          var m :| LastMakesEffective(Of(db.log, v), asOf, m);
          ShownIsSelected(db, start, end, asOf, v, m);
        }
      }
    }
    if !NeverBackdated(db) {
      var v, m, s :| v in db.versions && Backdated(db.versions[v].createdAt, Of(db.log, v), m, s);
      var asOf, fs := BackdatedIsOmitted(db, v, m, s);
      assert Omits(db, db.versions[v].owner, DateOf(asOf), DateOf(asOf), asOf, fs, v);
    }
  }

  /**
   From every reachable state with an effective version: superseding it with a clock reading of an earlier
   day than the one at which it became effective leaves a state whose package of that day omits it, although
   the reconstruction shows it.
   */
  lemma EarlierSupersessionIsOmitted(db: Db, v: Id, w: Id, actor: Option<Id>, u: Time, at: Time)
    returns (after: Db, asOf: Time, fs: seq<VersionEvent>)
    requires Inv(db) && NoDrafts(db.log) && v in db.versions && w in db.versions && v != w
    requires db.versions[v].owner == db.versions[w].owner
    requires db.versions[v].lifecycle.status == Effective && db.versions[w].lifecycle.status == Approved
    requires db.versions[v].lifecycle.effectiveAt.Some?
    requires db.versions[v].createdAt <= db.versions[v].lifecycle.effectiveAt.value
    requires DateOf(u) < DateOf(db.versions[v].lifecycle.effectiveAt.value)
    ensures Exec(db, MakeEffective(w, actor, u, at)) == Success(after)
    ensures asOf == db.versions[v].lifecycle.effectiveAt.value && v in after.versions
    ensures Omits(after, after.versions[v].owner, DateOf(asOf), DateOf(asOf), asOf, fs, v)
  {
    MakeEffectiveSucceeds(db, w, actor, u, at);
    var m, s;
    after, m, s := SupersededAt(db, v, w, actor, u, at);
    assert DateOf(u) + 1 <= DateOf(m.recordedAt);
    asOf, fs := BackdatedIsOmitted(after, v, m, s);
  }

  lemma SupersededAt(db: Db, v: Id, w: Id, actor: Option<Id>, u: Time, at: Time)
    returns (after: Db, m: VersionEvent, s: VersionEvent)
    requires Inv(db) && NoDrafts(db.log) && v in db.versions && w in db.versions && v != w
    requires db.versions[v].owner == db.versions[w].owner && ExecMakeEffective(db, w, actor, u, at).Success?
    requires db.versions[v].lifecycle.status == Effective && db.versions[v].lifecycle.effectiveAt.Some?
    ensures ExecMakeEffective(db, w, actor, u, at) == Success(after) && NoDrafts(after.log)
    ensures v in after.versions && after.versions[v].createdAt == db.versions[v].createdAt
    ensures m in Of(after.log, v) && m.body.MadeEffective?
    ensures m.recordedAt == db.versions[v].lifecycle.effectiveAt.value
    ensures s in Of(after.log, v) && s.body.SupersededBy? && s.recordedAt == u
  {
    after := ExecMakeEffective(db, w, actor, u, at).value;
    LiveOneEffective(db);
    assert IsOtherEffective(db.versions, w, v);
    assert !BothEffective(db.versions, v, PreviousEffective(db.versions, w).value);
    s := NewEvent(db.log, v, SupersededBy(w), None, actor, u);
    AppendRow(db, s);
    var mid := AfterSupersede(db, w, actor, u);
    var f := NewEvent(mid.log, w, MadeEffective, None, actor, at);
    AppendRow(mid, f);
    assert RowIsLive(db, v);
    DisciplinedLegal(db.log, Parents(db.versions), v);
    var j := EffectiveEvent(Of(db.log, v));
    m := Of(db.log, v)[j];
    OfMember(db.log, v, m);
    var k :| 0 <= k < |db.log| && db.log[k] == m;
    OfAppend(db.log, s, v);
    OfAppend(mid.log, f, v);
    assert Of(mid.log, v) + [] == Of(mid.log, v);
    assert s in Of(mid.log, v) && m in Of(mid.log, v);
  }
}
