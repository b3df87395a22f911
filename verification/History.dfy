/**
 Point-in-time reconstruction of a policy's versions (app/history.py), and the choice of versions
 for an audit package (app/audit_package.py).
 */
module History {
  import opened Common
  import opened EventLog
  import opened Replay
  import opened VersionLifecycle
  import opened PolicyLifecycle

  /******* The query and the replay *******/

  /** The versions of the policy that existed at the cutoff. */
  function Existing(versions: map<Id, VersionRow>, policy: Id, asOf: Time): set<Id> {
    set v | v in versions && versions[v].owner == policy && versions[v].createdAt <= asOf
  }

  /** The WHERE clause of the event query; its ORDER BY is HistoryOrder. */
  function Query(log: seq<VersionEvent>, ids: set<Id>, asOf: Time): seq<VersionEvent> {
    if log == [] then []
    else
      var last := log[|log| - 1];
      Query(log[..|log| - 1], ids, asOf) + if last.id in ids && last.occurredAt <= asOf then [last] else []
  }

  /** What a replay of `events` says about each of `ids`. */
  function Snapshots(events: seq<VersionEvent>, ids: set<Id>): map<Id, Lifecycle> {
    map v | v in ids :: After(Of(events, v))
  }

  /** The database's answer `fs` to the reconstruction's query. */
  ghost predicate Answers(db: Db, policy: Id, asOf: Time, fs: seq<VersionEvent>) {
    Selected(HistoryOrder<Body>, Query(db.log, Existing(db.versions, policy, asOf), asOf), fs)
  }

  /** The reconstruction of the policy at `asOf`, from the answer `fs`, shows the version as effective. */
  ghost predicate Shows(db: Db, policy: Id, asOf: Time, fs: seq<VersionEvent>, v: Id) {
    && Answers(db, policy, asOf, fs) && v in Existing(db.versions, policy, asOf)
    && Snapshots(fs, Existing(db.versions, policy, asOf))[v].status == Effective
  }

  /**
   reconstruct_policy_as_of; `events` is the database's answer to the ordered query. The sorting
   of the result by version_number is not modelled.
   */
  method ReconstructPolicyAsOf(db: Db, policy: Id, asOf: Time, events: seq<VersionEvent>)
    returns (snapshots: map<Id, Lifecycle>)
    requires Answers(db, policy, asOf, events)
    ensures forall v :: v in snapshots <==>
      v in db.versions && db.versions[v].owner == policy && db.versions[v].createdAt <= asOf
    ensures forall v :: v in snapshots ==> snapshots[v] == After(Of(events, v))
    ensures forall v :: Shows(db, policy, asOf, events, v) <==> v in snapshots && snapshots[v].status == Effective
  {
    var ids := Existing(db.versions, policy, asOf);
    assert forall v :: v in ids <==>
      v in db.versions && db.versions[v].owner == policy && db.versions[v].createdAt <= asOf;
    if ids == {} {
      return map[];
    }
    QueryAnswers(db.log, ids, asOf, events);
    snapshots := ReplaySnapshots(events, ids);
  }

  method ReplaySnapshots(events: seq<VersionEvent>, ids: set<Id>) returns (snapshots: map<Id, Lifecycle>)
    requires forall i :: 0 <= i < |events| ==> events[i].id in ids
    ensures snapshots == Snapshots(events, ids)
  {
    snapshots := map v | v in ids :: FRESH;
    for i := 0 to |events|
      invariant snapshots == Snapshots(events[..i], ids)
    {
      var e := events[i];
      snapshots := snapshots[e.id := Apply(snapshots[e.id], e)];
      SnapshotsAppend(events, i, ids);
    }
    assert events[..|events|] == events;
  }

  lemma SnapshotsAppend(events: seq<VersionEvent>, i: nat, ids: set<Id>)
    requires i < |events| && events[i].id in ids
    ensures var before, e := Snapshots(events[..i], ids), events[i];
            Snapshots(events[..i + 1], ids) == before[e.id := Apply(before[e.id], e)]
  {
    assert events[..i + 1] == events[..i] + [events[i]];
    forall v | v in ids ensures Snapshots(events[..i + 1], ids)[v] == State(events[..i] + [events[i]], v) {
      StateAppend(events[..i], events[i], v);
    }
    forall v | v in ids ensures State(events[..i] + [events[i]], v) ==
      if v == events[i].id then Apply(State(events[..i], v), events[i]) else State(events[..i], v)
    {
      StateAppend(events[..i], events[i], v);
    }
  }

  lemma {:induction false} QuerySub(log: seq<VersionEvent>, ids: set<Id>, asOf: Time)
    ensures multiset(Query(log, ids, asOf)) <= multiset(log)
  {
    if log != [] {
      QuerySub(log[..|log| - 1], ids, asOf);
      assert log == log[..|log| - 1] + [log[|log| - 1]];
    }
  }

  lemma {:induction false} QueryMatches(log: seq<VersionEvent>, ids: set<Id>, asOf: Time)
    ensures forall e :: e in Query(log, ids, asOf) ==> e.id in ids && e.occurredAt <= asOf
  {
    if log != [] {
      QueryMatches(log[..|log| - 1], ids, asOf);
    }
  }

  lemma QueryAnswers(log: seq<VersionEvent>, ids: set<Id>, asOf: Time, events: seq<VersionEvent>)
    requires multiset(events) == multiset(Query(log, ids, asOf))
    ensures forall i :: 0 <= i < |events| ==> events[i].id in ids
  {
    QueryMatches(log, ids, asOf);
    forall i | 0 <= i < |events| ensures events[i].id in ids {
      assert events[i] in multiset(events);
    }
  }

  lemma {:induction false} OfQuery(log: seq<VersionEvent>, ids: set<Id>, asOf: Time, v: Id)
    requires v in ids
    ensures Of(Query(log, ids, asOf), v) == Upto(Of(log, v), asOf)
  {
    if log != [] {
      var front, last := log[..|log| - 1], log[|log| - 1];
      OfQuery(front, ids, asOf, v);
      OfAppend(Query(front, ids, asOf), last, v);
      assert Query(front, ids, asOf) + [] == Query(front, ids, asOf);
      assert Of(Query(front, ids, asOf), v) + [] == Of(Query(front, ids, asOf), v);
      if last.id == v {
        assert (Of(front, v) + [last])[..|Of(front, v)|] == Of(front, v);
      } else {
        assert Of(log, v) == Of(front, v);
      }
    }
  }

  /******* The two replays agree *******/

  lemma {:induction false} UptoSub(log: seq<VersionEvent>, asOf: Time)
    ensures multiset(Upto(log, asOf)) <= multiset(log)
  {
    if log != [] {
      UptoSub(log[..|log| - 1], asOf);
      assert log == log[..|log| - 1] + [log[|log| - 1]];
    }
  }

  /** Each aggregate's share of a selection is its share of what was selected, in (recorded_at, sequence) order. */
  lemma SelectedHistory(log: seq<VersionEvent>, es: seq<VersionEvent>, v: Id)
    requires UniqueSlots(log)
    requires Selected(RebuildOrder<Body>, log, es) || Selected(HistoryOrder<Body>, log, es)
    ensures Ascending(Of(es, v)) && multiset(Of(es, v)) == multiset(Of(log, v))
  {
    UniquePermuted(log, es);
    HistoryAscending(es, v);
    OfPermuted(log, es, v);
  }

  /**
   For every log: the reconstruction at a cutoff equals replaying, through the projectors and in the
   order of a rebuild, the events stated at or before the cutoff. No assumption about the clock.
   */
  lemma ReconstructionEqualsReplay(db: Db, policy: Id, asOf: Time, es: seq<VersionEvent>, fs: seq<VersionEvent>, v: Id)
    requires UniqueSlots(db.log)
    requires v in db.versions && db.versions[v].owner == policy && db.versions[v].createdAt <= asOf
    requires Selected(RebuildOrder<Body>, Upto(db.log, asOf), es)
    requires Answers(db, policy, asOf, fs)
    ensures Lookup(ProjectAll(ProjectRow, Reset(db.versions), es), v) ==
            Some(db.versions[v].(lifecycle := Snapshots(fs, Existing(db.versions, policy, asOf))[v]))
  {
    var ids := Existing(db.versions, policy, asOf);
    UptoSub(db.log, asOf);
    QuerySub(db.log, ids, asOf);
    UniquePermuted(db.log, Upto(db.log, asOf));
    UniquePermuted(db.log, Query(db.log, ids, asOf));
    SelectedHistory(Upto(db.log, asOf), es, v);
    SelectedHistory(Query(db.log, ids, asOf), fs, v);
    UptoOf(db.log, asOf, v);
    OfQuery(db.log, ids, asOf, v);
    AscendingUnique(Of(es, v), Of(fs, v));
    ReplayedRow(db.versions, es, v);
  }

  /** At a cutoff past every event the reconstruction is the rebuilt projection. */
  lemma ReconstructionAtTheEnd(db: Db, policy: Id, asOf: Time, es: seq<VersionEvent>, fs: seq<VersionEvent>, v: Id)
    requires UniqueSlots(db.log)
    requires v in db.versions && db.versions[v].owner == policy && db.versions[v].createdAt <= asOf
    requires forall i :: 0 <= i < |db.log| ==> db.log[i].occurredAt <= asOf
    requires Selected(RebuildOrder<Body>, db.log, es)
    requires Answers(db, policy, asOf, fs)
    ensures Lookup(ProjectAll(ProjectRow, Reset(db.versions), es), v) ==
            Some(db.versions[v].(lifecycle := Snapshots(fs, Existing(db.versions, policy, asOf))[v]))
  {
    UptoAll(db.log, asOf);
    ReconstructionEqualsReplay(db, policy, asOf, es, fs, v);
  }

  /******* Who was effective when *******/

  /** The clock never ran backwards: recorded times along the log, and creation before the first event. */
  ghost predicate ClockForward(db: Db) {
    && ClockOrdered(db.log)
    && forall i :: 0 <= i < |db.log| && db.log[i].id in db.versions ==>
         db.versions[db.log[i].id].createdAt <= db.log[i].recordedAt
  }

  lemma ForwardIsInOrder(db: Db)
    requires Inv(db) && ClockOrdered(db.log)
    ensures RecordedInOrder(db.log)
  {
    forall i, j | 0 <= i < j < |db.log| ensures InTime(db.log, i, j) {
      if db.log[i].id == db.log[j].id {
        ContiguousRises(db.log, i, j);
      }
    }
  }

  /** The version's events stated by `asOf`, in the order of the log, leave it effective. */
  ghost predicate ShownEffective(db: Db, asOf: Time, v: Id) {
    v in db.versions && db.versions[v].createdAt <= asOf &&
    After(Upto(Of(db.log, v), asOf)).status == Effective
  }

  /** That is what the method returns, for any answer of the database. */
  lemma ReconstructionShows(db: Db, policy: Id, asOf: Time, fs: seq<VersionEvent>, v: Id)
    requires Inv(db) && RecordedInOrder(db.log) && Answers(db, policy, asOf, fs)
    requires v in db.versions && db.versions[v].owner == policy && db.versions[v].createdAt <= asOf
    ensures Snapshots(fs, Existing(db.versions, policy, asOf))[v] == After(Upto(Of(db.log, v), asOf))
    ensures Shows(db, policy, asOf, fs, v) <==> ShownEffective(db, asOf, v)
  {
    var ids := Existing(db.versions, policy, asOf);
    InOrderIsUnique(db.log);
    QuerySub(db.log, ids, asOf);
    UniquePermuted(db.log, Query(db.log, ids, asOf));
    SelectedHistory(Query(db.log, ids, asOf), fs, v);
    OfQuery(db.log, ids, asOf, v);
    HistoryAscending(db.log, v);
    UptoAscending(Of(db.log, v), asOf);
    AscendingUnique(Of(fs, v), Upto(Of(db.log, v), asOf));
  }

  /** Every reconstruction of the version's own policy shows it, and no other reconstruction does. */
  lemma ShownByEveryAnswer(db: Db, policy: Id, asOf: Time, fs: seq<VersionEvent>, v: Id)
    requires Inv(db) && RecordedInOrder(db.log) && Answers(db, policy, asOf, fs)
    ensures Shows(db, policy, asOf, fs, v) <==> ShownEffective(db, asOf, v) && db.versions[v].owner == policy
  {
    if v in db.versions && db.versions[v].owner == policy && db.versions[v].createdAt <= asOf {
      ReconstructionShows(db, policy, asOf, fs, v);
    }
  }

  /** There is an answer to every ordered query. */
  lemma {:induction false} AnswerExists(q: seq<VersionEvent>) returns (fs: seq<VersionEvent>)
    ensures Selected(HistoryOrder<Body>, q, fs)
  {
    if q == [] {
      fs := [];
    } else {
      var n := |q| - 1;
      var front := AnswerExists(q[..n]);
      fs := InsertInOrder(front, q[n]);
      assert q == q[..n] + [q[n]];
    }
  }

  lemma {:induction false} InsertInOrder(fs: seq<VersionEvent>, e: VersionEvent) returns (gs: seq<VersionEvent>)
    requires Ordered(HistoryOrder<Body>, fs)
    ensures Ordered(HistoryOrder<Body>, gs) && multiset(gs) == multiset(fs) + multiset{e}
  {
    if fs == [] {
      gs := [e];
    } else {
      var n := |fs| - 1;
      var front, last := fs[..n], fs[n];
      assert fs == front + [last];
      forall i, j | 0 <= i < j < n ensures InOrder(HistoryOrder<Body>, front, i, j) {
        assert InOrder(HistoryOrder<Body>, fs, i, j);
      }
      forall x | x in multiset(front) ensures HistoryOrder(x, last) {
        var i := IndexOf(front, x);
        assert InOrder(HistoryOrder<Body>, fs, i, n);
      }
      if HistoryOrder(last, e) {
        gs := fs + [e];
        OrderedAppend(fs, e);
      } else {
        var hs := InsertInOrder(front, e);
        gs := hs + [last];
        OrderedAppend(hs, last);
      }
    }
  }

  lemma OrderedAppend(fs: seq<VersionEvent>, e: VersionEvent)
    requires Ordered(HistoryOrder<Body>, fs) && forall x :: x in multiset(fs) ==> HistoryOrder(x, e)
    ensures Ordered(HistoryOrder<Body>, fs + [e])
  {
    var gs := fs + [e];
    forall i, j | 0 <= i < j < |gs| ensures InOrder(HistoryOrder<Body>, gs, i, j) {
      if j < |fs| {
        assert InOrder(HistoryOrder<Body>, fs, i, j);
      } else {
        assert fs[i] in multiset(fs);
      }
    }
  }

  lemma {:induction false} UptoAscending(es: seq<VersionEvent>, asOf: Time)
    requires Ascending(es)
    ensures Ascending(Upto(es, asOf))
    ensures forall e :: e in Upto(es, asOf) ==> e in es
  {
    if es != [] {
      var front, last := es[..|es| - 1], es[|es| - 1];
      AscendingFront(es);
      UptoAscending(front, asOf);
      var kept, all := Upto(front, asOf), Upto(es, asOf);
      forall i, j | 0 <= i < j < |all| ensures Before(all[i], all[j]) {
        if j < |kept| {
          assert Before(kept[i], kept[j]);
        } else {
          assert kept[i] in front;
          var k :| 0 <= k < |front| && front[k] == kept[i];
          assert Before(es[k], es[|es| - 1]);
        }
      }
    }
  }

  lemma TimedHistory(log: seq<VersionEvent>, v: Id)
    requires RecordedInOrder(log) && StatedTimes(log)
    ensures Timed(Of(log, v))
  {
    var es := Of(log, v);
    forall i, j | 0 <= i < j < |es| ensures es[i].recordedAt <= es[j].recordedAt {
      var p, q := OfPair(log, v, i, j);
      assert InTime(log, p, q);
    }
    forall i | 0 <= i < |es| && !es[i].body.WithdrawnFor? ensures es[i].occurredAt == es[i].recordedAt {
      var k := OfIndex(log, v, i);
    }
  }

  /**
   The interval theorem for the whole table: a reconstruction shows a version as effective exactly
   when the cutoff lies between the times that its final columns give.
   */
  lemma ShownWhenInForce(db: Db, asOf: Time, v: Id)
    requires Inv(db) && RecordedInOrder(db.log) && v in db.versions
    ensures ShownEffective(db, asOf, v) <==>
            db.versions[v].createdAt <= asOf && InForce(db.versions[v].lifecycle, asOf)
  {
    assert RowIsLive(db, v);
    DisciplinedLegal(db.log, Parents(db.versions), v);
    TimedHistory(db.log, v);
    CutoffStatus(Of(db.log, v), asOf);
  }

  /** No reconstruction of any policy at `asOf` shows two effective versions. */
  ghost predicate AtMostOneShown(db: Db, asOf: Time) {
    forall policy, fs, v, w :: Shows(db, policy, asOf, fs, v) && Shows(db, policy, asOf, fs, w) ==> v == w
  }

  /** The same, on the log. */
  ghost predicate AtMostOneEffective(db: Db, asOf: Time) {
    forall v, w ::
      (ShownEffective(db, asOf, v) && ShownEffective(db, asOf, w) && db.versions[v].owner == db.versions[w].owner)
      ==> v == w
  }

  lemma AtMostOneIff(db: Db, asOf: Time)
    requires Inv(db) && RecordedInOrder(db.log)
    ensures AtMostOneShown(db, asOf) <==> AtMostOneEffective(db, asOf)
  {
    if AtMostOneEffective(db, asOf) {
      forall policy, fs, v, w | Shows(db, policy, asOf, fs, v) && Shows(db, policy, asOf, fs, w) ensures v == w {
        ShownByEveryAnswer(db, policy, asOf, fs, v);
        ShownByEveryAnswer(db, policy, asOf, fs, w);
      }
    }
    if AtMostOneShown(db, asOf) {
      forall v, w | ShownEffective(db, asOf, v) && ShownEffective(db, asOf, w) &&
                    db.versions[v].owner == db.versions[w].owner
        ensures v == w
      {
        var policy := db.versions[v].owner;
        var fs := AnswerExists(Query(db.log, Existing(db.versions, policy, asOf), asOf));
        ShownByEveryAnswer(db, policy, asOf, fs, v);
        ShownByEveryAnswer(db, policy, asOf, fs, w);
      }
    }
  }

  /** `w` came into force while `v`, already withdrawn, was stated to be in force until later. */
  predicate Clash(v: Lifecycle, w: Lifecycle) {
    && v.effectiveAt.Some? && w.effectiveAt.Some? && v.withdrawnAt.Some?
    && v.effectiveAt.value <= w.effectiveAt.value < v.withdrawnAt.value
    && InForce(w, w.effectiveAt.value)
  }

  ghost predicate NoClash(db: Db) {
    forall v, w :: v in db.versions && w in db.versions && v != w && db.versions[v].owner == db.versions[w].owner ==>
      !Clash(db.versions[v].lifecycle, db.versions[w].lifecycle)
  }

  /** No event states a time after it was recorded. */
  ghost predicate NotPostDated(log: seq<VersionEvent>) {
    forall i :: 0 <= i < |log| ==> log[i].occurredAt <= log[i].recordedAt
  }

  /** `a` began no later than `b` and had ended by then, at a stated time that only a withdrawal may post-date. */
  predicate Sequenced(a: Lifecycle, b: Lifecycle) {
    && a.effectiveAt.Some? && b.effectiveAt.Some? && a.effectiveAt.value <= b.effectiveAt.value
    && ((a.supersededAt.Some? && a.supersededAt.value <= b.effectiveAt.value) || a.withdrawnAt.Some?)
  }

  /** Sequenced, and if no event is post-dated then also withdrawn by then. */
  ghost predicate Orderly(log: seq<VersionEvent>, a: Lifecycle, b: Lifecycle) {
    Sequenced(a, b) && (NotPostDated(log) && a.withdrawnAt.Some? ==> a.withdrawnAt.value <= b.effectiveAt.value)
  }

  /** Of two versions that were ever effective, the first was superseded in time, or withdrawn. */
  lemma FirstEnded(log: seq<VersionEvent>, parent: map<Id, Id>, v: Id, w: Id)
    requires Disciplined(log, parent) && ClockOrdered(log)
    requires v in parent && w in parent && v != w && parent[v] == parent[w]
    requires State(log, v).effectiveAt.Some? && State(log, w).effectiveAt.Some?
    ensures Orderly(log, State(log, v), State(log, w)) || Orderly(log, State(log, w), State(log, v))
  {
    var kv := Began(log, parent, v);
    var kw := Began(log, parent, w);
    if kv < kw {
      LaterSequenced(log, parent, v, w, kv, kw);
    } else {
      LaterSequenced(log, parent, w, v, kw, kv);
    }
  }

  lemma Began(log: seq<VersionEvent>, parent: map<Id, Id>, v: Id) returns (k: nat)
    requires Disciplined(log, parent) && State(log, v).effectiveAt.Some?
    ensures BecameEffective(log, v, k)
    ensures State(log, v).effectiveAt == Some(log[k].occurredAt)
  {
    DisciplinedLegal(log, parent, v);
    var j := EffectiveEvent(Of(log, v));
    k := OfIndex(log, v, j);
  }

  lemma LaterSequenced(log: seq<VersionEvent>, parent: map<Id, Id>, v: Id, w: Id, kv: nat, kw: nat)
    requires Disciplined(log, parent) && ClockOrdered(log)
    requires v in parent && w in parent && v != w && parent[v] == parent[w]
    requires BecameEffective(log, v, kv) && BecameEffective(log, w, kw) && kv < kw
    ensures Orderly(log, State(log, v), State(log, w))
  {
    EffectiveColumn(log, parent, v, kv);
    EffectiveColumn(log, parent, w, kw);
    var s := EndedBefore(log, parent, v, w, kv, kw);
    DisciplinedLegal(log, parent, v);
    EndColumn(Of(log, v));
    assert log[kv].recordedAt <= log[s].recordedAt <= log[kw].recordedAt;
  }

  /** The column that the last event of a finished version wrote. */
  lemma EndColumn(es: seq<VersionEvent>)
    requires Legal(es) && es != []
    ensures es[|es| - 1].body.SupersededBy? ==>
            After(es).supersededAt == Some(es[|es| - 1].occurredAt) && After(es).withdrawnAt.None?
    ensures es[|es| - 1].body.WithdrawnFor? ==> After(es).withdrawnAt == Some(es[|es| - 1].occurredAt)
  {
    LegalShape(es);
    LastStatus(es);
  }

  /**
   Exactly when history never shows two effective versions of one policy, for every run of commands
   under a forward clock: when no version came into force before the stated time of the withdrawal
   of an already withdrawn one.
   */
  lemma OneShownIffNoClash(db: Db)
    requires Inv(db) && ClockForward(db)
    ensures (forall asOf :: AtMostOneShown(db, asOf)) <==> NoClash(db)
  {
    if NoClash(db) {
      forall asOf ensures AtMostOneShown(db, asOf) {
        NoClashShowsOne(db, asOf);
      }
    }
    if forall asOf :: AtMostOneShown(db, asOf) {
      forall v, w | v in db.versions && w in db.versions && v != w && db.versions[v].owner == db.versions[w].owner
        ensures !Clash(db.versions[v].lifecycle, db.versions[w].lifecycle)
      {
        ClashShowsTwo(db, v, w);
      }
    }
  }

  lemma NoClashShowsOne(db: Db, asOf: Time)
    requires Inv(db) && ClockForward(db) && NoClash(db)
    ensures AtMostOneShown(db, asOf)
  {
    ForwardIsInOrder(db);
    forall v, w | ShownEffective(db, asOf, v) && ShownEffective(db, asOf, w) &&
                  db.versions[v].owner == db.versions[w].owner && v != w
      ensures false
    {
      ShownWhenInForce(db, asOf, v);
      ShownWhenInForce(db, asOf, w);
      assert RowIsLive(db, v) && RowIsLive(db, w);
      FirstEnded(db.log, Parents(db.versions), v, w);
    }
    AtMostOneIff(db, asOf);
  }

  lemma ClashShowsTwo(db: Db, v: Id, w: Id)
    requires Inv(db) && ClockForward(db)
    requires v in db.versions && w in db.versions && v != w && db.versions[v].owner == db.versions[w].owner
    ensures Clash(db.versions[v].lifecycle, db.versions[w].lifecycle) ==>
            !AtMostOneShown(db, db.versions[w].lifecycle.effectiveAt.value)
  {
    var a, b := db.versions[v].lifecycle, db.versions[w].lifecycle;
    ForwardIsInOrder(db);
    if Clash(a, b) {
      var asOf := b.effectiveAt.value;
      assert RowIsLive(db, v) && RowIsLive(db, w);
      DisciplinedLegal(db.log, Parents(db.versions), v);
      LegalShape(Of(db.log, v));
      var kv := Began(db.log, Parents(db.versions), v);
      var kw := Began(db.log, Parents(db.versions), w);
      assert db.versions[v].createdAt <= db.log[kv].recordedAt && db.versions[w].createdAt <= db.log[kw].recordedAt;
      ShownWhenInForce(db, asOf, v);
      ShownWhenInForce(db, asOf, w);
      assert ShownEffective(db, asOf, v) && ShownEffective(db, asOf, w);
      AtMostOneIff(db, asOf);
    }
  }

  /**
   For every run of commands with a forward clock and no post-dated withdrawal, the reconstruction
   at every cutoff shows at most one effective version per policy, also between a supersession and
   its successor's event.
   */
  lemma OneEffectiveAtEveryCutoff(cmds: seq<Command>, asOf: Time)
    requires ClockForward(Run(cmds)) && NotPostDated(Run(cmds).log)
    ensures AtMostOneShown(Run(cmds), asOf)
  {
    RunInv(cmds);
    var db := Run(cmds);
    forall v, w | v in db.versions && w in db.versions && v != w && db.versions[v].owner == db.versions[w].owner
      ensures !Clash(db.versions[v].lifecycle, db.versions[w].lifecycle)
    {
      if db.versions[v].lifecycle.effectiveAt.Some? && db.versions[w].lifecycle.effectiveAt.Some? {
        assert RowIsLive(db, v) && RowIsLive(db, w);
        FirstEnded(db.log, Parents(db.versions), v, w);
      }
    }
    OneShownIffNoClash(db);
  }

  /**
   The hypothesis is needed: withdrawing the effective version with a later stated time and then
   making another version of the policy effective before that time always shows two at once.
   */
  lemma PostDatedWithdrawalShowsTwo(db: Db, v: Id, w: Id, until: Time, actor: Option<Id>, now: Time, at: Time)
    returns (withdrawn: Db, after: Db)
    requires Inv(db) && v in db.versions && w in db.versions && db.versions[v].owner == db.versions[w].owner
    requires db.versions[v].lifecycle.status == Effective && db.versions[w].lifecycle.status == Approved
    requires at < until
    ensures Exec(db, Withdraw(v, "", actor, Some(until), now)) == Success(withdrawn)
    ensures Exec(withdrawn, MakeEffective(w, actor, at, at)) == Success(after)
    ensures ClockForward(after) ==> !AtMostOneShown(after, at)
  {
    withdrawn := WithdrawEffective(db, v, w, until, actor, now);
    MakeEffectiveShowsTwo(withdrawn, v, w, until, actor, at);
    after := ExecMakeEffective(withdrawn, w, actor, at, at).value;
  }

  lemma WithdrawEffective(db: Db, v: Id, w: Id, until: Time, actor: Option<Id>, now: Time) returns (after: Db)
    requires Inv(db) && v in db.versions && w in db.versions && v != w
    requires db.versions[v].lifecycle.status == Effective
    ensures Exec(db, Withdraw(v, "", actor, Some(until), now)) == Success(after) && Inv(after)
    ensures v in after.versions && after.versions[v].owner == db.versions[v].owner
    ensures var l := after.versions[v].lifecycle;
      l.status == Withdrawn && l.effectiveAt.Some? && l.withdrawnAt == Some(until)
    ensures w in after.versions && after.versions[w] == db.versions[w]
  {
    var e := NewEvent(db.log, v, WithdrawnFor(""), Some(until), actor, now);
    after := AppendAndProject(db, e);
    WasEffective(db, v);
    AppendRow(db, e);
    SingleEvent(db, v, WithdrawnFor(""), Some(until), actor, now);
  }

  lemma MakeEffectiveShowsTwo(db: Db, v: Id, w: Id, until: Time, actor: Option<Id>, at: Time)
    requires Inv(db) && v in db.versions && w in db.versions && db.versions[v].owner == db.versions[w].owner
    requires var l := db.versions[v].lifecycle;
      l.status == Withdrawn && l.effectiveAt.Some? && l.withdrawnAt == Some(until)
    requires db.versions[w].lifecycle.status == Approved && at < until
    ensures var after := ExecMakeEffective(db, w, actor, at, at);
      after.Success? && (ClockForward(after.value) ==> !AtMostOneShown(after.value, at))
  {
    var after := BecomesEffective(db, v, w, actor, at);
    if ClockForward(after) {
      TwoShown(after, v, w, until, at);
    }
  }

  lemma TwoShown(db: Db, v: Id, w: Id, until: Time, at: Time)
    requires Inv(db) && ClockForward(db) && db.log != [] && db.log[|db.log| - 1].recordedAt == at
    requires v in db.versions && w in db.versions && v != w && db.versions[v].owner == db.versions[w].owner
    requires var l := db.versions[v].lifecycle; l.effectiveAt.Some? && l.withdrawnAt == Some(until)
    requires at < until
    requires db.versions[w].lifecycle.effectiveAt == Some(at) && InForce(db.versions[w].lifecycle, at)
    ensures !AtMostOneShown(db, at)
  {
    LastRecorded(db, v, at);
    ClashShowsTwo(db, v, w);
  }

  /** What make_version_effective does to the version and to a finished one. */
  lemma BecomesEffective(db: Db, v: Id, w: Id, actor: Option<Id>, at: Time) returns (after: Db)
    requires Inv(db) && w in db.versions && db.versions[w].lifecycle.status == Approved
    requires v in db.versions && Terminal(db.versions[v].lifecycle.status)
    ensures ExecMakeEffective(db, w, actor, at, at) == Success(after) && Inv(after)
    ensures after.log != [] && after.log[|after.log| - 1].recordedAt == at
    ensures v in after.versions && after.versions[v] == db.versions[v]
    ensures w in after.versions && after.versions[w].owner == db.versions[w].owner
    ensures after.versions[w].lifecycle.effectiveAt == Some(at) && InForce(after.versions[w].lifecycle, at)
  {
    MakeEffectiveSucceeds(db, w, actor, at, at);
    after := ExecMakeEffective(db, w, actor, at, at).value;
    assert RowIsLive(db, w);
    DisciplinedLegal(db.log, Parents(db.versions), w);
    LegalShape(Of(db.log, w));
    var mid := AfterSupersede(db, w, actor, at);
    SupersedeKeepsRow(db, w, actor, at, w);
    SupersedeKeepsRow(db, w, actor, at, v);
    AppendRow(mid, NewEvent(mid.log, w, MadeEffective, None, actor, at));
  }

  lemma WasEffective(db: Db, v: Id)
    requires Inv(db) && v in db.versions && db.versions[v].lifecycle.status == Effective
    ensures db.versions[v].lifecycle.effectiveAt.Some?
  {
    assert RowIsLive(db, v);
    DisciplinedLegal(db.log, Parents(db.versions), v);
    LegalShape(Of(db.log, v));
  }

  lemma LastRecorded(db: Db, v: Id, at: Time)
    requires Inv(db) && ClockOrdered(db.log) && v in db.versions && db.versions[v].lifecycle.effectiveAt.Some?
    requires db.log != [] && db.log[|db.log| - 1].recordedAt == at
    ensures db.versions[v].lifecycle.effectiveAt.value <= at
  {
    assert RowIsLive(db, v);
    var k := Began(db.log, Parents(db.versions), v);
  }
}
