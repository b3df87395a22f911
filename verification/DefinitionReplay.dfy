/**
 Rebuilding the control-definition versions (app/control_definition_lifecycle.py). The critical projectors
 flush, so the constraints are checked in mid-replay; the others leave their changes to the next flush,
 which then writes several rows, one statement after another.
 */
module DefinitionReplay {
  import opened Common
  import opened EventLog
  import opened Replay
  import opened VersionLifecycle
  import opened PolicyLifecycle
  import opened ControlDefinitions

  /******* Flushing *******/

  /** The projectors that flush; those of submissions, reviews and withdrawals do not. */
  predicate Flushes(body: Body) {
    body.Drafted? || body.MadeEffective? || body.SupersededBy?
  }

  /**
   In which order a flush writes the changed rows: by primary key, as the unit of work does, or in any
   order, which is all that the program relies on.
   */
  datatype StatementOrder = ByKey | Unspecified

  /** A flush may have written exactly these rows, of all that it writes, at some moment. */
  ghost predicate CanBeWritten(order: StatementOrder, written: set<Id>) {
    order == ByKey ==> forall v: Id, w: Id :: w in written && v < w ==> v in written
  }

  /** The table while a flush has written the rows in `written` and not yet the others. */
  function PartlyWritten(flushed: map<Id, VersionRow>, rows: map<Id, VersionRow>, written: set<Id>)
    : map<Id, VersionRow>
  {
    map v | v in rows && (v in written || v in flushed) :: if v in written then rows[v] else flushed[v]
  }

  /** The unique index is satisfied after each statement of the flush, and at its end. */
  ghost predicate IndexHolds(order: StatementOrder, flushed: map<Id, VersionRow>, rows: map<Id, VersionRow>) {
    && OneEffectivePerPolicy(rows)
    && forall written {:trigger PartlyWritten(flushed, rows, written)} ::
         CanBeWritten(order, written) ==> OneEffectivePerPolicy(PartlyWritten(flushed, rows, written))
  }

  /** The index, and the foreign key of superseded_by_version_id, when the event's projector flushes. */
  ghost predicate FlushAccepted(order: StatementOrder, flushed: map<Id, VersionRow>, rows: map<Id, VersionRow>,
                                e: VersionEvent)
  {
    Flushes(e.body) ==> IndexHolds(order, flushed, rows) && (e.body.SupersededBy? ==> e.body.successor in rows)
  }

  /** A draft inserts its row; any other projector raises if its row is not there. */
  predicate RowFits(rows: map<Id, VersionRow>, e: VersionEvent) {
    e.body.Drafted? <==> e.id !in rows
  }

  function RowError(e: VersionEvent): Error {
    if e.body.Drafted? then IntegrityError else MissingRow
  }

  /** The rows as the database has them and as the session has them. */
  datatype Session = Session(flushed: map<Id, VersionRow>, rows: map<Id, VersionRow>)

  /** Projecting events that are already in order, from the emptied table. */
  ghost function ReplayFlushing(order: StatementOrder, es: seq<VersionEvent>): Result<Session> {
    if es == [] then Success(Session(map[], map[]))
    else
      var before := ReplayFlushing(order, es[..|es| - 1]);
      if before.Failure? then before
      else
        var e := es[|es| - 1];
        var rows := Project(ProjectDefinition, before.value.rows, e);
        if !RowFits(before.value.rows, e) then Failure(RowError(e))
        else if !FlushAccepted(order, before.value.flushed, rows, e) then Failure(IntegrityError)
        else Success(Session(if Flushes(e.body) then rows else before.value.flushed, rows))
  }

  /** rebuild_internal_control_version_projection and the flush of the commit that follows it. */
  ghost function RebuildRows(order: StatementOrder, es: seq<VersionEvent>): Result<map<Id, VersionRow>> {
    var r := ReplayFlushing(order, es);
    if r.Failure? then Failure(r.error)
    else if IndexHolds(order, r.value.flushed, r.value.rows) then Success(r.value.rows)
    else Failure(IntegrityError)
  }

  function Replayed(es: seq<VersionEvent>): map<Id, VersionRow> {
    ProjectAll(ProjectDefinition, map[], es)
  }

  /** How many events the last flush covers. */
  function FlushedUpTo(es: seq<VersionEvent>): (n: nat)
    ensures n <= |es|
    ensures forall i :: n <= i < |es| ==> !Flushes(es[i].body)
    ensures n > 0 ==> Flushes(es[n - 1].body)
  {
    if es == [] then 0
    else if Flushes(es[|es| - 1].body) then |es|
    else FlushedUpTo(es[..|es| - 1])
  }

  function Flushed(es: seq<VersionEvent>): map<Id, VersionRow> {
    Replayed(es[..FlushedUpTo(es)])
  }

  ghost predicate PassesAt(order: StatementOrder, es: seq<VersionEvent>, k: int)
    requires 0 <= k < |es|
  {
    && RowFits(Replayed(es[..k]), es[k])
    && FlushAccepted(order, Flushed(es[..k]), Replayed(es[..k + 1]), es[k])
  }

  ghost predicate AllPass(order: StatementOrder, es: seq<VersionEvent>) {
    forall k {:trigger PassesAt(order, es, k)} :: 0 <= k < |es| ==> PassesAt(order, es, k)
  }

  lemma PassesPrefix(order: StatementOrder, es: seq<VersionEvent>, n: nat, k: nat)
    requires k < n <= |es|
    ensures PassesAt(order, es[..n], k) <==> PassesAt(order, es, k)
  {
    assert es[..n][..k + 1] == es[..k + 1] && es[..n][..k] == es[..k];
  }

  lemma AllPassStep(order: StatementOrder, es: seq<VersionEvent>)
    requires es != []
    ensures AllPass(order, es) <==> AllPass(order, es[..|es| - 1]) && PassesAt(order, es, |es| - 1)
  {
    var n := |es| - 1;
    forall k | 0 <= k < n ensures PassesAt(order, es[..n], k) <==> PassesAt(order, es, k) {
      PassesPrefix(order, es, n, k);
    }
    if AllPass(order, es) {
      forall k | 0 <= k < n ensures PassesAt(order, es[..n], k) {
        assert PassesAt(order, es, k);
      }
    }
    if AllPass(order, es[..n]) && PassesAt(order, es, n) {
      forall k | 0 <= k < |es| ensures PassesAt(order, es, k) {
        assert k < n ==> PassesAt(order, es[..n], k);
      }
    }
  }

  lemma ReplayStep(order: StatementOrder, es: seq<VersionEvent>)
    requires es != []
    requires ReplayFlushing(order, es[..|es| - 1]) ==
        Success(Session(Flushed(es[..|es| - 1]), Replayed(es[..|es| - 1])))
    ensures ReplayFlushing(order, es).Success? <==> PassesAt(order, es, |es| - 1)
    ensures ReplayFlushing(order, es).Success? ==>
            ReplayFlushing(order, es).value == Session(Flushed(es), Replayed(es))
  {
    assert es[..|es|] == es;
    FlushedStep(es);
  }

  /**
   The replay succeeds exactly if every event finds its row and every flush is accepted; the session then
   has the plain replay's rows.
   */
  lemma {:induction false} ReplayFlushingIff(order: StatementOrder, es: seq<VersionEvent>)
    ensures ReplayFlushing(order, es).Success? <==> AllPass(order, es)
    ensures ReplayFlushing(order, es).Success? ==>
            ReplayFlushing(order, es).value == Session(Flushed(es), Replayed(es))
  {
    if es != [] {
      ReplayFlushingIff(order, es[..|es| - 1]);
      AllPassStep(order, es);
      if ReplayFlushing(order, es[..|es| - 1]).Success? {
        ReplayStep(order, es);
      }
    }
  }

  lemma FlushedStep(es: seq<VersionEvent>)
    requires es != []
    ensures var n := |es| - 1; Flushed(es) == if Flushes(es[n].body) then Replayed(es) else Flushed(es[..n])
  {
    var n := |es| - 1;
    if Flushes(es[n].body) {
      assert es[..|es|] == es;
    } else {
      assert es[..FlushedUpTo(es)] == es[..n][..FlushedUpTo(es[..n])];
    }
  }

  /******* What one flush can trip over *******/

  /** Only `id` may be effective in the session without being so in the database. */
  ghost predicate OnlyNew(flushed: map<Id, VersionRow>, rows: map<Id, VersionRow>, id: Option<Id>) {
    && (forall v :: v in flushed ==> v in rows && rows[v].owner == flushed[v].owner)
    && (forall v :: v in rows && rows[v].lifecycle.status == Effective && id != Some(v) ==>
          v in flushed && flushed[v].lifecycle.status == Effective)
  }

  /** `id` starts while the database still has `v` in force, and may be written first. */
  predicate StartsFirst(order: StatementOrder, flushed: map<Id, VersionRow>, rows: map<Id, VersionRow>, id: Id, v: Id) {
    && id in rows && rows[id].lifecycle.status == Effective
    && v != id && v in flushed && flushed[v].lifecycle.status == Effective && flushed[v].owner == rows[id].owner
    && (order == ByKey ==> id < v)
  }

  lemma QuietFlushPasses(order: StatementOrder, flushed: map<Id, VersionRow>, rows: map<Id, VersionRow>)
    requires OneEffectivePerPolicy(flushed) && OnlyNew(flushed, rows, None)
    ensures IndexHolds(order, flushed, rows)
  {
    forall v, w ensures !BothEffective(rows, v, w) {
      assert !BothEffective(flushed, v, w);
    }
    forall written | CanBeWritten(order, written)
      ensures OneEffectivePerPolicy(PartlyWritten(flushed, rows, written))
    {
      forall v, w ensures !BothEffective(PartlyWritten(flushed, rows, written), v, w) {
        assert !BothEffective(flushed, v, w);
      }
    }
  }

  lemma MixedIsSound(order: StatementOrder, flushed: map<Id, VersionRow>, rows: map<Id, VersionRow>, id: Id,
                     written: set<Id>)
    requires OneEffectivePerPolicy(flushed) && OneEffectivePerPolicy(rows) && OnlyNew(flushed, rows, Some(id))
    requires CanBeWritten(order, written) && forall v :: !StartsFirst(order, flushed, rows, id, v)
    ensures OneEffectivePerPolicy(PartlyWritten(flushed, rows, written))
  {
    forall v, w ensures !BothEffective(PartlyWritten(flushed, rows, written), v, w) {
      assert !BothEffective(flushed, v, w) && !BothEffective(rows, v, w);
      assert !StartsFirst(order, flushed, rows, id, v) && !StartsFirst(order, flushed, rows, id, w);
    }
  }

  function UpTo(id: Id): (ids: set<Id>)
    ensures forall x: Id :: x in ids <==> x <= id
  {
    if id == 0 then {0} else UpTo(id - 1) + {id}
  }

  /** A flush in which one version starts is accepted exactly if its end is, and the start cannot come first. */
  lemma FlushIff(order: StatementOrder, flushed: map<Id, VersionRow>, rows: map<Id, VersionRow>, id: Id)
    requires OneEffectivePerPolicy(flushed) && OnlyNew(flushed, rows, Some(id))
    ensures IndexHolds(order, flushed, rows) <==>
            OneEffectivePerPolicy(rows) && forall v :: !StartsFirst(order, flushed, rows, id, v)
  {
    if OneEffectivePerPolicy(rows) && forall v :: !StartsFirst(order, flushed, rows, id, v) {
      forall written | CanBeWritten(order, written)
        ensures OneEffectivePerPolicy(PartlyWritten(flushed, rows, written))
      {
        MixedIsSound(order, flushed, rows, id, written);
      }
    }
    if IndexHolds(order, flushed, rows) {
      forall v ensures !StartsFirst(order, flushed, rows, id, v) {
        if StartsFirst(order, flushed, rows, id, v) {
          var written := if order == ByKey then UpTo(id) else {id};
          var mixed := PartlyWritten(flushed, rows, written);
          assert OneEffectivePerPolicy(mixed);
          assert BothEffective(mixed, id, v);
        }
      }
    }
  }

  /** What the events since the last flush have not done: no row is new, and none became effective. */
  lemma {:induction false} SinceFlush(es: seq<VersionEvent>)
    ensures OnlyNew(Flushed(es), Replayed(es), None)
  {
    if es != [] {
      var n := |es| - 1;
      FlushedStep(es);
      SinceFlush(es[..n]);
    }
  }

  lemma AtFlush(es: seq<VersionEvent>, k: nat)
    requires k < |es| && Flushes(es[k].body) && RowFits(Replayed(es[..k]), es[k])
    ensures OnlyNew(Flushed(es[..k]), Replayed(es[..k + 1]), Some(es[k].id))
    ensures !es[k].body.MadeEffective? ==> OnlyNew(Flushed(es[..k]), Replayed(es[..k + 1]), None)
  {
    SinceFlush(es[..k]);
    assert es[..k + 1][..k] == es[..k];
  }

  lemma {:induction false} FoldDefinition(es: seq<VersionEvent>)
    requires es != [] && es[0].body.Drafted? && forall i :: 0 < i < |es| ==> !es[i].body.Drafted?
    ensures Fold(ProjectDefinition, None, es) ==
            Some(VersionRow(es[0].body.parent, es[0].body.number, es[0].recordedAt, After(es)))
  {
    var n := |es| - 1;
    if n > 0 {
      FoldDefinition(es[..n]);
    } else {
      assert es[..0] == [];
    }
  }

  /** The row a replay has produced for a version after `k` events. */
  lemma ReplayedDefinition(db: Db, es: seq<VersionEvent>, k: nat, v: Id)
    requires ControlInv(db) && RecordedInOrder(db.log) && Selected(RebuildOrder<Body>, db.log, es) && k <= |es|
    ensures var row := Lookup(Replayed(es[..k]), v);
      if v in db.versions && Of(es[..k], v) != [] then row == Some(db.versions[v].(lifecycle := State(es[..k], v)))
      else row == None
  {
    SortedKeepsHistories(db.log, es, v);
    OfPrefix(es, k, v);
    RowAfter<VersionRow, Body>(ProjectDefinition, map[], es[..k], v);
    if v in db.versions {
      assert RootedAt(db, v);
      if Of(es[..k], v) != [] {
        FoldDefinition(Of(es[..k], v));
      }
    } else {
      NoEvents(db.log, v, Parents(db.versions));
    }
  }

  /******* Exactly when the replay trips the index *******/

  /** Strictly earlier in the order of the replay. */
  predicate Earlier(a: VersionEvent, b: VersionEvent) {
    RebuildOrder(a, b) && !RebuildOrder(b, a)
  }

  predicate IsEnd(e: VersionEvent, v: Id) {
    e.id == v && (e.body.SupersededBy? || e.body.WithdrawnFor?)
  }

  /**
   `v` began at event `a` and `w` at the later event `b`, in the order of the replay, and the event
   that ends `v` is missing or comes after `b`.
   */
  ghost predicate Crosses(log: seq<VersionEvent>, a: VersionEvent, b: VersionEvent) {
    && a in log && a.body.MadeEffective? && b in log && b.body.MadeEffective?
    && Earlier(a, b)
    && forall i :: 0 <= i < |log| && IsEnd(log[i], a.id) ==> Earlier(b, log[i])
  }

  ghost predicate Crossing(db: Db) {
    exists a, b :: Crosses(db.log, a, b) && SameParent(db, a.id, b.id)
  }

  /** A version is superseded, in the order of the replay, by one that is drafted only later. */
  ghost predicate Dangles(log: seq<VersionEvent>, s: VersionEvent, d: VersionEvent) {
    s in log && d in log && s.body.SupersededBy? && d.id == s.body.successor && d.body.Drafted? && Earlier(s, d)
  }

  ghost predicate Dangling(db: Db) {
    exists s, d :: Dangles(db.log, s, d)
  }

  /**
   A version in force is withdrawn and another one starts, in the order of the replay, with no flush
   between them: one flush writes both, and it may write the start first.
   */
  ghost predicate Batches(order: StatementOrder, log: seq<VersionEvent>, z: VersionEvent, b: VersionEvent) {
    && z in log && z.body.WithdrawnFor? && b in log && b.body.MadeEffective? && Earlier(z, b)
    && (exists k: nat :: BecameEffective(log, z.id, k))
    && (order == ByKey ==> b.id < z.id)
    && forall i :: 0 <= i < |log| && Flushes(log[i].body) ==> !(Earlier(z, log[i]) && Earlier(log[i], b))
  }

  ghost predicate SameParent(db: Db, v: Id, w: Id) {
    v != w && v in db.versions && w in db.versions && db.versions[v].owner == db.versions[w].owner
  }

  ghost predicate Batched(db: Db, order: StatementOrder) {
    exists z, b :: Batches(order, db.log, z, b) && SameParent(db, z.id, b.id)
  }

  /** In a strictly ordered arrangement, earlier in the order means at a lower index. */
  lemma EarlierIndex(es: seq<VersionEvent>, i: nat, j: nat)
    requires UniqueSlots(es) && Ordered(RebuildOrder<Body>, es) && i < |es| && j < |es|
    ensures i < j <==> Earlier(es[i], es[j])
  {
    if i < j {
      assert InOrder(RebuildOrder<Body>, es, i, j) && SlotsDiffer(es, i, j);
    } else if j < i {
      assert InOrder(RebuildOrder<Body>, es, j, i) && SlotsDiffer(es, j, i);
    }
  }

  /** A version is effective after `k` replayed events exactly if its last replayed event made it so. */
  lemma EffectiveAfter(db: Db, es: seq<VersionEvent>, k: nat, v: Id)
    requires ControlInv(db) && RecordedInOrder(db.log) && Selected(RebuildOrder<Body>, db.log, es) && k <= |es|
    ensures var seen := Of(es[..k], v);
      State(es[..k], v).status == Effective <==> seen != [] && seen[|seen| - 1].body.MadeEffective?
    ensures Legal(Of(es[..k], v)) && Of(es[..k], v) <= Of(db.log, v) && Legal(Of(db.log, v))
  {
    SortedKeepsHistories(db.log, es, v);
    OfPrefix(es, k, v);
    DisciplinedLegal(db.log, Parents(db.versions), v);
    LegalPrefix(Of(db.log, v), |Of(es[..k], v)|);
    assert Of(db.log, v)[..|Of(es[..k], v)|] == Of(es[..k], v);
    LastStatus(Of(es[..k], v));
  }

  /** While `v` has begun and not ended, the replayed table has it as effective. */
  lemma StillEffective(db: Db, es: seq<VersionEvent>, k: nat, v: Id, i: nat)
    requires ControlInv(db) && RecordedInOrder(db.log) && Selected(RebuildOrder<Body>, db.log, es)
    requires i < k <= |es| && es[i].id == v && es[i].body.MadeEffective?
    requires forall j :: 0 <= j < k ==> !IsEnd(es[j], v)
    ensures State(es[..k], v).status == Effective
  {
    EffectiveAfter(db, es, k, v);
    OfAt(es, i, k);
    var seen, p := Of(es[..k], v), |Of(es[..i], v)|;
    EffectiveStory(seen, p);
    if p + 1 < |seen| {
      var j := OfIndex(es[..k], v, p + 1);
      assert IsEnd(es[j], v);
    }
  }

  /** If a pair crosses, the flush of the later event is refused. */
  lemma CrossingTrips(db: Db, order: StatementOrder, es: seq<VersionEvent>, a: VersionEvent, b: VersionEvent)
    requires ControlInv(db) && RecordedInOrder(db.log) && Selected(RebuildOrder<Body>, db.log, es)
    requires Crosses(db.log, a, b) && SameParent(db, a.id, b.id)
    ensures RebuildRows(order, es).Failure?
  {
    var ia, ib := CrossingIndices(db.log, es, a, b);
    StillEffective(db, es, ib + 1, a.id, ia);
    JustEffective(db, es, ib);
    OfAt(es, ia, ib + 1);
    BothReplayed(db, order, es, ib, a.id, b.id);
  }

  lemma CrossingIndices(log: seq<VersionEvent>, es: seq<VersionEvent>, a: VersionEvent, b: VersionEvent)
    returns (ia: nat, ib: nat)
    requires RecordedInOrder(log) && Selected(RebuildOrder<Body>, log, es) && Crosses(log, a, b)
    ensures ia < ib < |es| && es[ia] == a && es[ib] == b
    ensures forall j :: 0 <= j < ib + 1 ==> !IsEnd(es[j], a.id)
  {
    InOrderIsUnique(log);
    UniquePermuted(log, es);
    assert a in multiset(log) && b in multiset(log);
    ia := IndexOf(es, a);
    ib := IndexOf(es, b);
    EarlierIndex(es, ia, ib);
    NoEndYet(log, es, a, b, ib);
  }

  lemma NoEndYet(log: seq<VersionEvent>, es: seq<VersionEvent>, a: VersionEvent, b: VersionEvent, ib: nat)
    requires UniqueSlots(es) && Selected(RebuildOrder<Body>, log, es) && Crosses(log, a, b)
    requires ib < |es| && es[ib] == b
    ensures forall j :: 0 <= j < ib + 1 ==> !IsEnd(es[j], a.id)
  {
    forall j | 0 <= j < ib + 1 ensures !IsEnd(es[j], a.id) {
      assert es[j] in multiset(es);
      var m := IndexOf(log, es[j]);
      EarlierIndex(es, ib, j);
    }
  }

  lemma JustEffective(db: Db, es: seq<VersionEvent>, i: nat)
    requires ControlInv(db) && RecordedInOrder(db.log) && Selected(RebuildOrder<Body>, db.log, es)
    requires i < |es| && es[i].body.MadeEffective?
    ensures State(es[..i + 1], es[i].id).status == Effective && Of(es[..i + 1], es[i].id) != []
  {
    EffectiveAfter(db, es, i + 1, es[i].id);
    assert es[..i + 1] == es[..i] + [es[i]];
    OfAppend(es[..i], es[i], es[i].id);
  }

  lemma BothReplayed(db: Db, order: StatementOrder, es: seq<VersionEvent>, k: nat, v: Id, w: Id)
    requires ControlInv(db) && RecordedInOrder(db.log) && Selected(RebuildOrder<Body>, db.log, es) && k < |es|
    requires SameParent(db, v, w)
    requires Of(es[..k + 1], v) != [] && Of(es[..k + 1], w) != []
    requires State(es[..k + 1], v).status == Effective && State(es[..k + 1], w).status == Effective
    requires Flushes(es[k].body)
    ensures RebuildRows(order, es).Failure?
  {
    ReplayedDefinition(db, es, k + 1, v);
    ReplayedDefinition(db, es, k + 1, w);
    var rows := Replayed(es[..k + 1]);
    assert BothEffective(rows, v, w);
    assert !PassesAt(order, es, k);
    RebuildRowsIff(order, es);
  }

  /** If the successor is drafted later, the flush of the supersession is refused. */
  lemma DanglingTrips(db: Db, order: StatementOrder, es: seq<VersionEvent>, s: VersionEvent, d: VersionEvent)
    requires ControlInv(db) && RecordedInOrder(db.log) && Selected(RebuildOrder<Body>, db.log, es)
    requires Dangles(db.log, s, d)
    ensures RebuildRows(order, es).Failure?
  {
    assert s in multiset(db.log);
    var k := IndexOf(es, s);
    NotYetDrafted(db, es, k, d);
    ReplayedDefinition(db, es, k + 1, d.id);
    assert !PassesAt(order, es, k);
    RebuildRowsIff(order, es);
  }

  lemma NotYetDrafted(db: Db, es: seq<VersionEvent>, k: nat, d: VersionEvent)
    requires ControlInv(db) && RecordedInOrder(db.log) && Selected(RebuildOrder<Body>, db.log, es)
    requires k < |es| && Dangles(db.log, es[k], d)
    ensures Of(es[..k + 1], d.id) == []
  {
    var w := d.id;
    InOrderIsUnique(db.log);
    UniquePermuted(db.log, es);
    SortedKeepsHistories(db.log, es, w);
    OfPrefix(es, k + 1, w);
    if Of(es[..k + 1], w) != [] {
      DraftIsFirst(db, d);
      var j := OfIndex(es[..k + 1], w, 0);
      EarlierIndex(es, k, j);
    }
  }

  lemma DraftIsFirst(db: Db, d: VersionEvent)
    requires ControlInv(db) && d in db.log && d.body.Drafted?
    ensures Of(db.log, d.id) != [] && Of(db.log, d.id)[0] == d && d.id in db.versions
  {
    OfMember(db.log, d.id, d);
    if d.id !in db.versions {
      NoEvents(db.log, d.id, Parents(db.versions));
    } else {
      assert RootedAt(db, d.id);
    }
  }

  /** A version that supersedes another has become effective, so it was drafted. */
  lemma SuccessorIsDrafted(db: Db, m: nat) returns (d: VersionEvent)
    requires ControlInv(db) && m < |db.log| && db.log[m].body.SupersededBy?
    ensures d in db.log && d.id == db.log[m].body.successor && d.body.Drafted? && d.id in db.versions
  {
    var w := db.log[m].body.successor;
    assert ClosedAt(db.log, m);
    assert PermittedAt(db.log, m + 1, Parents(db.versions));
    assert RootedAt(db, w);
    d := Of(db.log, w)[0];
    OfMember(db.log, w, d);
  }

  lemma TripMeansDangling(db: Db, es: seq<VersionEvent>, k: nat)
    requires ControlInv(db) && RecordedInOrder(db.log) && Selected(RebuildOrder<Body>, db.log, es)
    requires k < |es| && es[k].body.SupersededBy?
    requires es[k].body.successor !in Replayed(es[..k + 1])
    ensures Dangling(db)
  {
    assert es[k] in multiset(es);
    var m := IndexOf(db.log, es[k]);
    var d := SuccessorIsDrafted(db, m);
    ReplayedDefinition(db, es, k + 1, d.id);
    assert d in multiset(db.log);
    var j := IndexOf(es, d);
    if j <= k {
      OfAt(es, j, k + 1);
    }
    InOrderIsUnique(db.log);
    UniquePermuted(db.log, es);
    EarlierIndex(es, k, j);
    assert Dangles(db.log, es[k], d);
  }

  /** With recorded times in order, a draft comes first and every other event finds its row. */
  lemma RowIsThere(db: Db, es: seq<VersionEvent>, k: nat)
    requires ControlInv(db) && RecordedInOrder(db.log) && Selected(RebuildOrder<Body>, db.log, es) && k < |es|
    ensures RowFits(Replayed(es[..k]), es[k])
  {
    var v := es[k].id;
    ReplayedDefinition(db, es, k, v);
    SortedKeepsHistories(db.log, es, v);
    assert es[..|es|] == es;
    OfAt(es, k, |es|);
    if v in db.versions {
      assert RootedAt(db, v);
    } else {
      NoEvents(db.log, v, Parents(db.versions));
    }
  }

  /** Two ends of one version are the same event. */
  lemma OnlyEnd(db: Db, es: seq<VersionEvent>, i: nat, j: nat, v: Id)
    requires ControlInv(db) && RecordedInOrder(db.log) && Selected(RebuildOrder<Body>, db.log, es)
    requires i < j < |es| && es[i].id == v && es[j].id == v
    ensures !IsEnd(es[i], v)
  {
    EffectiveAfter(db, es, |es|, v);
    assert es[..|es|] == es;
    OfAt(es, i, |es|);
    OfAt(es, j, |es|);
    OfAt(es, i, j);
    if IsEnd(es[i], v) {
      TerminalIsLast(Of(es, v), |Of(es[..i], v)|);
    }
  }

  /** What follows in a history that was in force and no longer is. */
  lemma ForceEnded(seen: seq<VersionEvent>, p: nat)
    requires Legal(seen) && 0 < p <= |seen| && seen[p - 1].body.MadeEffective? && After(seen).status != Effective
    ensures p < |seen| && (seen[p].body.SupersededBy? || seen[p].body.WithdrawnFor?)
  {
    EffectiveStory(seen, p - 1);
    LastStatus(seen);
  }

  /** What was withdrawn after the last flush, while the database still has it in force. */
  lemma WithdrawnSince(es: seq<VersionEvent>, m: nat, k: nat, v: Id) returns (i: nat)
    requires m <= k < |es| && es[k].id != v && forall j :: m <= j < k ==> !Flushes(es[j].body)
    requires Legal(Of(es[..k + 1], v)) && State(es[..k + 1], v).status != Effective
    requires Of(es[..m], v) != [] && Of(es[..m], v)[|Of(es[..m], v)| - 1].body.MadeEffective?
    ensures m <= i < k && es[i].id == v && es[i].body.WithdrawnFor?
  {
    i := EndedSince(es, m, k + 1, v);
  }

  lemma EndedSince(es: seq<VersionEvent>, m: nat, n: nat, v: Id) returns (i: nat)
    requires m <= n <= |es| && Legal(Of(es[..n], v)) && State(es[..n], v).status != Effective
    requires Of(es[..m], v) != [] && Of(es[..m], v)[|Of(es[..m], v)| - 1].body.MadeEffective?
    ensures m <= i < n && IsEnd(es[i], v)
  {
    assert es[..n][..m] == es[..m];
    OfPrefix(es[..n], m, v);
    ForceEnded(Of(es[..n], v), |Of(es[..m], v)|);
    i := NextOf(es, m, n, v);
  }

  /** The first event of an aggregate after the first `m` of the log. */
  lemma NextOf(es: seq<VersionEvent>, m: nat, n: nat, v: Id) returns (i: nat)
    requires m <= n <= |es| && |Of(es[..m], v)| < |Of(es[..n], v)|
    ensures m <= i < n && es[i] == Of(es[..n], v)[|Of(es[..m], v)|] && es[i].id == v
  {
    var p := |Of(es[..m], v)|;
    i := OfIndex(es[..n], v, p);
    assert es[..n][..i] == es[..i];
    if i < m {
      OfAt(es, i, m);
    }
  }

  /** If a start may be written before a version that the database has in force, the two are batched. */
  lemma TripMeansBatched(db: Db, order: StatementOrder, es: seq<VersionEvent>, k: nat, v: Id)
    requires ControlInv(db) && RecordedInOrder(db.log) && Selected(RebuildOrder<Body>, db.log, es)
    requires k < |es| && es[k].body.MadeEffective? && OneEffectivePerPolicy(Replayed(es[..k + 1]))
    requires StartsFirst(order, Flushed(es[..k]), Replayed(es[..k + 1]), es[k].id, v)
    ensures Batched(db, order)
  {
    var m, w := FlushedUpTo(es[..k]), es[k].id;
    assert es[..k][..m] == es[..m];
    ReplayedDefinition(db, es, m, v);
    ReplayedDefinition(db, es, k + 1, v);
    ReplayedDefinition(db, es, k + 1, w);
    assert es[..k + 1][..m] == es[..m];
    OfPrefix(es[..k + 1], m, v);
    assert !BothEffective(Replayed(es[..k + 1]), v, w);
    forall j | m <= j < k ensures !Flushes(es[j].body) {
      assert es[..k][j] == es[j];
    }
    EffectiveAfter(db, es, m, v);
    EffectiveAfter(db, es, k + 1, v);
    var i := WithdrawnSince(es, m, k, v);
    var a := BeganAt(db, es, m, v);
    BatchAt(db, order, es, a, i, k, m);
  }

  lemma BatchAt(db: Db, order: StatementOrder, es: seq<VersionEvent>, a: nat, i: nat, k: nat, m: nat)
    requires ControlInv(db) && RecordedInOrder(db.log) && Selected(RebuildOrder<Body>, db.log, es)
    requires a < m <= i < k < |es| && forall j :: m <= j < k ==> !Flushes(es[j].body)
    requires es[a].id == es[i].id && es[a].body.MadeEffective? && es[i].body.WithdrawnFor? && es[k].body.MadeEffective?
    requires SameParent(db, es[i].id, es[k].id) && (order == ByKey ==> es[k].id < es[i].id)
    ensures Batched(db, order)
  {
    InOrderIsUnique(db.log);
    UniquePermuted(db.log, es);
    EarlierIndex(es, i, k);
    assert es[a] in multiset(es) && es[i] in multiset(es) && es[k] in multiset(es);
    var began := IndexOf(db.log, es[a]);
    assert BecameEffective(db.log, es[i].id, began);
    forall x | 0 <= x < |db.log| && Flushes(db.log[x].body)
      ensures !(Earlier(es[i], db.log[x]) && Earlier(db.log[x], es[k]))
    {
      assert db.log[x] in multiset(db.log);
      var j := IndexOf(es, db.log[x]);
      EarlierIndex(es, i, j);
      EarlierIndex(es, j, k);
    }
    assert Batches(order, db.log, es[i], es[k]);
  }

  /** Where a batched pair stands in the replay, and that no flush lies between. */
  lemma BatchIndices(db: Db, order: StatementOrder, es: seq<VersionEvent>, z: VersionEvent, b: VersionEvent)
    returns (a: nat, i: nat, k: nat)
    requires ControlInv(db) && RecordedInOrder(db.log) && Selected(RebuildOrder<Body>, db.log, es)
    requires Batches(order, db.log, z, b)
    ensures a < i < k < |es| && es[i] == z && es[k] == b && es[a].id == z.id && es[a].body.MadeEffective?
    ensures forall j :: i <= j < k ==> !Flushes(es[j].body)
  {
    InOrderIsUnique(db.log);
    UniquePermuted(db.log, es);
    assert z in multiset(db.log) && b in multiset(db.log);
    i := IndexOf(es, z);
    k := IndexOf(es, b);
    EarlierIndex(es, i, k);
    var began: nat :| BecameEffective(db.log, z.id, began);
    assert db.log[began] in multiset(db.log);
    a := IndexOf(es, db.log[began]);
    if i < a {
      OnlyEnd(db, es, i, a, z.id);
    }
    forall j | i <= j < k ensures !Flushes(es[j].body) {
      assert es[j] in multiset(es);
      var x := IndexOf(db.log, es[j]);
      EarlierIndex(es, i, j);
      EarlierIndex(es, j, k);
    }
  }

  /** A batched pair makes the flush of the start, or an earlier one, fail. */
  lemma BatchedTrips(db: Db, order: StatementOrder, es: seq<VersionEvent>, z: VersionEvent, b: VersionEvent)
    requires ControlInv(db) && RecordedInOrder(db.log) && Selected(RebuildOrder<Body>, db.log, es)
    requires Batches(order, db.log, z, b) && SameParent(db, z.id, b.id)
    ensures RebuildRows(order, es).Failure?
  {
    var a, i, k := BatchIndices(db, order, es, z, b);
    var m := FlushedUpTo(es[..k]);
    BatchFlushed(es, a, i, k);
    StillInForce(db, es, a, m, i);
    JustEffective(db, es, k);
    assert es[..k][..m] == es[..m];
    ReplayedDefinition(db, es, m, z.id);
    ReplayedDefinition(db, es, k + 1, b.id);
    assert StartsFirst(order, Flushed(es[..k]), Replayed(es[..k + 1]), b.id, z.id);
    StartingFirstTrips(order, es, k, z.id);
  }

  lemma BatchFlushed(es: seq<VersionEvent>, a: nat, i: nat, k: nat)
    requires a < i < k < |es| && Flushes(es[a].body) && forall j :: i <= j < k ==> !Flushes(es[j].body)
    ensures a < FlushedUpTo(es[..k]) <= i
  {
    var front := es[..k];
    assert forall j :: 0 <= j < k ==> front[j] == es[j];
    FlushIsCovered(front, a);
  }

  lemma FlushIsCovered(es: seq<VersionEvent>, a: nat)
    requires a < |es| && Flushes(es[a].body)
    ensures a < FlushedUpTo(es)
  {
  }

  lemma StillInForce(db: Db, es: seq<VersionEvent>, a: nat, m: nat, i: nat)
    requires ControlInv(db) && RecordedInOrder(db.log) && Selected(RebuildOrder<Body>, db.log, es)
    requires a < m <= i < |es| && es[a].id == es[i].id && es[a].body.MadeEffective?
    ensures State(es[..m], es[a].id).status == Effective && Of(es[..m], es[a].id) != []
  {
    var v := es[a].id;
    forall j | 0 <= j < m ensures !IsEnd(es[j], v) {
      if es[j].id == v {
        OnlyEnd(db, es, j, i, v);
      }
    }
    StillEffective(db, es, m, v, a);
    OfAt(es, a, m);
  }

  lemma StartingFirstTrips(order: StatementOrder, es: seq<VersionEvent>, k: nat, v: Id)
    requires k < |es| && es[k].body.MadeEffective?
    requires StartsFirst(order, Flushed(es[..k]), Replayed(es[..k + 1]), es[k].id, v)
    ensures RebuildRows(order, es).Failure?
  {
    RebuildRowsIff(order, es);
    if AllPass(order, es) {
      assert PassesAt(order, es, k);
      AtFlush(es, k);
      PassedFlushed(order, es, k);
      FlushIff(order, Flushed(es[..k]), Replayed(es[..k + 1]), es[k].id);
    }
  }

  /** If a flush is refused, some pair crosses, some successor dangles, or some pair is batched. */
  lemma TripHasCause(db: Db, order: StatementOrder, es: seq<VersionEvent>, k: nat)
    requires ControlInv(db) && RecordedInOrder(db.log) && Selected(RebuildOrder<Body>, db.log, es)
    requires k < |es| && !PassesAt(order, es, k)
    ensures Crossing(db) || Dangling(db) || Batched(db, order)
  {
    var m, rows := FlushedUpTo(es[..k]), Replayed(es[..k + 1]);
    assert es[..k][..m] == es[..m];
    RowIsThere(db, es, k);
    if !OneEffectivePerPolicy(rows) {
      var v, w :| BothEffective(rows, v, w);
      BothMeansCrossing(db, es, k + 1, v, w);
    } else if !OneEffectivePerPolicy(Flushed(es[..k])) {
      var v, w :| BothEffective(Flushed(es[..k]), v, w);
      BothMeansCrossing(db, es, m, v, w);
    } else if IndexHolds(order, Flushed(es[..k]), rows) {
      TripMeansDangling(db, es, k);
    } else {
      AtFlush(es, k);
      if es[k].body.MadeEffective? {
        FlushIff(order, Flushed(es[..k]), rows, es[k].id);
        var v :| StartsFirst(order, Flushed(es[..k]), rows, es[k].id, v);
        TripMeansBatched(db, order, es, k, v);
      } else {
        QuietFlushPasses(order, Flushed(es[..k]), rows);
      }
    }
  }

  lemma BothMeansCrossing(db: Db, es: seq<VersionEvent>, k: nat, v: Id, w: Id)
    requires ControlInv(db) && RecordedInOrder(db.log) && Selected(RebuildOrder<Body>, db.log, es) && k <= |es|
    requires BothEffective(Replayed(es[..k]), v, w)
    ensures Crossing(db)
  {
    ReplayedDefinition(db, es, k, v);
    ReplayedDefinition(db, es, k, w);
    var i := BeganAt(db, es, k, v);
    var j := BeganAt(db, es, k, w);
    if i < j {
      PairCrosses(db, es, k, v, i, j);
    } else {
      PairCrosses(db, es, k, w, j, i);
    }
  }

  lemma BeganAt(db: Db, es: seq<VersionEvent>, k: nat, v: Id) returns (i: nat)
    requires ControlInv(db) && RecordedInOrder(db.log) && Selected(RebuildOrder<Body>, db.log, es) && k <= |es|
    requires State(es[..k], v).status == Effective
    ensures i < k && es[i].id == v && es[i].body.MadeEffective?
  {
    EffectiveAfter(db, es, k, v);
    i := OfIndex(es[..k], v, |Of(es[..k], v)| - 1);
  }

  lemma PairCrosses(db: Db, es: seq<VersionEvent>, k: nat, v: Id, i: nat, j: nat)
    requires ControlInv(db) && RecordedInOrder(db.log) && Selected(RebuildOrder<Body>, db.log, es)
    requires i < j < k <= |es| && es[i].id == v && es[i].body.MadeEffective? && es[j].body.MadeEffective?
    requires State(es[..k], v).status == Effective
    ensures Crosses(db.log, es[i], es[j])
  {
    InOrderIsUnique(db.log);
    UniquePermuted(db.log, es);
    EarlierIndex(es, i, j);
    assert es[i] in multiset(es) && es[j] in multiset(es);
    forall m | 0 <= m < |db.log| && IsEnd(db.log[m], v) ensures Earlier(es[j], db.log[m]) {
      assert db.log[m] in multiset(db.log);
      var p := IndexOf(es, db.log[m]);
      if p < k {
        EndedIsNotEffective(db, es, k, v, p);
      }
      EarlierIndex(es, j, p);
    }
  }

  lemma EndedIsNotEffective(db: Db, es: seq<VersionEvent>, k: nat, v: Id, p: nat)
    requires ControlInv(db) && RecordedInOrder(db.log) && Selected(RebuildOrder<Body>, db.log, es)
    requires p < k <= |es| && IsEnd(es[p], v)
    ensures State(es[..k], v).status != Effective
  {
    EffectiveAfter(db, es, k, v);
    OfAt(es, p, k);
    TerminalIsLast(Of(es[..k], v), |Of(es[..p], v)|);
  }

  /** What an accepted replay has flushed satisfies the index. */
  lemma PassedFlushed(order: StatementOrder, es: seq<VersionEvent>, k: nat)
    requires k <= |es| && AllPass(order, es)
    ensures OneEffectivePerPolicy(Flushed(es[..k]))
  {
    var m := FlushedUpTo(es[..k]);
    assert es[..k][..m] == es[..m];
    if m > 0 {
      assert es[..k][m - 1] == es[m - 1];
      assert PassesAt(order, es, m - 1);
    }
  }

  /** The commit's own flush is never what fails. */
  lemma RebuildRowsIff(order: StatementOrder, es: seq<VersionEvent>)
    ensures RebuildRows(order, es).Success? <==> AllPass(order, es)
    ensures RebuildRows(order, es).Success? ==> RebuildRows(order, es).value == Replayed(es)
  {
    ReplayFlushingIff(order, es);
    if AllPass(order, es) {
      PassedFlushed(order, es, |es|);
      assert es[..|es|] == es;
      SinceFlush(es);
      QuietFlushPasses(order, Flushed(es), Replayed(es));
    }
  }

  /**
   Exactly when the rebuild succeeds, for every reachable log whose recorded times do not fall along
   any version's history; it then restores the table.
   */
  lemma RebuildSucceedsIff(db: Db, order: StatementOrder, es: seq<VersionEvent>)
    requires ControlInv(db) && RecordedInOrder(db.log) && Selected(RebuildOrder<Body>, db.log, es)
    ensures RebuildRows(order, es).Success? <==> !Crossing(db) && !Dangling(db) && !Batched(db, order)
    ensures RebuildRows(order, es).Success? ==> RebuildRows(order, es).value == db.versions
  {
    RebuildRowsIff(order, es);
    if Crossing(db) {
      var a, b :| Crosses(db.log, a, b) && SameParent(db, a.id, b.id);
      CrossingTrips(db, order, es, a, b);
    } else if Dangling(db) {
      var s, d :| Dangles(db.log, s, d);
      DanglingTrips(db, order, es, s, d);
    } else if Batched(db, order) {
      var z, b :| Batches(order, db.log, z, b) && SameParent(db, z.id, b.id);
      BatchedTrips(db, order, es, z, b);
    } else if RebuildRows(order, es).Failure? {
      var k :| 0 <= k < |es| && !PassesAt(order, es, k);
      TripHasCause(db, order, es, k);
    } else {
      RebuildRestoresDefinitions(db, es);
    }
  }

  lemma RunRebuildSucceedsIff(cmds: seq<ControlCommand>, order: StatementOrder, es: seq<VersionEvent>)
    requires RecordedInOrder(RunControl(cmds).log) && Selected(RebuildOrder<Body>, RunControl(cmds).log, es)
    ensures RebuildRows(order, es).Success? <==>
      !Crossing(RunControl(cmds)) && !Dangling(RunControl(cmds)) && !Batched(RunControl(cmds), order)
    ensures RebuildRows(order, es).Success? ==> RebuildRows(order, es).value == RunControl(cmds).versions
  {
    RunControlInv(cmds);
    RebuildSucceedsIff(RunControl(cmds), order, es);
  }

  lemma RebuildRestoresDefinitions(db: Db, es: seq<VersionEvent>)
    requires ControlInv(db) && RecordedInOrder(db.log) && Selected(RebuildOrder<Body>, db.log, es)
    ensures ProjectAll(ProjectDefinition, map[], es) == db.versions
  {
    var rows := ProjectAll(ProjectDefinition, map[], es);
    assert es[..|es|] == es;
    forall v ensures Lookup(rows, v) == Lookup(db.versions, v) {
      ReplayedDefinition(db, es, |es|, v);
      SortedKeepsHistories(db.log, es, v);
      assert v in db.versions ==> RowIsLive(db, v) && RootedAt(db, v);
    }
    SameTable(rows, db.versions);
  }

  /******* What suffices, and what does not *******/

  /** Whatever ended a version was recorded strictly before any later version of the control began. */
  ghost predicate Separated(log: seq<VersionEvent>, parent: map<Id, Id>) {
    forall s, k ::
      (0 <= s < k < |log| && log[k].body.MadeEffective? && IsEnd(log[s], log[s].id) &&
       log[s].id in parent && log[k].id in parent && parent[log[s].id] == parent[log[k].id])
      ==> log[s].recordedAt < log[k].recordedAt
  }

  /** A version was drafted strictly before it superseded another. */
  ghost predicate DraftedBefore(log: seq<VersionEvent>) {
    forall d, s :: 0 <= d < s < |log| && log[d].body.Drafted? && log[s].body == SupersededBy(log[d].id) ==>
      log[d].recordedAt < log[s].recordedAt
  }

  /** Position `f` holds an event that flushes, recorded strictly between the other two. */
  ghost predicate FlushesBetween(log: seq<VersionEvent>, z: int, f: int, k: int) {
    0 <= z < f < k < |log| && Flushes(log[f].body) &&
    log[z].recordedAt < log[f].recordedAt < log[k].recordedAt
  }

  /** Between the withdrawal of a version in force and a later start of the control, something was flushed. */
  ghost predicate WithdrawalsFlushed(log: seq<VersionEvent>, parent: map<Id, Id>) {
    forall z, k {:trigger WithdrawnInForce(log, z), log[k].body} ::
      (0 <= z < k < |log| && WithdrawnInForce(log, z) && log[k].body.MadeEffective? &&
       log[z].id in parent && log[k].id in parent && parent[log[z].id] == parent[log[k].id])
      ==> exists f :: FlushesBetween(log, z, f, k)
  }

  ghost predicate WithdrawnInForce(log: seq<VersionEvent>, z: int)
    requires 0 <= z < |log|
  {
    log[z].body.WithdrawnFor? && State(log[..z], log[z].id).status == Effective
  }

  /**
   It suffices to separate the recorded times of the end of one version and the start of the next, and of
   a draft and the supersession it leads to, and to have a flush between a withdrawal and the next start.
   */
  lemma SeparationSuffices(db: Db, order: StatementOrder)
    requires ControlInv(db) && RecordedInOrder(db.log) && DraftedBefore(db.log)
    requires Separated(db.log, Parents(db.versions)) && WithdrawalsFlushed(db.log, Parents(db.versions))
    ensures !Crossing(db) && !Dangling(db) && !Batched(db, order)
  {
    var parents := Parents(db.versions);
    forall a: VersionEvent, b: VersionEvent | SameParent(db, a.id, b.id) ensures !Crosses(db.log, a, b) {
      SeparatedPair(db.log, parents, a, b);
    }
    forall s, d ensures !Dangles(db.log, s, d) {
      DraftedPair(db, s, d);
    }
    forall z: VersionEvent, b: VersionEvent | SameParent(db, z.id, b.id) ensures !Batches(order, db.log, z, b) {
      FlushedPair(db.log, parents, order, z, b);
    }
  }

  /** A withdrawal of a version that became effective found it in force. */
  lemma WithdrawnFromForce(log: seq<VersionEvent>, parent: map<Id, Id>, a: nat, z: nat)
    requires Disciplined(log, parent) && a < |log| && z < |log| && log[a].id == log[z].id
    requires log[a].body.MadeEffective? && log[z].body.WithdrawnFor?
    ensures a < z && WithdrawnInForce(log, z)
    ensures forall s :: a < s < z ==> log[s].id != log[z].id
  {
    var v := log[z].id;
    var es, p, q := Of(log, v), |Of(log[..a], v)|, |Of(log[..z], v)|;
    DisciplinedLegal(log, parent, v);
    assert log[..|log|] == log;
    OfAt(log, a, |log|);
    OfAt(log, z, |log|);
    EffectiveStory(es, p);
    TerminalIsLast(es, q);
    if z < a {
      OfAt(log, z, a);
    } else {
      OfAt(log, a, z);
    }
    OfPrefix(log, z, v);
    LegalPrefix(es, q);
    assert es[..q] == Of(log[..z], v);
    LastStatus(es[..q]);
    forall s | a < s < z ensures log[s].id != v {
      if log[s].id == v {
        OfAt(log, a, s);
        OfAt(log, s, z);
      }
    }
  }

  lemma BetweenInReplay(log: seq<VersionEvent>, z: int, f: int, k: int)
    requires FlushesBetween(log, z, f, k)
    ensures Earlier(log[z], log[f]) && Earlier(log[f], log[k])
  {
  }

  lemma FlushedPair(log: seq<VersionEvent>, parent: map<Id, Id>, order: StatementOrder, z: VersionEvent,
      b: VersionEvent)
    requires Disciplined(log, parent) && RecordedInOrder(log) && Separated(log, parent)
    requires WithdrawalsFlushed(log, parent)
    requires z.id != b.id && z.id in parent && b.id in parent && parent[z.id] == parent[b.id]
    ensures !Batches(order, log, z, b)
  {
    if Batches(order, log, z, b) {
      var kz :| 0 <= kz < |log| && log[kz] == z;
      var kb :| 0 <= kb < |log| && log[kb] == b;
      var ka: nat :| BecameEffective(log, z.id, ka);
      WithdrawnFromForce(log, parent, ka, kz);
      if kz < kb {
        assert log[kb].body.MadeEffective? && WithdrawnInForce(log, kz);
        var f :| FlushesBetween(log, kz, f, kb);
        BetweenInReplay(log, kz, f, kb);
      } else if ka < kb {
        var s := EndedBefore(log, parent, z.id, b.id, ka, kb);
      } else {
        var s := EndedBefore(log, parent, b.id, z.id, kb, ka);
        TimeAlong(log, ka, kz);
        TimeAlong(log, kb, s);
        EndBeforeStart(log, parent, s, ka);
      }
    }
  }

  /** In append order a version is drafted before it supersedes another. */
  lemma DraftPrecedes(db: Db, ks: nat, d: VersionEvent) returns (kd: nat)
    requires ControlInv(db) && ks < |db.log| && d in db.log && d.body.Drafted?
    requires db.log[ks].body == SupersededBy(d.id)
    ensures kd < ks && db.log[kd] == d
  {
    DraftIsFirst(db, d);
    assert ClosedAt(db.log, ks);
    kd := OfIndex(db.log, d.id, 0);
    if ks < kd {
      SomethingBefore(db.log, ks + 1, kd);
    }
  }

  lemma SomethingBefore(log: seq<VersionEvent>, i: nat, k: nat)
    requires i <= k < |log| && log[i].id == log[k].id && Of(log[..k], log[k].id) == []
    ensures i == k
  {
    if i < k {
      OfAt(log, i, k);
    }
  }

  lemma DraftedPair(db: Db, s: VersionEvent, d: VersionEvent)
    requires ControlInv(db) && DraftedBefore(db.log)
    ensures !Dangles(db.log, s, d)
  {
    if Dangles(db.log, s, d) {
      var ks :| 0 <= ks < |db.log| && db.log[ks] == s;
      var kd := DraftPrecedes(db, ks, d);
    }
  }

  lemma TimeAlong(log: seq<VersionEvent>, i: nat, j: nat)
    requires RecordedInOrder(log) && i < j < |log| && log[i].id == log[j].id
    ensures log[i].recordedAt <= log[j].recordedAt
  {
    assert InTime(log, i, j);
  }

  lemma EndBeforeStart(log: seq<VersionEvent>, parent: map<Id, Id>, s: nat, k: nat)
    requires Separated(log, parent) && s < k < |log| && log[k].body.MadeEffective? && IsEnd(log[s], log[s].id)
    requires log[s].id in parent && log[k].id in parent && parent[log[s].id] == parent[log[k].id]
    ensures log[s].recordedAt < log[k].recordedAt && Earlier(log[s], log[k])
  {
  }

  lemma SeparatedPair(log: seq<VersionEvent>, parent: map<Id, Id>, a: VersionEvent, b: VersionEvent)
    requires Disciplined(log, parent) && RecordedInOrder(log) && Separated(log, parent)
    requires a.id != b.id && a.id in parent && b.id in parent && parent[a.id] == parent[b.id]
    ensures !Crosses(log, a, b)
  {
    if Crosses(log, a, b) {
      var ka :| 0 <= ka < |log| && log[ka] == a;
      var kb :| 0 <= kb < |log| && log[kb] == b;
      if ka < kb {
        var s := EndedBefore(log, parent, a.id, b.id, ka, kb);
        EndBeforeStart(log, parent, s, kb);
      } else {
        var s := EndedBefore(log, parent, b.id, a.id, kb, ka);
        TimeAlong(log, kb, s);
        EndBeforeStart(log, parent, s, ka);
      }
    }
  }

  /**
   An end and a start recorded at the same time cross whenever the later version's id sorts first.
   That goes for a withdrawal as well as for a supersession: separating only the times of the
   supersede/effective pairs is not enough.
   */
  lemma TiedTimesCross(db: Db, k: nat, s: nat, t: nat)
    requires ControlInv(db) && s < t < |db.log| && IsEnd(db.log[s], db.log[s].id)
    requires BecameEffective(db.log, db.log[s].id, k) && db.log[k].recordedAt < db.log[s].recordedAt
    requires db.log[t].body.MadeEffective? && db.log[s].recordedAt == db.log[t].recordedAt
    requires db.log[t].id < db.log[s].id
    ensures Crosses(db.log, db.log[k], db.log[t])
  {
    var v := db.log[s].id;
    DisciplinedLegal(db.log, Parents(db.versions), v);
    assert db.log[..|db.log|] == db.log;
    forall i | 0 <= i < |db.log| && IsEnd(db.log[i], v) ensures db.log[i] == db.log[s] {
      OfAt(db.log, i, |db.log|);
      OfAt(db.log, s, |db.log|);
      TerminalIsLast(Of(db.log, v), |Of(db.log[..i], v)|);
      TerminalIsLast(Of(db.log, v), |Of(db.log[..s], v)|);
    }
  }

  /**
   From every reachable state in which a version is effective: making another version of the control
   effective, with both clock readings equal and an id that sorts first, leaves a log that no rebuild
   can replay.
   */
  lemma TiedReadingsBreakRebuild(db: Db, v: Id, w: Id, actor: Option<Id>, at: Time) returns (after: Db)
    requires ControlInv(db) && v in db.versions && w in db.versions && db.versions[v].owner == db.versions[w].owner
    requires db.versions[v].lifecycle.status == Effective && db.versions[w].lifecycle.status == Approved
    requires w < v && db.versions[v].lifecycle.effectiveAt.Some? && db.versions[v].lifecycle.effectiveAt.value < at
    ensures Exec(db, MakeEffective(w, actor, at, at)) == Success(after)
    ensures Crossing(after)
    ensures forall order, es :: Selected(RebuildOrder<Body>, after.log, es) && RecordedInOrder(after.log) ==>
              RebuildRows(order, es).Failure?
  {
    MakeEffectiveSucceeds(db, w, actor, at, at);
    EffectiveKeepsRoots(db, w, actor, at, at);
    after := ExecMakeEffective(db, w, actor, at, at).value;
    var a, s := TiedPair(db, v, w, actor, at);
    TiedTimesCross(after, a, s, s + 1);
    forall order, es | Selected(RebuildOrder<Body>, after.log, es) && RecordedInOrder(after.log)
      ensures RebuildRows(order, es).Failure?
    {
      CrossingTrips(after, order, es, after.log[a], after.log[s + 1]);
    }
  }

  lemma TiedPair(db: Db, v: Id, w: Id, actor: Option<Id>, at: Time) returns (a: nat, s: nat)
    requires ControlInv(db) && v in db.versions && w in db.versions && db.versions[v].owner == db.versions[w].owner
    requires db.versions[v].lifecycle.status == Effective && db.versions[w].lifecycle.status == Approved
    requires db.versions[v].lifecycle.effectiveAt.Some? && db.versions[v].lifecycle.effectiveAt.value < at
    requires ExecMakeEffective(db, w, actor, at, at).Success?
    ensures var after := ExecMakeEffective(db, w, actor, at, at).value;
      && a < s < s + 1 < |after.log| && BecameEffective(after.log, v, a) && after.log[a].recordedAt < at
      && after.log[s].id == v && after.log[s].body.SupersededBy? && after.log[s].recordedAt == at
      && after.log[s + 1].id == w && after.log[s + 1].body.MadeEffective? && after.log[s + 1].recordedAt == at
      && v in after.versions && w in after.versions && after.versions[v].owner == after.versions[w].owner
  {
    LiveOneEffective(db);
    var previous := PreviousEffective(db.versions, w);
    assert IsOtherEffective(db.versions, w, v);
    assert !BothEffective(db.versions, v, previous.value);
    AppendRow(db, NewEvent(db.log, v, SupersededBy(w), None, actor, at));
    var mid := AfterSupersede(db, w, actor, at);
    AppendRow(mid, NewEvent(mid.log, w, MadeEffective, None, actor, at));
    assert RowIsLive(db, v);
    DisciplinedLegal(db.log, Parents(db.versions), v);
    var j := EffectiveEvent(Of(db.log, v));
    a := OfIndex(db.log, v, j);
    s := |db.log|;
  }

  /**
   From every reachable state in which a version is effective: drafting, approving and making effective
   another version of the control under one clock reading leaves a log that no rebuild can replay, if the
   new id sorts last: the supersession is replayed before the draft of the version that it names.
   */
  lemma TiedDraftDangles(db: Db, v: Id, w: Id, actor: Option<Id>, at: Time) returns (ready: Db, after: Db)
    requires ControlInv(db) && v in db.versions && db.versions[v].lifecycle.status == Effective
    requires w !in db.versions && v < w
    ensures var control := db.versions[v].owner;
      && ExecControl(db, DraftVersion(w, control, actor, at)).Success?
      && var drafted := ExecControl(db, DraftVersion(w, control, actor, at)).value;
      && Exec(drafted, Submit(w, actor, at)).Success?
      && var submitted := Exec(drafted, Submit(w, actor, at)).value;
      && Exec(submitted, Review(w, "approved", "", actor, at)) == Success(ready)
      && Exec(ready, MakeEffective(w, actor, at, at)) == Success(after)
    ensures Dangling(after)
    ensures forall order, es :: Selected(RebuildOrder<Body>, after.log, es) && RecordedInOrder(after.log) ==>
              RebuildRows(order, es).Failure?
  {
    ready := TiedApproval(db, v, w, actor, at);
    MakeEffectiveSucceeds(ready, w, actor, at, at);
    EffectiveKeepsRoots(ready, w, actor, at, at);
    after := ExecMakeEffective(ready, w, actor, at, at).value;
    var s := SupersedesIt(ready, v, w, actor, at);
    var d := ready.log[|db.log|];
    assert d in after.log;
    assert Dangles(after.log, s, d);
    forall order, es | Selected(RebuildOrder<Body>, after.log, es) && RecordedInOrder(after.log)
      ensures RebuildRows(order, es).Failure?
    {
      DanglingTrips(after, order, es, s, d);
    }
  }

  lemma TiedApproval(db: Db, v: Id, w: Id, actor: Option<Id>, at: Time) returns (ready: Db)
    requires ControlInv(db) && v in db.versions && w !in db.versions
    ensures var control := db.versions[v].owner;
      && ExecControl(db, DraftVersion(w, control, actor, at)).Success?
      && var drafted := ExecControl(db, DraftVersion(w, control, actor, at)).value;
      && Exec(drafted, Submit(w, actor, at)).Success?
      && Exec(Exec(drafted, Submit(w, actor, at)).value, Review(w, "approved", "", actor, at)) == Success(ready)
    ensures ControlInv(ready) && db.log < ready.log && v in ready.versions && ready.versions[v] == db.versions[v]
    ensures w in ready.versions && ready.versions[w].owner == db.versions[v].owner
    ensures ready.versions[w].lifecycle.status == Approved
    ensures ready.log[|db.log|].id == w && ready.log[|db.log|].body.Drafted? && ready.log[|db.log|].recordedAt == at
  {
    var control := db.versions[v].owner;
    var e, drafted := DraftResult(db, w, control, actor, at);
    DraftKeepsInv(db, w, control, actor, at);
    var submitted := SubmitDraft(drafted, w, actor, at);
    ready := ApproveSubmitted(submitted, w, actor, at);
    assert drafted.log[|db.log|] == e;
  }

  lemma SubmitDraft(db: Db, w: Id, actor: Option<Id>, at: Time) returns (after: Db)
    requires ControlInv(db) && w in db.versions && db.versions[w].lifecycle.status == Draft
    ensures Exec(db, Submit(w, actor, at)) == Success(after) && ControlInv(after) && db.log < after.log
    ensures w in after.versions && after.versions == db.versions[w := after.versions[w]]
    ensures after.versions[w].owner == db.versions[w].owner && after.versions[w].lifecycle.status == InReview
  {
    var cmd := Submit(w, actor, at);
    var e := NewEvent(db.log, w, SubmittedForReview, None, actor, at);
    after := AppendAndProject(db, e);
    AppendRow(db, e);
    TransitionKeepsRoots(db, cmd);
    ExecKeepsInv(db, cmd);
  }

  lemma ApproveSubmitted(db: Db, w: Id, actor: Option<Id>, at: Time) returns (after: Db)
    requires ControlInv(db) && w in db.versions && db.versions[w].lifecycle.status == InReview
    ensures Exec(db, Review(w, "approved", "", actor, at)) == Success(after) && ControlInv(after) && db.log < after.log
    ensures w in after.versions && after.versions == db.versions[w := after.versions[w]]
    ensures after.versions[w].owner == db.versions[w].owner && after.versions[w].lifecycle.status == Approved
  {
    var cmd := Review(w, "approved", "", actor, at);
    var e := NewEvent(db.log, w, Reviewed("approved", ""), None, actor, at);
    after := AppendAndProject(db, e);
    AppendRow(db, e);
    TransitionKeepsRoots(db, cmd);
    ExecKeepsInv(db, cmd);
  }

  /** Making `w` effective supersedes the one version that was. */
  lemma SupersedesIt(db: Db, v: Id, w: Id, actor: Option<Id>, at: Time) returns (s: VersionEvent)
    requires ControlInv(db) && v in db.versions && w in db.versions && v != w
    requires db.versions[v].owner == db.versions[w].owner && db.versions[v].lifecycle.status == Effective
    requires ExecMakeEffective(db, w, actor, at, at).Success?
    ensures var after := ExecMakeEffective(db, w, actor, at, at).value;
      s in after.log && db.log <= after.log && s.id == v && s.body == SupersededBy(w) && s.recordedAt == at
  {
    LiveOneEffective(db);
    var previous := PreviousEffective(db.versions, w);
    assert IsOtherEffective(db.versions, w, v);
    assert !BothEffective(db.versions, v, previous.value);
    s := NewEvent(db.log, v, SupersededBy(w), None, actor, at);
    var after := ExecMakeEffective(db, w, actor, at, at).value;
    assert after.log[|db.log|] == s;
  }

  /**
   From every reachable state in which a version is effective and another one of the control, with a
   smaller id, approved: withdrawing the first and then making the second effective, with strictly rising
   clock readings, leaves a log that no rebuild can replay.
   */
  lemma WithdrawalThenStartIsBatched(db: Db, v: Id, w: Id, actor: Option<Id>, t: Time, u: Time)
    returns (withdrawn: Db, after: Db)
    requires ControlInv(db) && SameParent(db, v, w) && w < v && t < u
    requires db.versions[v].lifecycle.status == Effective && db.versions[w].lifecycle.status == Approved
    requires forall i :: 0 <= i < |db.log| ==> db.log[i].recordedAt < t
    ensures Exec(db, Withdraw(v, "", actor, None, t)) == Success(withdrawn)
    ensures Exec(withdrawn, MakeEffective(w, actor, u, u)) == Success(after)
    ensures ClockOrdered(db.log) ==> ClockOrdered(after.log)
    ensures Batched(after, ByKey)
    ensures forall order, es :: Selected(RebuildOrder<Body>, after.log, es) && RecordedInOrder(after.log) ==>
              RebuildRows(order, es).Failure?
  {
    var z, b, k;
    withdrawn, after, z, b, k := WithdrawThenStart(db, v, w, actor, t, u);
    LastTwoBatch(ByKey, db.log, z, b, k);
    ClockStaysOrdered(db.log, z, b);
    forall order, es | Selected(RebuildOrder<Body>, after.log, es) && RecordedInOrder(after.log)
      ensures RebuildRows(order, es).Failure?
    {
      LastTwoBatch(order, db.log, z, b, k);
      BatchedTrips(after, order, es, z, b);
    }
  }

  lemma WithdrawThenStart(db: Db, v: Id, w: Id, actor: Option<Id>, t: Time, u: Time)
    returns (withdrawn: Db, after: Db, z: VersionEvent, b: VersionEvent, k: nat)
    requires ControlInv(db) && SameParent(db, v, w)
    requires db.versions[v].lifecycle.status == Effective && db.versions[w].lifecycle.status == Approved
    ensures Exec(db, Withdraw(v, "", actor, None, t)) == Success(withdrawn)
    ensures Exec(withdrawn, MakeEffective(w, actor, u, u)) == Success(after)
    ensures ControlInv(after) && SameParent(after, v, w) && after.log == db.log + [z] + [b]
    ensures z.id == v && z.body.WithdrawnFor? && z.recordedAt == z.occurredAt == t
    ensures b.id == w && b.body.MadeEffective? && b.recordedAt == b.occurredAt == u
    ensures BecameEffective(db.log, v, k)
  {
    withdrawn := WithdrawInForce(db, v, w, actor, t);
    after := StartAlone(withdrawn, w, actor, u);
    z, b := withdrawn.log[|db.log|], after.log[|db.log| + 1];
    k := BecameEffectiveAt(db, v);
    assert after.log == db.log + [z] + [b];
  }

  lemma ClockStaysOrdered(log: seq<VersionEvent>, z: VersionEvent, b: VersionEvent)
    requires z.recordedAt < b.recordedAt && forall i :: 0 <= i < |log| ==> log[i].recordedAt < z.recordedAt
    requires z.occurredAt == z.recordedAt && b.occurredAt == b.recordedAt
    ensures ClockOrdered(log) ==> ClockOrdered(log + [z] + [b])
  {
  }

  lemma LastTwoBatch(order: StatementOrder, log: seq<VersionEvent>, z: VersionEvent, b: VersionEvent, k: nat)
    requires z.body.WithdrawnFor? && b.body.MadeEffective? && b.id < z.id && BecameEffective(log, z.id, k)
    requires z.recordedAt < b.recordedAt && forall i :: 0 <= i < |log| ==> log[i].recordedAt < z.recordedAt
    ensures Batches(order, log + [z] + [b], z, b)
  {
    var all := log + [z] + [b];
    assert all[|log|] == z && all[|log| + 1] == b;
    assert BecameEffective(all, z.id, k);
    forall i | 0 <= i < |all| && Flushes(all[i].body) ensures !(Earlier(z, all[i]) && Earlier(all[i], b)) {
      assert i < |log| ==> all[i] == log[i];
    }
  }

  lemma BecameEffectiveAt(db: Db, v: Id) returns (k: nat)
    requires ControlInv(db) && v in db.versions && db.versions[v].lifecycle.status == Effective
    ensures BecameEffective(db.log, v, k)
  {
    assert RowIsLive(db, v);
    DisciplinedLegal(db.log, Parents(db.versions), v);
    LegalShape(Of(db.log, v));
    var j := EffectiveEvent(Of(db.log, v));
    k := OfIndex(db.log, v, j);
  }

  lemma WithdrawInForce(db: Db, v: Id, w: Id, actor: Option<Id>, t: Time) returns (after: Db)
    requires ControlInv(db) && SameParent(db, v, w) && db.versions[v].lifecycle.status == Effective
    ensures Exec(db, Withdraw(v, "", actor, None, t)) == Success(after) && ControlInv(after)
    ensures v in after.versions && after.versions == db.versions[v := after.versions[v]]
    ensures after.versions[v].owner == db.versions[v].owner && forall x :: !IsOtherEffective(after.versions, w, x)
    ensures |after.log| == |db.log| + 1 && db.log < after.log && after.log[|db.log|].id == v
    ensures after.log[|db.log|].body.WithdrawnFor? && after.log[|db.log|].recordedAt == t
    ensures after.log[|db.log|].occurredAt == t
  {
    var cmd := Withdraw(v, "", actor, None, t);
    var e := NewEvent(db.log, v, WithdrawnFor(""), None, actor, t);
    after := AppendAndProject(db, e);
    AppendRow(db, e);
    TransitionKeepsRoots(db, cmd);
    ExecKeepsInv(db, cmd);
    LiveOneEffective(db);
    forall x ensures !IsOtherEffective(after.versions, w, x) {
      assert !BothEffective(db.versions, v, x);
    }
  }

  lemma StartAlone(db: Db, w: Id, actor: Option<Id>, u: Time) returns (after: Db)
    requires ControlInv(db) && w in db.versions && db.versions[w].lifecycle.status == Approved
    requires forall x :: !IsOtherEffective(db.versions, w, x)
    ensures Exec(db, MakeEffective(w, actor, u, u)) == Success(after) && ControlInv(after)
    ensures forall x :: x in db.versions ==> x in after.versions && after.versions[x].owner == db.versions[x].owner
    ensures |after.log| == |db.log| + 1 && db.log < after.log && after.log[|db.log|].id == w
    ensures after.log[|db.log|].body.MadeEffective? && after.log[|db.log|].recordedAt == u
    ensures after.log[|db.log|].occurredAt == u
  {
    MakeEffectiveSucceeds(db, w, actor, u, u);
    EffectiveKeepsRoots(db, w, actor, u, u);
    after := ExecMakeEffective(db, w, actor, u, u).value;
    AppendRow(db, NewEvent(db.log, w, MadeEffective, None, actor, u));
  }

  /**
   The policy rebuild is not affected: its reset is flushed first, so that its one flush starts from a
   table in which nothing is effective.
   */
  lemma PolicyRebuildPasses(db: Db, order: StatementOrder, es: seq<VersionEvent>)
    requires Live(db) && RecordedInOrder(db.log) && Selected(RebuildOrder<Body>, db.log, es)
    ensures IndexHolds(order, Reset(db.versions), ProjectAll(ProjectRow, Reset(db.versions), es))
  {
    RebuildRestoresVersions(db, es);
    LiveOneEffective(db);
    forall written | CanBeWritten(order, written)
      ensures OneEffectivePerPolicy(PartlyWritten(Reset(db.versions), db.versions, written))
    {
      forall v, w ensures !BothEffective(PartlyWritten(Reset(db.versions), db.versions, written), v, w) {
        assert !BothEffective(db.versions, v, w);
      }
    }
  }

  /******* The table *******/

  class ControlDefinitionTable {
    var flushed: map<Id, VersionRow>
    var versions: map<Id, VersionRow>

    constructor ()
      ensures flushed == versions == map[]
    {
      flushed, versions := map[], map[];
    }

    /** The flush of a projector: do its statements, in the order of the primary key, satisfy the index? */
    method FlushConflicts(id: Id) returns (conflict: bool)
      requires OneEffectivePerPolicy(flushed) && OnlyNew(flushed, versions, Some(id))
      ensures conflict <==> !IndexHolds(ByKey, flushed, versions)
    {
      FlushIff(ByKey, flushed, versions, id);
      conflict := (exists v, w | v in versions && w in versions :: BothEffective(versions, v, w)) ||
                  (exists v | v in flushed :: StartsFirst(ByKey, flushed, versions, id, v));
    }

    /**
     Reset and replay, with a flush after each critical projector; `events` is the database's answer
     to the ordered query. A refused flush raises, and the caller rolls back.
     */
    method Rebuild(events: seq<VersionEvent>) returns (error: Option<Error>)
      modifies this
      ensures error.None? ==> RebuildRows(ByKey, events) == Success(versions) && flushed == versions
      ensures error.Some? ==>
        RebuildRows(ByKey, events) == Failure(error.value) && versions == old(versions) && flushed == old(flushed)
    {
      var saved, savedFlushed := versions, flushed;
      flushed, versions := map[], map[];
      for i := 0 to |events|
        invariant ReplayFlushing(ByKey, events[..i]) == Success(Session(flushed, versions))
      {
        error := ProjectOne(events, i);
        if error.Some? {
          ReplayStaysFailed(ByKey, events, i + 1);
          versions, flushed := saved, savedFlushed;
          return;
        }
      }
      assert events[..|events|] == events;
      ReplayFlushingIff(ByKey, events);
      RebuildRowsIff(ByKey, events);
      flushed := versions;
      error := None;
    }

    method ProjectOne(events: seq<VersionEvent>, i: nat) returns (error: Option<Error>)
      requires i < |events| && ReplayFlushing(ByKey, events[..i]) == Success(Session(flushed, versions))
      modifies this
      ensures error.None? ==> ReplayFlushing(ByKey, events[..i + 1]) == Success(Session(flushed, versions))
      ensures error.Some? ==> ReplayFlushing(ByKey, events[..i + 1]) == Failure(error.value)
    {
      var e := events[i];
      assert events[..i + 1][..i] == events[..i];
      if !RowFits(versions, e) {
        return Some(RowError(e));
      }
      FlushFacts(events, i);
      versions := Project(ProjectDefinition, versions, e);
      if Flushes(e.body) {
        var conflict := FlushConflicts(e.id);
        if conflict || (e.body.SupersededBy? && e.body.successor !in versions) {
          return Some(IntegrityError);
        }
        flushed := versions;
      }
      error := None;
    }
  }

  /** What the flush at event `i` of a replay that has succeeded so far starts from. */
  lemma FlushFacts(events: seq<VersionEvent>, i: nat)
    requires i < |events| && ReplayFlushing(ByKey, events[..i]).Success?
    ensures var s, e := ReplayFlushing(ByKey, events[..i]).value, events[i];
      && OneEffectivePerPolicy(s.flushed)
      && (Flushes(e.body) && RowFits(s.rows, e) ==> OnlyNew(s.flushed, Project(ProjectDefinition, s.rows, e),
          Some(e.id)))
  {
    var front := events[..i];
    ReplayFlushingIff(ByKey, front);
    PassedFlushed(ByKey, front, i);
    assert front[..i] == front && events[..i + 1][..i] == front;
    if Flushes(events[i].body) && RowFits(Replayed(front), events[i]) {
      AtFlush(events, i);
      assert Replayed(events[..i + 1]) == Project(ProjectDefinition, Replayed(front), events[i]);
    }
  }

  lemma {:induction false} ReplayStaysFailed(order: StatementOrder, events: seq<VersionEvent>, k: nat)
    requires k <= |events| && ReplayFlushing(order, events[..k]).Failure?
    ensures ReplayFlushing(order, events) == ReplayFlushing(order, events[..k])
    decreases |events|
  {
    if k < |events| {
      var front := events[..|events| - 1];
      assert front[..k] == events[..k];
      ReplayStaysFailed(order, front, k);
    } else {
      assert events[..k] == events;
    }
  }
}
