/**
 Appending to the event table (app/events.py): optimistic numbering, idempotency keys and bounded
 retry, as a machine in which any number of appenders interleave between single database
 statements. An inserted row is visible to every appender at once.
 */
module EventStore {
  import opened Common
  import opened EventLog

  const MAX_APPEND_ATTEMPTS := 5

  type AppenderId = nat

  datatype Request<+B> = Request(
    id: Id, body: B, occurredAt: Option<Time>, actor: Option<Id>, key: Option<Key>)

  /** The statement of `_append_event_with_created_flag` an appender is about to execute. */
  datatype Pc<+B> =
    | Start
    | CheckKey(attempt: nat)
    | ReadMax(attempt: nat)
    | Insert(attempt: nat, slot: int)
    | CheckSlot(attempt: nat, slot: int)
    | Returned(event: Event<B>, created: bool)
    | Raised(error: Error)

  /** `lost` is a history variable: the slots whose loss the appender has confirmed. */
  datatype Appender<+B> = Appender(request: Request<B>, recordedAt: Time, pc: Pc<B>, lost: seq<int>)

  /** `writers` is a history variable: `writers[k]` inserted `rows[k]`. */
  datatype Store<+B> = Store(
    rows: seq<Event<B>>, writers: seq<AppenderId>, appenders: map<AppenderId, Appender<B>>)

  /******* Database statements *******/

  /** `_find_by_idempotency_key`. */
  function FindKey<B>(rows: seq<Event<B>>, key: Key): (r: Option<Event<B>>)
    ensures r.Some? ==> r.value in rows && r.value.key == Some(key)
    ensures r.None? ==> forall i :: 0 <= i < |rows| ==> rows[i].key != Some(key)
  {
    if rows == [] then None
    else if rows[0].key == Some(key) then Some(rows[0])
    else FindKey(rows[1..], key)
  }

  function Find<B>(rows: seq<Event<B>>, key: Option<Key>): Option<Event<B>> {
    if key.None? then None else FindKey(rows, key.value)
  }

  predicate SlotTaken<B>(rows: seq<Event<B>>, id: Id, slot: int) {
    exists i :: 0 <= i < |rows| && rows[i].id == id && rows[i].sequence == slot
  }

  /** Both unique constraints of the table. */
  predicate Conflicts<B>(rows: seq<Event<B>>, e: Event<B>) {
    SlotTaken(rows, e.id, e.sequence) || Find(rows, e.key).Some?
  }

  function Candidate<B>(a: Appender<B>, slot: int): Event<B> {
    var occurredAt := if a.request.occurredAt.Some? then a.request.occurredAt.value else a.recordedAt;
    Event(a.request.id, slot, a.request.body, occurredAt, a.recordedAt, a.request.actor, a.request.key)
  }

  /******* The machine *******/

  function Arrive<B>(s: Store<B>, t: AppenderId, request: Request<B>): Store<B> {
    s.(appenders := s.appenders[t := Appender(request, 0, Start, [])])
  }

  /** The row an appender's next statement inserts, if it is an insert that meets no constraint. */
  function Inserted<B>(rows: seq<Event<B>>, a: Appender<B>): Option<Event<B>> {
    if a.pc.Insert? && !Conflicts(rows, Candidate(a, a.pc.slot)) then Some(Candidate(a, a.pc.slot)) else None
  }

  /** An appender after its next statement; `now` is what the clock says if it is read. */
  function Advance<B>(rows: seq<Event<B>>, a: Appender<B>, now: Time): Appender<B> {
    match a.pc
    case Start =>
      var existing := Find(rows, a.request.key);
      if existing.Some? then a.(pc := Returned(existing.value, false))
      else a.(recordedAt := now, pc := CheckKey(0))
    case CheckKey(n) =>
      var existing := Find(rows, a.request.key);
      if existing.Some? then a.(pc := Returned(existing.value, false)) else a.(pc := ReadMax(n))
    case ReadMax(n) => a.(pc := Insert(n, NextSequence(rows, a.request.id)))
    case Insert(n, slot) =>
      var e := Inserted(rows, a);
      a.(pc := if e.Some? then Returned(e.value, true) else CheckSlot(n, slot))
    case CheckSlot(n, slot) =>
      if !SlotTaken(rows, a.request.id, slot) then a.(pc := Raised(IntegrityError))
      else
        var pc := if n + 1 < MAX_APPEND_ATTEMPTS then CheckKey(n + 1) else Raised(ConcurrentAppend);
        a.(pc := pc, lost := a.lost + [slot])
    case _ => a
  }

  /** One database statement of appender `t`. */
  function Step<B>(s: Store<B>, t: AppenderId, now: Time): Store<B>
    requires t in s.appenders
  {
    var e := Inserted(s.rows, s.appenders[t]);
    Store(
      if e.Some? then s.rows + [e.value] else s.rows,
      if e.Some? then s.writers + [t] else s.writers,
      s.appenders[t := Advance(s.rows, s.appenders[t], now)])
  }

  ghost predicate Arrives<B(!new)>(s: Store<B>, s': Store<B>, t: AppenderId, request: Request<B>) {
    t !in s.appenders && s' == Arrive(s, t, request)
  }

  ghost predicate Steps<B>(s: Store<B>, s': Store<B>, t: AppenderId, now: Time) {
    t in s.appenders && s' == Step(s, t, now)
  }

  /** Some appender arrives or executes its next statement. */
  ghost predicate Next<B(!new)>(s: Store<B>, s': Store<B>) {
    (exists t, request :: Arrives(s, s', t, request)) || (exists t, now :: Steps(s, s', t, now))
  }

  ghost predicate IsRun<B(!new)>(run: seq<Store<B>>) {
    run != [] && forall i :: 0 <= i < |run| - 1 ==> Next(run[i], run[i + 1])
  }

  function Empty<B>(): Store<B> {
    Store([], [], map[])
  }

  /******* The invariant *******/

  ghost predicate UniqueKeys<B>(rows: seq<Event<B>>) {
    forall i, j :: 0 <= i < j < |rows| && rows[i].key.Some? ==> rows[i].key != rows[j].key
  }

  /** `slot` of the aggregate is occupied by a row that `t` did not write. */
  ghost predicate TakenByRival<B>(rows: seq<Event<B>>, writers: seq<AppenderId>, t: AppenderId, id: Id, slot: int)
    requires |writers| == |rows|
  {
    exists k :: 0 <= k < |rows| && rows[k].id == id && rows[k].sequence == slot && writers[k] != t
  }

  ghost predicate Rising(slots: seq<int>) {
    forall i, j :: 0 <= i < j < |slots| ==> slots[i] < slots[j]
  }

  /** The slots an appender has lost are different, and each is occupied by a rival's row. */
  ghost predicate LostToRivals<B>(rows: seq<Event<B>>, writers: seq<AppenderId>, t: AppenderId, a: Appender<B>)
    requires |writers| == |rows|
  {
    Rising(a.lost) &&
    forall i :: 0 <= i < |a.lost| ==> TakenByRival(rows, writers, t, a.request.id, a.lost[i])
  }

  ghost predicate Below(slots: seq<int>, slot: int) {
    forall i :: 0 <= i < |slots| ==> slots[i] < slot
  }

  ghost predicate Wrote<B>(rows: seq<Event<B>>, writers: seq<AppenderId>, t: AppenderId, e: Event<B>)
    requires |writers| == |rows|
  {
    exists k :: 0 <= k < |rows| && rows[k] == e && writers[k] == t
  }

  ghost predicate PcInv<B>(rows: seq<Event<B>>, writers: seq<AppenderId>, t: AppenderId, a: Appender<B>)
    requires |writers| == |rows|
  {
    var top := MaxSequence(rows, a.request.id);
    match a.pc
    case Start => a.lost == []
    case CheckKey(n) => |a.lost| == n < MAX_APPEND_ATTEMPTS && Below(a.lost, top + 1)
    case ReadMax(n) => |a.lost| == n < MAX_APPEND_ATTEMPTS && Below(a.lost, top + 1)
    case Insert(n, slot) => |a.lost| == n < MAX_APPEND_ATTEMPTS && 1 <= slot <= top + 1 && Below(a.lost, slot)
    case CheckSlot(n, slot) =>
      && |a.lost| == n < MAX_APPEND_ATTEMPTS && 1 <= slot <= top + 1 && Below(a.lost, slot)
      && Conflicts(rows, Candidate(a, slot))
    case Returned(e, created) =>
      if created then Wrote(rows, writers, t, e) && e == Candidate(a, e.sequence)
      else a.request.key.Some? && e in rows && e.key == a.request.key
    case Raised(error) =>
      if error == ConcurrentAppend then |a.lost| == MAX_APPEND_ATTEMPTS
      else error == IntegrityError && Find(rows, a.request.key).Some?
  }

  ghost predicate TableInv<B>(s: Store<B>) {
    && Contiguous(s.rows)
    && UniqueKeys(s.rows)
    && |s.writers| == |s.rows|
    && (forall k :: 0 <= k < |s.rows| ==>
          s.writers[k] in s.appenders && s.appenders[s.writers[k]].pc == Returned(s.rows[k], true))
  }

  ghost predicate Inv<B>(s: Store<B>) {
    && TableInv(s)
    && (forall t :: t in s.appenders ==> LostToRivals(s.rows, s.writers, t, s.appenders[t]))
    && (forall t :: t in s.appenders ==> PcInv(s.rows, s.writers, t, s.appenders[t]))
  }

  /** In a gapless log exactly the slots up to the largest are taken. */
  lemma SlotTakenIff<B>(rows: seq<Event<B>>, id: Id, slot: int)
    requires Contiguous(rows)
    ensures SlotTaken(rows, id, slot) <==> 1 <= slot <= MaxSequence(rows, id)
  {
    ContiguousMax(rows, id);
    if 1 <= slot <= |Of(rows, id)| {
      var k := OfIndex(rows, id, slot - 1);
      assert NumberedAt(rows, k);
    }
    if SlotTaken(rows, id, slot) {
      var i :| 0 <= i < |rows| && rows[i].id == id && rows[i].sequence == slot;
      assert NumberedAt(rows, i);
      assert rows[..|rows|] == rows;
      OfAt(rows, i, |rows|);
    }
  }

  lemma {:induction false} FindGrows<B>(rows: seq<Event<B>>, e: Event<B>, key: Option<Key>)
    ensures Find(rows, key).Some? ==> Find(rows + [e], key).Some?
    ensures e.key == key && key.Some? ==> Find(rows + [e], key).Some?
  {
    if key.Some? {
      if Find(rows, key).Some? {
        var i :| 0 <= i < |rows| && rows[i].key == key;
        assert (rows + [e])[i].key == key;
      }
      assert (rows + [e])[|rows|] == e;
    }
  }

  lemma MaxAppend<B>(rows: seq<Event<B>>, e: Event<B>, id: Id)
    ensures MaxSequence(rows + [e], id) ==
            if e.id == id then Max(MaxSequence(rows, id), e.sequence) else MaxSequence(rows, id)
  {
    assert (rows + [e])[..|rows|] == rows;
  }

  /** A new row leaves every appender's own invariant true. */
  lemma RowAddedPc<B>(rows: seq<Event<B>>, writers: seq<AppenderId>, t: AppenderId, a: Appender<B>,
                      e: Event<B>, w: AppenderId)
    requires |writers| == |rows| && PcInv(rows, writers, t, a)
    ensures PcInv(rows + [e], writers + [w], t, a)
  {
    MaxAppend(rows, e, a.request.id);
    FindGrows(rows, e, a.request.key);
    match a.pc {
      case CheckSlot(n, slot) => SlotStaysTaken(rows, e, a.request.id, slot);
      case Returned(x, true) =>
        var k :| 0 <= k < |rows| && rows[k] == x && writers[k] == t;
        assert (rows + [e])[k] == x && (writers + [w])[k] == t;
      case _ =>
    }
  }

  lemma SlotStaysTaken<B>(rows: seq<Event<B>>, e: Event<B>, id: Id, slot: int)
    ensures SlotTaken(rows, id, slot) ==> SlotTaken(rows + [e], id, slot)
  {
    if SlotTaken(rows, id, slot) {
      var i :| 0 <= i < |rows| && rows[i].id == id && rows[i].sequence == slot;
      assert (rows + [e])[i] == rows[i];
    }
  }

  lemma RowAddedLost<B>(rows: seq<Event<B>>, writers: seq<AppenderId>, t: AppenderId, a: Appender<B>,
                        e: Event<B>, w: AppenderId)
    requires |writers| == |rows| && LostToRivals(rows, writers, t, a)
    ensures LostToRivals(rows + [e], writers + [w], t, a)
  {
    forall i | 0 <= i < |a.lost| ensures TakenByRival(rows + [e], writers + [w], t, a.request.id, a.lost[i]) {
      assert TakenByRival(rows, writers, t, a.request.id, a.lost[i]);
      var k :| 0 <= k < |rows| && rows[k].id == a.request.id && rows[k].sequence == a.lost[i] && writers[k] != t;
      assert (rows + [e])[k] == rows[k] && (writers + [w])[k] == writers[k];
    }
  }

  /** A successful insert takes exactly the next free number: no gap, no duplicate key. */
  lemma InsertTakesNextSlot<B>(rows: seq<Event<B>>, writers: seq<AppenderId>, t: AppenderId, a: Appender<B>)
    requires |writers| == |rows| && Contiguous(rows) && UniqueKeys(rows)
    requires PcInv(rows, writers, t, a) && Inserted(rows, a).Some?
    ensures Contiguous(rows + [Inserted(rows, a).value]) && UniqueKeys(rows + [Inserted(rows, a).value])
  {
    var e := Inserted(rows, a).value;
    SlotTakenIff(rows, e.id, e.sequence);
    ContiguousMax(rows, e.id);
    ContiguousAppend(rows, e);
  }

  lemma AdvancePc<B>(rows: seq<Event<B>>, writers: seq<AppenderId>, t: AppenderId, a: Appender<B>, now: Time)
    requires |writers| == |rows| && Contiguous(rows)
    requires PcInv(rows, writers, t, a) && Inserted(rows, a).None?
    ensures PcInv(rows, writers, t, Advance(rows, a, now))
  {
    match a.pc {
      case ReadMax(n) => ContiguousMax(rows, a.request.id);
      case CheckSlot(n, slot) => SlotTakenIff(rows, a.request.id, slot);
      case _ =>
    }
  }

  /** A slot found taken was taken by somebody else, and lies above every slot lost before. */
  lemma AdvanceLost<B>(rows: seq<Event<B>>, writers: seq<AppenderId>, t: AppenderId, a: Appender<B>, now: Time)
    requires |writers| == |rows|
    requires PcInv(rows, writers, t, a) && LostToRivals(rows, writers, t, a)
    requires a.pc.CheckSlot? ==> t !in writers
    ensures LostToRivals(rows, writers, t, Advance(rows, a, now))
  {
    var a' := Advance(rows, a, now);
    forall i | 0 <= i < |a'.lost| ensures TakenByRival(rows, writers, t, a.request.id, a'.lost[i]) {
      if i < |a.lost| {
        assert TakenByRival(rows, writers, t, a.request.id, a.lost[i]);
      } else {
        var k :| 0 <= k < |rows| && rows[k].id == a.request.id && rows[k].sequence == a.pc.slot;
        assert writers[k] in writers;
      }
    }
  }

  lemma InsertStepKeepsInv<B>(s: Store<B>, t: AppenderId, now: Time)
    requires Inv(s) && t in s.appenders && Inserted(s.rows, s.appenders[t]).Some?
    ensures Inv(Step(s, t, now))
  {
    var a, s' := s.appenders[t], Step(s, t, now);
    var e := Inserted(s.rows, a).value;
    InsertTakesNextSlot(s.rows, s.writers, t, a);
    forall u | u in s'.appenders ensures LostToRivals(s'.rows, s'.writers, u, s'.appenders[u]) {
      RowAddedLost(s.rows, s.writers, u, s.appenders[u], e, t);
      if u == t {
        SameLosses(s'.rows, s'.writers, t, a, s'.appenders[t]);
      }
    }
    forall u | u in s'.appenders ensures PcInv(s'.rows, s'.writers, u, s'.appenders[u]) {
      if u == t {
        assert s'.rows[|s.rows|] == e && s'.writers[|s.rows|] == t;
      } else {
        RowAddedPc(s.rows, s.writers, u, s.appenders[u], e, t);
      }
    }
  }

  lemma SameLosses<B>(rows: seq<Event<B>>, writers: seq<AppenderId>, t: AppenderId, a: Appender<B>, a': Appender<B>)
    requires |writers| == |rows| && LostToRivals(rows, writers, t, a)
    requires a'.lost == a.lost && a'.request == a.request
    ensures LostToRivals(rows, writers, t, a')
  {
  }

  lemma OtherStepKeepsInv<B>(s: Store<B>, t: AppenderId, now: Time)
    requires Inv(s) && t in s.appenders && Inserted(s.rows, s.appenders[t]).None?
    ensures Inv(Step(s, t, now))
  {
    var s' := Step(s, t, now);
    AdvancePc(s.rows, s.writers, t, s.appenders[t], now);
    AdvanceLost(s.rows, s.writers, t, s.appenders[t], now);
    assert s'.rows == s.rows && s'.writers == s.writers;
    forall u | u in s'.appenders
      ensures LostToRivals(s'.rows, s'.writers, u, s'.appenders[u]) && PcInv(s'.rows, s'.writers, u, s'.appenders[u])
    {
      assert u != t ==> u in s.appenders && s'.appenders[u] == s.appenders[u];
    }
  }

  lemma NextKeepsInv<B(!new)>(s: Store<B>, s': Store<B>)
    requires Inv(s) && Next(s, s')
    ensures Inv(s')
  {
    if t, now :| Steps(s, s', t, now) {
      if Inserted(s.rows, s.appenders[t]).Some? {
        InsertStepKeepsInv(s, t, now);
      } else {
        OtherStepKeepsInv(s, t, now);
      }
    } else {
      var t, request :| Arrives(s, s', t, request);
    }
  }

  /** The invariant holds at every moment of every interleaving. */
  lemma {:induction false} RunKeepsInv<B(!new)>(run: seq<Store<B>>, j: nat)
    requires IsRun(run) && Inv(run[0]) && j < |run|
    ensures Inv(run[j])
  {
    if 0 < j {
      RunKeepsInv(run, j - 1);
      NextKeepsInv(run[j - 1], run[j]);
    }
  }

  /** The log is append-only. */
  lemma {:induction false} RunOnlyAppends<B(!new)>(run: seq<Store<B>>, i: nat, j: nat)
    requires IsRun(run) && i <= j < |run|
    ensures run[i].rows <= run[j].rows
    decreases j
  {
    if i < j {
      RunOnlyAppends(run, i, j - 1);
      NextOnlyAppends(run[j - 1], run[j]);
    }
  }

  lemma NextOnlyAppends<B(!new)>(s: Store<B>, s': Store<B>)
    requires Next(s, s')
    ensures s.rows <= s'.rows
  {
  }

  /******* What every interleaving guarantees *******/

  /** Each aggregate's numbers are exactly 1..n, and nothing is ever rewritten. */
  lemma SequencesAreContiguous<B(!new)>(run: seq<Store<B>>, i: nat, j: nat, id: Id)
    requires IsRun(run) && run[0] == Empty() && i <= j < |run|
    ensures run[i].rows <= run[j].rows
    ensures forall k :: 0 <= k < |Of(run[j].rows, id)| ==> Of(run[j].rows, id)[k].sequence == k + 1
    ensures NextSequence(run[j].rows, id) == |Of(run[j].rows, id)| + 1
  {
    RunKeepsInv(run, j);
    RunOnlyAppends(run, i, j);
    ContiguousMax(run[j].rows, id);
    forall k | 0 <= k < |Of(run[j].rows, id)| ensures Of(run[j].rows, id)[k].sequence == k + 1 {
      ContiguousAt(run[j].rows, id, k);
    }
  }

  /** A key names at most one event, and at most one appender is told that it created it. */
  lemma KeysNameOneEvent<B(!new)>(run: seq<Store<B>>, j: nat, t: AppenderId, u: AppenderId, key: Key)
    requires IsRun(run) && run[0] == Empty() && j < |run|
    requires t in run[j].appenders && run[j].appenders[t].request.key == Some(key)
    requires u in run[j].appenders && run[j].appenders[u].request.key == Some(key)
    requires run[j].appenders[t].pc.Returned? && run[j].appenders[u].pc.Returned?
    ensures run[j].appenders[t].pc.event == run[j].appenders[u].pc.event
    ensures run[j].appenders[t].pc.created && run[j].appenders[u].pc.created ==> t == u
  {
    RunKeepsInv(run, j);
    var s := run[j];
    assert PcInv(s.rows, s.writers, t, s.appenders[t]) && PcInv(s.rows, s.writers, u, s.appenders[u]);
    var e, f := s.appenders[t].pc.event, s.appenders[u].pc.event;
    assert e in s.rows && f in s.rows && e.key == f.key == Some(key);
    var a :| 0 <= a < |s.rows| && s.rows[a] == e;
    var b :| 0 <= b < |s.rows| && s.rows[b] == f;
    assert a == b;
  }

  /**
   What an append stores: the request's aggregate, body, actor and key, the time that the request states
   for the event if it states one, and the clock reading of the append.
   */
  ghost predicate CarriesRequest<B>(r: Request<B>, reading: Time, e: Event<B>) {
    && e.id == r.id && e.body == r.body && e.actor == r.actor && e.key == r.key && e.recordedAt == reading
    && (r.occurredAt.Some? ==> e.occurredAt == r.occurredAt.value)
    && (r.occurredAt.None? ==> e.occurredAt == reading)
  }

  /** What every caller gets back: the stored event made from its own request, or the one that has its key. */
  lemma ReturnedEvent<B(!new)>(run: seq<Store<B>>, j: nat, t: AppenderId)
    requires IsRun(run) && run[0] == Empty() && j < |run| && t in run[j].appenders
    requires run[j].appenders[t].pc.Returned?
    ensures var a := run[j].appenders[t];
      && a.pc.event in run[j].rows
      && (a.pc.created ==> CarriesRequest(a.request, a.recordedAt, a.pc.event))
      && (!a.pc.created ==> a.request.key.Some? && a.pc.event.key == a.request.key)
  {
    RunKeepsInv(run, j);
    var s := run[j];
    assert PcInv(s.rows, s.writers, t, s.appenders[t]);
  }

  /** ConcurrentAppendError: five different slots of that aggregate were all taken by rivals. */
  lemma ConcurrentAppendMeansFiveLosses<B(!new)>(run: seq<Store<B>>, j: nat, t: AppenderId)
    requires IsRun(run) && run[0] == Empty() && j < |run| && t in run[j].appenders
    requires run[j].appenders[t].pc == Raised(ConcurrentAppend)
    ensures |run[j].appenders[t].lost| == 5
    ensures |run[j].writers| == |run[j].rows|
    ensures LostToRivals(run[j].rows, run[j].writers, t, run[j].appenders[t])
    ensures t !in run[j].writers
  {
    RunKeepsInv(run, j);
    assert PcInv(run[j].rows, run[j].writers, t, run[j].appenders[t]);
  }

  /** The re-raised IntegrityError: only a request whose key a stored event already carries gets it. */
  lemma IntegrityErrorMeansKeyTaken<B(!new)>(run: seq<Store<B>>, j: nat, t: AppenderId)
    requires IsRun(run) && run[0] == Empty() && j < |run| && t in run[j].appenders
    requires run[j].appenders[t].pc == Raised(IntegrityError)
    ensures Find(run[j].rows, run[j].appenders[t].request.key).Some?
    ensures t !in run[j].writers
  {
    RunKeepsInv(run, j);
    assert PcInv(run[j].rows, run[j].writers, t, run[j].appenders[t]);
  }

  /** An appender left alone for one attempt succeeds, from any reachable store. */
  lemma UndisturbedAttemptReturns<B(!new)>(s: Store<B>, t: AppenderId, now: Time)
    requires Inv(s) && t in s.appenders && s.appenders[t].pc.CheckKey?
    ensures Step(Step(Step(s, t, now), t, now), t, now).appenders[t].pc.Returned?
  {
    var a := s.appenders[t];
    var slot := NextSequence(s.rows, a.request.id);
    SlotTakenIff(s.rows, a.request.id, slot);
  }

  /******* The method *******/

  ghost predicate Reaches<B(!new)>(s: Store<B>, s': Store<B>) {
    exists run :: IsRun(run) && run[0] == s && run[|run| - 1] == s'
  }

  lemma ReachesSelf<B(!new)>(s: Store<B>)
    ensures Reaches(s, s)
  {
    assert IsRun([s]) && [s][0] == s;
  }

  lemma ReachesNext<B(!new)>(s: Store<B>, s': Store<B>, s'': Store<B>)
    requires Reaches(s, s') && Next(s', s'')
    ensures Reaches(s, s'')
  {
    var run :| IsRun(run) && run[0] == s && run[|run| - 1] == s';
    var longer := run + [s''];
    assert IsRun(longer) && longer[0] == s && longer[|longer| - 1] == s'';
  }

  /** The domain_events table. `machine` is the interleaving of which this object is the present. */
  class DomainEvents<B(!new)> {
    var rows: seq<Event<B>>
    ghost var machine: Store<B>

    ghost predicate Valid() reads this {
      rows == machine.rows && Reaches(Empty(), machine)
    }

    constructor ()
      ensures Valid() && machine == Empty()
    {
      rows := [];
      machine := Empty();
      ReachesSelf<B>(Empty());
    }

    /** What `me` keeps while it runs: the machine got here from `start`, and `me` is in state `a`. */
    ghost predicate Running(start: Store<B>, me: AppenderId, a: Appender<B>) reads this {
      Valid() && Reaches(start, machine) && me in machine.appenders && machine.appenders[me] == a
    }

    /** Between two statements of one appender the others may do anything the machine allows. */
    method Interference(ghost start: Store<B>, ghost me: AppenderId, ghost a: Appender<B>)
      requires Running(start, me, a)
      modifies this
      ensures Running(start, me, a)
      ensures Reaches(old(machine), machine)
    {
      ReachesSelf(machine);
    }

    /** The machine follows one statement of `me`. */
    ghost method Follow(start: Store<B>, me: AppenderId, a: Appender<B>, now: Time)
      requires Running(start, me, a)
      modifies this`machine
      ensures Reaches(Empty(), machine) && Reaches(start, machine) && me in machine.appenders
      ensures machine.appenders[me] == Advance(rows, a, now)
      ensures machine.rows == if Inserted(rows, a).Some? then rows + [Inserted(rows, a).value] else rows
    {
      assert Steps(machine, Step(machine, me, now), me, now);
      ReachesNext(Empty(), machine, Step(machine, me, now));
      ReachesNext(start, machine, Step(machine, me, now));
      machine := Step(machine, me, now);
    }

    method FindExisting(ghost start: Store<B>, ghost me: AppenderId, ghost a: Appender<B>, key: Option<Key>, now: Time)
      returns (existing: Option<Event<B>>, ghost a': Appender<B>)
      requires Running(start, me, a) && (a.pc.Start? || a.pc.CheckKey?) && a.request.key == key
      modifies this
      ensures Running(start, me, a')
      ensures existing.Some? ==> a' == a.(pc := Returned(existing.value, false))
      ensures existing.None? && a.pc.Start? ==> a' == a.(recordedAt := now, pc := CheckKey(0))
      ensures existing.None? && a.pc.CheckKey? ==> a' == a.(pc := ReadMax(a.pc.attempt))
    {
      Interference(start, me, a);
      existing := Find(rows, key);
      a' := Advance(rows, a, now);
      Follow(start, me, a, now);
    }

    method ReadNextSequence(ghost start: Store<B>, ghost me: AppenderId, ghost a: Appender<B>, id: Id)
      returns (slot: int, ghost a': Appender<B>)
      requires Running(start, me, a) && a.pc.ReadMax? && a.request.id == id
      modifies this
      ensures Running(start, me, a') && a' == a.(pc := Insert(a.pc.attempt, slot))
    {
      Interference(start, me, a);
      slot := NextSequence(rows, id);
      a' := Advance(rows, a, 0);
      Follow(start, me, a, 0);
    }

    method TryInsert(ghost start: Store<B>, ghost me: AppenderId, ghost a: Appender<B>, candidate: Event<B>)
      returns (ok: bool, ghost a': Appender<B>)
      requires Running(start, me, a) && a.pc.Insert? && candidate == Candidate(a, a.pc.slot)
      modifies this
      ensures Running(start, me, a')
      ensures a' == a.(pc := if ok then Returned(candidate, true) else CheckSlot(a.pc.attempt, a.pc.slot))
    {
      Interference(start, me, a);
      ok := !Conflicts(rows, candidate);
      a' := Advance(rows, a, 0);
      Follow(start, me, a, 0);
      if ok {
        rows := rows + [candidate];
      }
    }

    method ConfirmSlotTaken(ghost start: Store<B>, ghost me: AppenderId, ghost a: Appender<B>, id: Id, slot: int)
      returns (taken: bool, ghost a': Appender<B>)
      requires Running(start, me, a) && a.pc.CheckSlot? && a.request.id == id && a.pc.slot == slot
      modifies this
      ensures Running(start, me, a') && a'.request == a.request && a'.recordedAt == a.recordedAt
      ensures a'.pc == if !taken then Raised(IntegrityError)
                       else if a.pc.attempt + 1 < MAX_APPEND_ATTEMPTS then CheckKey(a.pc.attempt + 1)
                       else Raised(ConcurrentAppend)
    {
      Interference(start, me, a);
      taken := SlotTaken(rows, id, slot);
      a' := Advance(rows, a, 0);
      Follow(start, me, a, 0);
    }

    /** A new appender calls `append_event`. */
    ghost method Enter(request: Request<B>, me: AppenderId) returns (a: Appender<B>)
      requires Valid() && me !in machine.appenders
      modifies this`machine
      ensures Running(old(machine), me, a) && a == Appender(request, 0, Start, [])
    {
      var arrived := Arrive(machine, me, request);
      assert Arrives(machine, arrived, me, request);
      ReachesNext(Empty(), machine, arrived);
      ReachesSelf(machine);
      ReachesNext(machine, machine, arrived);
      machine := arrived;
      a := arrived.appenders[me];
    }

    /** One turn of the retry loop; `None` means that the slot was lost and the loop goes on. */
    method Attempt(ghost start: Store<B>, ghost me: AppenderId, ghost a: Appender<B>,
                   request: Request<B>, now: Time, attempt: nat)
      returns (outcome: Option<Pc<B>>, ghost a': Appender<B>)
      requires Running(start, me, a)
      requires a.request == request && a.recordedAt == now && a.pc == CheckKey(attempt)
      modifies this
      ensures Running(start, me, a') && a'.request == request && a'.recordedAt == now
      ensures outcome.Some? ==> (outcome.value.Returned? || outcome.value.Raised?) && a'.pc == outcome.value
      ensures outcome.Some? && outcome.value.Returned? && outcome.value.created ==>
        CarriesRequest(request, now, outcome.value.event)
      ensures outcome.None? ==> a'.pc == if attempt + 1 < MAX_APPEND_ATTEMPTS then CheckKey(attempt + 1)
                                        else Raised(ConcurrentAppend)
    {
      var existing, slot, ok, taken;
      existing, a' := FindExisting(start, me, a, request.key, now);
      if existing.Some? {
        return Some(Returned(existing.value, false)), a';
      }
      slot, a' := ReadNextSequence(start, me, a', request.id);
      var occurredAt := if request.occurredAt.Some? then request.occurredAt.value else now;
      var candidate := Event(request.id, slot, request.body, occurredAt, now, request.actor, request.key);
      ok, a' := TryInsert(start, me, a', candidate);
      if ok {
        return Some(Returned(candidate, true)), a';
      }
      taken, a' := ConfirmSlotTaken(start, me, a', request.id, slot);
      outcome := if taken then None else Some(Raised(IntegrityError));
    }

    /**
     `_append_event_with_created_flag`: its retry loop is a behaviour of the machine, whatever
     happens between its statements.
     */
    method Append(request: Request<B>, now: Time, ghost me: AppenderId) returns (outcome: Pc<B>)
      requires Valid() && me !in machine.appenders
      modifies this
      ensures Valid() && Reaches(old(machine), machine)
      ensures outcome.Returned? || outcome.Raised?
      ensures me in machine.appenders && machine.appenders[me].request == request
      ensures machine.appenders[me].pc == outcome
      ensures outcome.Returned? && outcome.created ==> CarriesRequest(request, now, outcome.event)
    {
      ghost var start := machine;
      ghost var a := Enter(request, me);
      var existing, decided;
      existing, a := FindExisting(start, me, a, request.key, now);
      if existing.Some? {
        return Returned(existing.value, false);
      }
      var attempt := 0;
      while attempt < MAX_APPEND_ATTEMPTS
        invariant 0 <= attempt <= MAX_APPEND_ATTEMPTS
        invariant Running(start, me, a) && a.request == request && a.recordedAt == now
        invariant a.pc == if attempt < MAX_APPEND_ATTEMPTS then CheckKey(attempt) else Raised(ConcurrentAppend)
      {
        decided, a := Attempt(start, me, a, request, now, attempt);
        if decided.Some? {
          return decided.value;
        }
        attempt := attempt + 1;
      }
      return Raised(ConcurrentAppend);
    }
  }
}
