/**
 Control occurrences (app/control_occurrences.py): expected occurrences are materialized once per due
 date, pinned to the definition version in force at that moment, then performed and given evidence.
 The link tables are modelled as two sets per occurrence, without their generated ids.
 */
module Occurrences {
  import opened Common
  import opened EventLog
  import opened Replay
  import EventStore
  import Cadence

  type Day = d: Cadence.Date | Cadence.Valid(d) witness Cadence.Date(1, 1, 1)

  /** A due_at value: a day and the microseconds since its midnight (UTC). */
  datatype DueAt = DueAt(day: Day, micros: nat)

  /** datetime.time.max. */
  const END_OF_DAY: nat := 86_399_999_999

  /** _due_at_for_date. */
  function EndOf(day: Day): DueAt {
    DueAt(day, END_OF_DAY)
  }

  datatype Origin = Generated | Manual

  datatype OccurrenceBody =
    | Materialized(control: Id, period: Option<Id>, due: DueAt, responsible: Option<Id>, pin: Option<Id>)
    | RecordedManually(control: Id, period: Option<Id>, dueAt: Option<DueAt>, scopeNote: string, pin: Option<Id>)
    | Performed(person: Option<Id>, scope: string, evidenceNote: string)
    | SnapshotLinked(snapshot: Id)
    | ArtifactLinked(version: Id)

  type OccurrenceEvent = Event<OccurrenceBody>

  /** `pin` is control_definition_version_id. */
  datatype Occurrence = Occurrence(
    control: Id, period: Option<Id>, origin: Origin, due: Option<DueAt>, pin: Option<Id>, responsible: Option<Id>,
    performedAt: Option<Time>, performedBy: Option<Id>, scopeNote: string, evidenceNote: string,
    createdAt: Time, updatedAt: Time, snapshots: set<Id>, artifacts: set<Id>)

  predicate Creates(b: OccurrenceBody) {
    b.Materialized? || b.RecordedManually?
  }

  /** The row that a creating event inserts. */
  function NewRow(e: OccurrenceEvent): Occurrence
    requires Creates(e.body)
  {
    match e.body
    case Materialized(control, period, due, responsible, pin) =>
      Occurrence(control, period, Generated, Some(due), pin, responsible, None, None, "", "",
                 e.recordedAt, e.recordedAt, {}, {})
    case RecordedManually(control, period, due, scopeNote, pin) =>
      Occurrence(control, period, Manual, due, pin, None, None, None, scopeNote, "",
                 e.recordedAt, e.recordedAt, {}, {})
  }

  /** CONTROL_OCCURRENCE_PROJECTORS. */
  function ProjectOccurrence(row: Option<Occurrence>, e: OccurrenceEvent): Option<Occurrence> {
    if Creates(e.body) then Some(NewRow(e))
    else if row.None? then None
    else
      var o := row.value;
      match e.body
      case Performed(person, scope, note) =>
        Some(o.(performedAt := Some(e.occurredAt), performedBy := person, scopeNote := scope, evidenceNote := note,
                updatedAt := e.recordedAt))
      case SnapshotLinked(s) => Some(o.(snapshots := o.snapshots + {s}))
      case ArtifactLinked(v) => Some(o.(artifacts := o.artifacts + {v}))
  }

  datatype Tables = Tables(log: seq<OccurrenceEvent>, rows: map<Id, Occurrence>)

  /** The rows of other tables that foreign keys may refer to. */
  datatype Refs = Refs(definitions: set<Id>, evidence: set<Id>)

  /** uq_occurrence_control_period_due and uq_occurrence_control_due_no_period; a NULL due_at never collides. */
  predicate SameSlot(a: Occurrence, b: Occurrence) {
    a.control == b.control && a.period == b.period && a.due.Some? && a.due == b.due
  }

  predicate Collides(rows: map<Id, Occurrence>, v: Id, row: Occurrence) {
    v in rows && SameSlot(rows[v], row)
  }

  /** What the constraints on one aggregate's own rows demand of its next event. */
  predicate RowAccepts(row: Option<Occurrence>, e: OccurrenceEvent) {
    match e.body
    case Materialized(_, _, _, _, _) => row.None?
    case RecordedManually(_, _, _, _, _) => row.None?
    case Performed(_, _, _) => row.Some?
    case SnapshotLinked(s) => row.Some? && s !in row.value.snapshots
    case ArtifactLinked(v) => row.Some? && v !in row.value.artifacts
  }

  /** What its foreign keys demand. */
  predicate RefsAccept(refs: Refs, e: OccurrenceEvent) {
    match e.body
    case Materialized(_, _, _, _, pin) => pin.Some? ==> pin.value in refs.definitions
    case RecordedManually(_, _, _, _, pin) => pin.Some? ==> pin.value in refs.definitions
    case ArtifactLinked(v) => v in refs.evidence
    case _ => true
  }

  /** Every constraint, as the database checks it when the event's projector has run. */
  predicate Accepts(rows: map<Id, Occurrence>, refs: Refs, e: OccurrenceEvent) {
    RowAccepts(Lookup(rows, e.id), e) && RefsAccept(refs, e) &&
    (Creates(e.body) ==> forall v | v in rows :: !Collides(rows, v, NewRow(e)))
  }

  /** append_and_project, with the flush that follows it. */
  function Append(t: Tables, refs: Refs, e: OccurrenceEvent): Result<Tables> {
    if Accepts(t.rows, refs, e) then Success(Tables(t.log + [e], Project(ProjectOccurrence, t.rows, e)))
    else Failure(IntegrityError)
  }

  function NewEvent(t: Tables, id: Id, body: OccurrenceBody, key: Option<Key>, occurredAt: Option<Time>,
                    actor: Option<Id>, at: Time): OccurrenceEvent
  {
    Event(id, NextSequence(t.log, id), body, if occurredAt.Some? then occurredAt.value else at, at, actor, key)
  }

  /** `control_occurrence:materialize:<control>:<period or none>:<date>`. */
  function MaterializeKey(control: Id, period: Option<Id>, day: Day): Key {
    [control, if period.Some? then period.value + 1 else 0, day.year, day.month, day.day]
  }

  /** A row id and a clock reading, drawn for one append. */
  datatype Draw = Draw(id: Id, at: Time)

  datatype Control = Control(id: Id, calendar: bool, interval: Option<int>, owner: Option<Id>)

  datatype Period = Period(id: Id, active: bool, starts: Day, ends: Day)

  /** What every occurrence of one generate call has in common. */
  datatype Plan = Plan(control: Id, period: Option<Id>, responsible: Option<Id>, pin: Option<Id>, actor: Option<Id>)

  function MaterializeEvent(t: Tables, plan: Plan, day: Day, draw: Draw): OccurrenceEvent {
    NewEvent(t, draw.id, Materialized(plan.control, plan.period, EndOf(day), plan.responsible, plan.pin),
             Some(MaterializeKey(plan.control, plan.period, day)), None, plan.actor, draw.at)
  }

  /** One round of the loop in generate_occurrences. */
  function Materialize(t: Tables, refs: Refs, plan: Plan, day: Day, draw: Draw): Result<(Tables, Id)> {
    var existing := EventStore.FindKey(t.log, MaterializeKey(plan.control, plan.period, day));
    if existing.Some? then Success((t, existing.value.id))
    else
      var r := Append(t, refs, MaterializeEvent(t, plan, day, draw));
      if r.Success? then Success((r.value, draw.id)) else Failure(r.error)
  }

  function MaterializeAll(t: Tables, refs: Refs, plan: Plan, days: seq<Day>, draws: nat -> Draw)
    : Result<(Tables, seq<Id>)>
  {
    if days == [] then Success((t, []))
    else
      var n := |days| - 1;
      var before := MaterializeAll(t, refs, plan, days[..n], draws);
      if before.Failure? then before
      else
        var r := Materialize(before.value.0, refs, plan, days[n], draws(n));
        if r.Success? then Success((r.value.0, before.value.1 + [r.value.1])) else Failure(r.error)
  }

  /** The days on which the control has occurrences without a period. */
  function PeriodlessDays(rows: map<Id, Occurrence>, control: Id): set<Cadence.Date> {
    set v | v in rows && rows[v].control == control && rows[v].period.None? && rows[v].due.Some? ::
      rows[v].due.value.day
  }

  lemma DatesAreDays(start: Cadence.Date, end: Cadence.Date, interval: int)
    requires interval > 0 && Cadence.Valid(start)
    ensures forall d :: d in Cadence.DatesFrom(start, end, interval) ==> Cadence.Valid(d)
  {
    forall d | d in Cadence.DatesFrom(start, end, interval) ensures Cadence.Valid(d) {
      Cadence.DatesMembers(start, end, interval, d);
      var k: nat :| d == Cadence.Chain(start, interval, k);
      Cadence.ChainMonth(start, interval, k);
    }
  }

  /** _compute_due_dates. */
  ghost function DueDays(rows: map<Id, Occurrence>, control: Id, period: Option<Period>, today: Day, horizon: int,
                         interval: int): seq<Day>
    requires interval > 0
  {
    match period
    case Some(p) =>
      DatesAreDays(p.starts, p.ends, interval);
      Cadence.DatesFrom(p.starts, p.ends, interval)
    case None =>
      var start := Cadence.RollingStart(PeriodlessDays(rows, control), today, interval);
      var end := Cadence.AddMonths(today, horizon);
      DatesAreDays(start, end, interval);
      Cadence.DatesFrom(start, end, interval)
  }

  /** Calls of generate_occurrences; `today`, ids and clock readings are drawn from outside. */
  datatype Call = Call(control: Control, period: Option<Period>, horizon: int, today: Day, actor: Option<Id>,
                       draws: nat -> Draw)

  function PlanOf(c: Call, pin: Option<Id>): Plan {
    Plan(c.control.id, if c.period.Some? then Some(c.period.value.id) else None, c.control.owner, pin, c.actor)
  }

  predicate Scheduled(c: Control) {
    c.calendar && c.interval.Some? && c.interval.value > 0
  }

  ghost function Generate(t: Tables, refs: Refs, c: Call, pin: Option<Id>): Result<(Tables, seq<Id>)> {
    if !Scheduled(c.control) then Success((t, []))
    else if c.period.Some? && !c.period.value.active then Failure(ValueError)
    else
      MaterializeAll(t, refs, PlanOf(c, pin),
        DueDays(t.rows, c.control.id, c.period, c.today, c.horizon, c.control.interval.value), c.draws)
  }

  datatype OccurrenceCommand =
    | GenerateCall(call: Call)
    | RecordManually(control: Id, period: Option<Id>, dueAt: Option<DueAt>, scopeNote: string, actor: Option<Id>,
                     draw: Draw)
    | Perform(id: Id, person: Option<Id>, scope: string, note: string, occurredAt: Time, actor: Option<Id>, at: Time)
    | LinkSnapshot(id: Id, snapshot: Id, actor: Option<Id>, at: Time)
    | LinkArtifact(id: Id, version: Id, actor: Option<Id>, at: Time)

  /** `effective` gives the control's effective definition version, as the command reads it. */
  ghost function ExecOccurrence(t: Tables, refs: Refs, effective: Id -> Option<Id>, c: OccurrenceCommand)
    : Result<Tables>
  {
    match c
    case GenerateCall(call) =>
      var r := Generate(t, refs, call, effective(call.control.id));
      if r.Success? then Success(r.value.0) else Failure(r.error)
    case RecordManually(control, period, dueAt, scopeNote, actor, draw) =>
      Append(t, refs, NewEvent(t, draw.id, RecordedManually(control, period, dueAt, scopeNote, effective(control)),
                               None, None, actor, draw.at))
    case Perform(id, person, scope, note, occurredAt, actor, at) =>
      if id !in t.rows then Failure(MissingRow)
      else Append(t, refs, NewEvent(t, id, Performed(person, scope, note), None, Some(occurredAt), actor, at))
    case LinkSnapshot(id, snapshot, actor, at) =>
      if id !in t.rows then Failure(MissingRow)
      else Append(t, refs, NewEvent(t, id, SnapshotLinked(snapshot), None, None, actor, at))
    case LinkArtifact(id, version, actor, at) =>
      if id !in t.rows then Failure(MissingRow)
      else Append(t, refs, NewEvent(t, id, ArtifactLinked(version), None, None, actor, at))
  }

  /******* What every append keeps *******/

  ghost predicate HistoryOk(es: seq<OccurrenceEvent>) {
    forall p {:trigger AcceptedAt(es, p)} :: 0 <= p < |es| ==> AcceptedAt(es, p)
  }

  ghost predicate AcceptedAt(es: seq<OccurrenceEvent>, p: int)
    requires 0 <= p < |es|
  {
    RowAccepts(Fold(ProjectOccurrence, None, es[..p]), es[p])
  }

  /** Materializing events, and no others, carry the key of their control, period and day. */
  predicate WellKeyed(e: OccurrenceEvent) {
    match e.body
    case Materialized(control, period, due, _, _) =>
      due == EndOf(due.day) && e.key == Some(MaterializeKey(control, period, due.day))
    case _ => e.key == None
  }

  ghost predicate KeyedAt(log: seq<OccurrenceEvent>, i: int)
    requires 0 <= i < |log|
  {
    WellKeyed(log[i])
  }

  ghost predicate SlotsAreUnique(rows: map<Id, Occurrence>) {
    forall v, w {:trigger SharedSlot(rows, v, w)} :: !SharedSlot(rows, v, w)
  }

  ghost predicate SharedSlot(rows: map<Id, Occurrence>, v: Id, w: Id) {
    v in rows && w in rows && v != w && SameSlot(rows[v], rows[w])
  }

  ghost predicate RefAt(log: seq<OccurrenceEvent>, refs: Refs, i: int)
    requires 0 <= i < |log|
  {
    RefsAccept(refs, log[i])
  }

  ghost predicate OccurrencesInv(t: Tables, refs: Refs) {
    && Contiguous(t.log)
    && t.rows == ProjectAll(ProjectOccurrence, map[], t.log)
    && SlotsAreUnique(t.rows)
    && (forall v {:trigger HistoryOk(Of(t.log, v))} :: HistoryOk(Of(t.log, v)))
    && (forall i {:trigger KeyedAt(t.log, i)} :: 0 <= i < |t.log| ==> KeyedAt(t.log, i))
    && (forall i {:trigger RefAt(t.log, refs, i)} :: 0 <= i < |t.log| ==> RefAt(t.log, refs, i))
  }

  /** What an occurrence keeps from its creation on. */
  predicate SameCore(a: Occurrence, b: Occurrence) {
    a.control == b.control && a.period == b.period && a.origin == b.origin && a.due == b.due && a.pin == b.pin &&
    a.responsible == b.responsible && a.createdAt == b.createdAt
  }

  lemma HistoryAppend(es: seq<OccurrenceEvent>, e: OccurrenceEvent)
    requires HistoryOk(es) && RowAccepts(Fold(ProjectOccurrence, None, es), e)
    ensures HistoryOk(es + [e])
  {
    var fs := es + [e];
    forall p | 0 <= p < |fs| ensures AcceptedAt(fs, p) {
      if p < |es| {
        assert AcceptedAt(es, p);
        assert fs[..p] == es[..p];
      } else {
        assert fs[..p] == es;
      }
    }
  }

  lemma HistoryPrefix(es: seq<OccurrenceEvent>, k: nat)
    requires HistoryOk(es) && k <= |es|
    ensures HistoryOk(es[..k])
  {
    forall p | 0 <= p < k ensures AcceptedAt(es[..k], p) {
      assert AcceptedAt(es, p);
      assert es[..k][..p] == es[..p];
    }
  }

  /** A history starts with the creation of the row, and nothing after that changes the row's core. */
  lemma {:induction false} CoreOfHistory(es: seq<OccurrenceEvent>)
    requires HistoryOk(es) && es != []
    ensures Creates(es[0].body)
    ensures Fold(ProjectOccurrence, None, es).Some?
    ensures SameCore(Fold(ProjectOccurrence, None, es).value, NewRow(es[0]))
    ensures forall i :: 0 < i < |es| ==> !Creates(es[i].body)
  {
    var n := |es| - 1;
    assert AcceptedAt(es, n);
    if n > 0 {
      HistoryPrefix(es, n);
      CoreOfHistory(es[..n]);
    } else {
      assert es[..0] == [];
    }
  }

  /** The row of an aggregate is the fold of its history. */
  lemma RowOf(t: Tables, refs: Refs, v: Id)
    requires OccurrencesInv(t, refs)
    ensures Lookup(t.rows, v) == Fold(ProjectOccurrence, None, Of(t.log, v))
    ensures v in t.rows <==> Of(t.log, v) != []
    ensures v in t.rows ==> Creates(Of(t.log, v)[0].body) && SameCore(t.rows[v], NewRow(Of(t.log, v)[0]))
  {
    RowAfter<Occurrence, OccurrenceBody>(ProjectOccurrence, map[], t.log, v);
    assert HistoryOk(Of(t.log, v));
    if Of(t.log, v) != [] {
      CoreOfHistory(Of(t.log, v));
    }
  }

  lemma AppendKeepsHistories(t: Tables, refs: Refs, e: OccurrenceEvent, v: Id)
    requires OccurrencesInv(t, refs) && RowAccepts(Lookup(t.rows, e.id), e)
    ensures HistoryOk(Of(t.log + [e], v))
  {
    OfAppend(t.log, e, v);
    assert HistoryOk(Of(t.log, v));
    if e.id == v {
      RowOf(t, refs, v);
      HistoryAppend(Of(t.log, v), e);
    } else {
      assert Of(t.log, v) + [] == Of(t.log, v);
    }
  }

  /** Nothing but a creation touches the slots, and a creation is checked against them all. */
  lemma AppendKeepsSlots(rows: map<Id, Occurrence>, refs: Refs, e: OccurrenceEvent)
    requires SlotsAreUnique(rows) && Accepts(rows, refs, e)
    ensures SlotsAreUnique(Project(ProjectOccurrence, rows, e))
  {
    var after := Project(ProjectOccurrence, rows, e);
    forall v, w ensures !SharedSlot(after, v, w) {
      assert !SharedSlot(rows, v, w);
      assert Creates(e.body) ==> !Collides(rows, v, NewRow(e)) && !Collides(rows, w, NewRow(e));
    }
  }

  lemma AppendKeepsInv(t: Tables, refs: Refs, e: OccurrenceEvent)
    requires OccurrencesInv(t, refs) && Accepts(t.rows, refs, e)
    requires e.sequence == NextSequence(t.log, e.id) && WellKeyed(e)
    ensures Append(t, refs, e).Success? && OccurrencesInv(Append(t, refs, e).value, refs)
  {
    var after := Append(t, refs, e).value;
    ContiguousMax(t.log, e.id);
    ContiguousAppend(t.log, e);
    AppendKeepsSlots(t.rows, refs, e);
    assert after.log[..|t.log|] == t.log;
    forall v ensures HistoryOk(Of(after.log, v)) {
      AppendKeepsHistories(t, refs, e, v);
    }
    forall i | 0 <= i < |after.log| ensures KeyedAt(after.log, i) && RefAt(after.log, refs, i) {
      assert i < |t.log| ==> KeyedAt(t.log, i) && RefAt(t.log, refs, i);
    }
  }

  lemma MaterializeKeepsInv(t: Tables, refs: Refs, plan: Plan, day: Day, draw: Draw)
    requires OccurrencesInv(t, refs)
    ensures Materialize(t, refs, plan, day, draw).Success? ==>
            OccurrencesInv(Materialize(t, refs, plan, day, draw).value.0, refs)
  {
    var e := MaterializeEvent(t, plan, day, draw);
    if Accepts(t.rows, refs, e) {
      AppendKeepsInv(t, refs, e);
    }
  }

  lemma {:induction false} MaterializeAllKeepsInv(t: Tables, refs: Refs, plan: Plan, days: seq<Day>, draws: nat -> Draw)
    requires OccurrencesInv(t, refs)
    ensures MaterializeAll(t, refs, plan, days, draws).Success? ==>
            OccurrencesInv(MaterializeAll(t, refs, plan, days, draws).value.0, refs)
  {
    if days != [] {
      var n := |days| - 1;
      MaterializeAllKeepsInv(t, refs, plan, days[..n], draws);
      var before := MaterializeAll(t, refs, plan, days[..n], draws);
      if before.Success? {
        MaterializeKeepsInv(before.value.0, refs, plan, days[n], draws(n));
      }
    }
  }

  lemma ExecKeepsInv(t: Tables, refs: Refs, effective: Id -> Option<Id>, c: OccurrenceCommand)
    requires OccurrencesInv(t, refs) && ExecOccurrence(t, refs, effective, c).Success?
    ensures OccurrencesInv(ExecOccurrence(t, refs, effective, c).value, refs)
  {
    match c {
      case GenerateCall(call) =>
        if Scheduled(call.control) {
          MaterializeAllKeepsInv(t, refs, PlanOf(call, effective(call.control.id)),
            DueDays(t.rows, call.control.id, call.period, call.today, call.horizon, call.control.interval.value),
            call.draws);
        }
      case RecordManually(control, period, dueAt, scopeNote, actor, draw) =>
        AppendKeepsInv(t, refs, NewEvent(t, draw.id,
          RecordedManually(control, period, dueAt, scopeNote, effective(control)), None, None, actor, draw.at));
      case Perform(id, person, scope, note, occurredAt, actor, at) =>
        AppendKeepsInv(t, refs, NewEvent(t, id, Performed(person, scope, note), None, Some(occurredAt), actor, at));
      case LinkSnapshot(id, snapshot, actor, at) =>
        AppendKeepsInv(t, refs, NewEvent(t, id, SnapshotLinked(snapshot), None, None, actor, at));
      case LinkArtifact(id, version, actor, at) =>
        AppendKeepsInv(t, refs, NewEvent(t, id, ArtifactLinked(version), None, None, actor, at));
    }
  }

  /** More rows in the other tables do not hurt. */
  lemma MoreRefs(t: Tables, refs: Refs, more: Refs)
    requires OccurrencesInv(t, refs) && refs.definitions <= more.definitions && refs.evidence <= more.evidence
    ensures OccurrencesInv(t, more)
  {
    forall i | 0 <= i < |t.log| ensures RefAt(t.log, more, i) {
      assert RefAt(t.log, refs, i);
    }
  }

  /******* Generating again *******/

  lemma {:induction false} FindKeyInPrefix(log: seq<OccurrenceEvent>, more: seq<OccurrenceEvent>, key: Key)
    requires log <= more && EventStore.FindKey(log, key).Some?
    ensures EventStore.FindKey(more, key) == EventStore.FindKey(log, key)
  {
    if log[0].key != Some(key) {
      assert log[1..] <= more[1..];
      FindKeyInPrefix(log[1..], more[1..], key);
    }
  }

  lemma {:induction false} FindKeyAppended(log: seq<OccurrenceEvent>, e: OccurrenceEvent, key: Key)
    requires EventStore.FindKey(log, key).None? && e.key == Some(key)
    ensures EventStore.FindKey(log + [e], key) == Some(e)
  {
    if log != [] {
      assert (log + [e])[1..] == log[1..] + [e];
      FindKeyAppended(log[1..], e, key);
    }
  }

  /** The k-th returned occurrence is the one the key of the k-th day names. */
  ghost predicate Names(log: seq<OccurrenceEvent>, plan: Plan, day: Day, id: Id) {
    var e := EventStore.FindKey(log, MaterializeKey(plan.control, plan.period, day));
    e.Some? && e.value.id == id
  }

  lemma MaterializeNames(t: Tables, refs: Refs, plan: Plan, day: Day, draw: Draw)
    ensures var r := Materialize(t, refs, plan, day, draw);
      r.Success? ==> t.log <= r.value.0.log && Names(r.value.0.log, plan, day, r.value.1)
  {
    var key := MaterializeKey(plan.control, plan.period, day);
    if EventStore.FindKey(t.log, key).None? {
      FindKeyAppended(t.log, MaterializeEvent(t, plan, day, draw), key);
    }
  }

  lemma {:induction false} AllNamed(t: Tables, refs: Refs, plan: Plan, days: seq<Day>, draws: nat -> Draw)
    requires MaterializeAll(t, refs, plan, days, draws).Success?
    ensures var r := MaterializeAll(t, refs, plan, days, draws).value;
      && t.log <= r.0.log && |r.1| == |days|
      && forall k :: 0 <= k < |days| ==> Names(r.0.log, plan, days[k], r.1[k])
  {
    if days != [] {
      var n := |days| - 1;
      AllNamed(t, refs, plan, days[..n], draws);
      var before := MaterializeAll(t, refs, plan, days[..n], draws).value;
      MaterializeNames(before.0, refs, plan, days[n], draws(n));
      var after := MaterializeAll(t, refs, plan, days, draws).value;
      forall k | 0 <= k < n ensures Names(after.0.log, plan, days[k], after.1[k]) {
        assert Names(before.0.log, plan, days[..n][k], before.1[k]);
        FindKeyInPrefix(before.0.log, after.0.log, MaterializeKey(plan.control, plan.period, days[k]));
      }
    }
  }

  lemma NamedIsReturned(t: Tables, refs: Refs, plan: Plan, day: Day, draw: Draw, id: Id)
    requires Names(t.log, plan, day, id)
    ensures Materialize(t, refs, plan, day, draw) == Success((t, id))
  {
  }

  /** Days that all have their occurrence are returned as they are; no event is appended. */
  lemma {:induction false} NothingToMaterialize(t: Tables, refs: Refs, plan: Plan, days: seq<Day>, draws: nat -> Draw,
                                                ids: seq<Id>)
    requires |ids| == |days|
    requires forall k {:trigger Names(t.log, plan, days[k], ids[k])} ::
      0 <= k < |days| ==> Names(t.log, plan, days[k], ids[k])
    ensures MaterializeAll(t, refs, plan, days, draws) == Success((t, ids))
  {
    if days != [] {
      var n := |days| - 1;
      var front, given := days[..n], ids[..n];
      forall k | 0 <= k < |front| ensures Names(t.log, plan, front[k], given[k]) {
        assert Names(t.log, plan, days[k], ids[k]);
      }
      NothingToMaterialize(t, refs, plan, front, draws, given);
      assert Names(t.log, plan, days[n], ids[n]);
      NamedIsReturned(t, refs, plan, days[n], draws(n), ids[n]);
      assert ids == given + [ids[n]];
    }
  }

  /**
   Generating a period's occurrences again, at any later time and whatever happened in between,
   appends no event and returns the same occurrences: only the control, the period and the interval
   must be the same; the definition in force, the owner, the actor and the drawn ids may differ.
   */
  lemma GeneratingAgain(t: Tables, refs: Refs, c: Call, pin: Option<Id>, later: Tables, refs': Refs, c': Call,
      pin': Option<Id>)
    requires Generate(t, refs, c, pin).Success? && Generate(t, refs, c, pin).value.0.log <= later.log
    requires c.period.Some? && c'.period == c.period && Scheduled(c.control) && Scheduled(c'.control)
    requires c'.control.id == c.control.id && c'.control.interval == c.control.interval
    ensures Generate(later, refs', c', pin') == Success((later, Generate(t, refs, c, pin).value.1))
  {
    var days := DueDays(t.rows, c.control.id, c.period, c.today, c.horizon, c.control.interval.value);
    var r := Generate(t, refs, c, pin).value;
    AllNamed(t, refs, PlanOf(c, pin), days, c.draws);
    forall k | 0 <= k < |days| ensures Names(later.log, PlanOf(c', pin'), days[k], r.1[k]) {
      assert Names(r.0.log, PlanOf(c, pin), days[k], r.1[k]);
      FindKeyInPrefix(r.0.log, later.log, MaterializeKey(c.control.id, Some(c.period.value.id), days[k]));
    }
    NothingToMaterialize(later, refs', PlanOf(c', pin'), days, c'.draws, r.1);
  }

  /******* What generating adds *******/

  lemma KeyInjective(control: Id, period: Option<Id>, day: Day, control': Id, period': Option<Id>, day': Day)
    requires MaterializeKey(control, period, day) == MaterializeKey(control', period', day')
    ensures control == control' && period == period' && day == day'
  {
    var a, b := MaterializeKey(control, period, day), MaterializeKey(control', period', day');
    assert a[0] == b[0] && a[1] == b[1] && a[2] == b[2] && a[3] == b[3] && a[4] == b[4];
  }

  predicate IsGenerated(o: Occurrence, control: Id, period: Option<Id>, day: Day) {
    o.origin == Generated && o.control == control && o.period == period && o.due == Some(EndOf(day))
  }

  /** The creating event of a row, as a position of the log. */
  lemma BornAt(t: Tables, refs: Refs, i: nat)
    requires OccurrencesInv(t, refs) && i < |t.log| && Creates(t.log[i].body)
    ensures t.log[i].id in t.rows && SameCore(t.rows[t.log[i].id], NewRow(t.log[i]))
  {
    var v := t.log[i].id;
    RowOf(t, refs, v);
    assert t.log[..|t.log|] == t.log;
    OfAt(t.log, i, |t.log|);
    assert HistoryOk(Of(t.log, v));
    CoreOfHistory(Of(t.log, v));
  }

  /** What a key names is the generated occurrence of that control, period and day. */
  lemma NamedRow(t: Tables, refs: Refs, plan: Plan, day: Day, id: Id)
    requires OccurrencesInv(t, refs) && Names(t.log, plan, day, id)
    ensures id in t.rows && IsGenerated(t.rows[id], plan.control, plan.period, day)
  {
    var e := EventStore.FindKey(t.log, MaterializeKey(plan.control, plan.period, day)).value;
    var i :| 0 <= i < |t.log| && t.log[i] == e;
    assert KeyedAt(t.log, i);
    KeyInjective(e.body.control, e.body.period, e.body.due.day, plan.control, plan.period, day);
    BornAt(t, refs, i);
  }

  lemma GeneratedHasKey(t: Tables, refs: Refs, id: Id) returns (i: nat)
    requires OccurrencesInv(t, refs) && id in t.rows && t.rows[id].origin == Generated
    ensures i < |t.log| && t.rows[id].due.Some?
    ensures t.log[i].key == Some(MaterializeKey(t.rows[id].control, t.rows[id].period, t.rows[id].due.value.day))
  {
    RowOf(t, refs, id);
    i := OfIndex(t.log, id, 0);
    assert KeyedAt(t.log, i);
  }

  /** Conversely, a generated occurrence is named by its key. */
  lemma GeneratedIsNamed(t: Tables, refs: Refs, plan: Plan, day: Day, id: Id)
    requires OccurrencesInv(t, refs) && id in t.rows && IsGenerated(t.rows[id], plan.control, plan.period, day)
    ensures Names(t.log, plan, day, id)
  {
    var i := GeneratedHasKey(t, refs, id);
    var found := EventStore.FindKey(t.log, MaterializeKey(plan.control, plan.period, day)).value.id;
    NamedRow(t, refs, plan, day, found);
    assert !SharedSlot(t.rows, id, found);
  }

  /** `after` is `before` and new occurrences of the plan, each on one of the days. */
  ghost predicate Grew(before: map<Id, Occurrence>, after: map<Id, Occurrence>, plan: Plan, days: seq<Day>,
      draws: nat -> Draw) {
    && (forall v :: v in before ==> v in after && after[v] == before[v])
    && (forall v :: v in after && v !in before ==> IsNew(after[v], v, plan, days, draws))
  }

  ghost predicate IsNew(o: Occurrence, v: Id, plan: Plan, days: seq<Day>, draws: nat -> Draw) {
    o.pin == plan.pin && o.responsible == plan.responsible &&
    exists j :: 0 <= j < |days| && v == draws(j).id && IsGenerated(o, plan.control, plan.period, days[j])
  }

  lemma MaterializeGrows(t: Tables, refs: Refs, plan: Plan, day: Day, draw: Draw)
    ensures var r := Materialize(t, refs, plan, day, draw);
      r.Success? ==>
        var rows := r.value.0.rows;
        rows == t.rows ||
        (draw.id !in t.rows && draw.id in rows && rows == t.rows[draw.id := rows[draw.id]] &&
         IsGenerated(rows[draw.id], plan.control, plan.period, day) && rows[draw.id].pin == plan.pin &&
         rows[draw.id].responsible == plan.responsible)
  {
  }

  lemma {:induction false} MaterializeAllGrows(t: Tables, refs: Refs, plan: Plan, days: seq<Day>, draws: nat -> Draw)
    requires MaterializeAll(t, refs, plan, days, draws).Success?
    ensures Grew(t.rows, MaterializeAll(t, refs, plan, days, draws).value.0.rows, plan, days, draws)
  {
    if days != [] {
      var n := |days| - 1;
      MaterializeAllGrows(t, refs, plan, days[..n], draws);
      var before := MaterializeAll(t, refs, plan, days[..n], draws).value.0;
      MaterializeGrows(before, refs, plan, days[n], draws(n));
      var after := MaterializeAll(t, refs, plan, days, draws).value.0;
      forall v | v in after.rows && v !in t.rows ensures IsNew(after.rows[v], v, plan, days, draws) {
        if v in before.rows && after.rows[v] == before.rows[v] {
          var j :| 0 <= j < n && v == draws(j).id &&
              IsGenerated(before.rows[v], plan.control, plan.period, days[..n][j]);
          assert days[..n][j] == days[j];
        } else {
          assert v == draws(n).id;
        }
      }
    }
  }

  /** Every occurrence that is returned is the generated one of its day. */
  lemma GenerateReturns(t: Tables, refs: Refs, plan: Plan, days: seq<Day>, draws: nat -> Draw, k: nat)
    requires OccurrencesInv(t, refs) && MaterializeAll(t, refs, plan, days, draws).Success? && k < |days|
    ensures var r := MaterializeAll(t, refs, plan, days, draws).value;
      |r.1| == |days| && r.1[k] in r.0.rows && IsGenerated(r.0.rows[r.1[k]], plan.control, plan.period, days[k])
  {
    var r := MaterializeAll(t, refs, plan, days, draws).value;
    AllNamed(t, refs, plan, days, draws);
    MaterializeAllKeepsInv(t, refs, plan, days, draws);
    NamedRow(r.0, refs, plan, days[k], r.1[k]);
  }

  /** A rolling call changes the days of a control's period-less occurrences exactly as the calendar says. */
  lemma RollingCall(t: Tables, refs: Refs, c: Call, pin: Option<Id>)
    requires OccurrencesInv(t, refs) && Scheduled(c.control) && c.period.None? && Generate(t, refs, c, pin).Success?
    ensures PeriodlessDays(Generate(t, refs, c, pin).value.0.rows, c.control.id) ==
            Cadence.Roll(PeriodlessDays(t.rows, c.control.id), c.today, c.horizon, c.control.interval.value)
  {
    var plan, control := PlanOf(c, pin), c.control.id;
    var days := DueDays(t.rows, control, None, c.today, c.horizon, c.control.interval.value);
    var after := Generate(t, refs, c, pin).value.0;
    MaterializeAllGrows(t, refs, plan, days, c.draws);
    var old', new' := PeriodlessDays(t.rows, control), PeriodlessDays(after.rows, control);
    forall d | d in old' ensures d in new' {
      var v :| v in t.rows && t.rows[v].control == control && t.rows[v].period.None? && t.rows[v].due.Some? &&
        t.rows[v].due.value.day == d;
      assert after.rows[v] == t.rows[v];
    }
    forall k | 0 <= k < |days| ensures days[k] in new' {
      GenerateReturns(t, refs, plan, days, c.draws, k);
    }
    forall d | d in new' ensures d in old' || d in days {
      var v :| v in after.rows && after.rows[v].control == control && after.rows[v].period.None? &&
        after.rows[v].due.Some? && after.rows[v].due.value.day == d;
      assert v in t.rows ==> d in old';
    }
  }

  /** The control has a generated occurrence for that day of the period. */
  ghost predicate GeneratedOn(rows: map<Id, Occurrence>, control: Id, period: Option<Id>, day: Day) {
    exists v :: v in rows && IsGenerated(rows[v], control, period, day)
  }

  lemma AllReach(start: Cadence.Date, end: Cadence.Date, interval: int)
    requires interval > 0 && Cadence.Valid(start)
    ensures forall d :: d in Cadence.DatesFrom(start, end, interval) <==> Cadence.Reaches(start, end, interval, d)
  {
    forall d ensures d in Cadence.DatesFrom(start, end, interval) <==> Cadence.Reaches(start, end, interval, d) {
      Cadence.DatesMembers(start, end, interval, d);
    }
  }

  /** The day is one of the calendar's for the period: on the chain from its start, and not past its end. */
  ghost predicate DueIn(p: Period, interval: int, day: Day)
    requires interval > 0
  {
    Cadence.Reaches(p.starts, p.ends, interval, day)
  }

  lemma DueIffDated(p: Period, interval: int, day: Day)
    requires interval > 0
    ensures DueIn(p, interval, day) <==> day in Cadence.DatesFrom(p.starts, p.ends, interval)
  {
    Cadence.DatesMembers(p.starts, p.ends, interval, day);
  }

  lemma IndexOfDay(days: seq<Day>, day: Day) returns (k: nat)
    requires day in days
    ensures k < |days| && days[k] == day
  {
    k :| 0 <= k < |days| && days[k] == day;
  }

  /**
   What a call for an active period leaves: the generated days of the control and the period are those of
   before, and every day of the calendar from the period's start to its end, step by step.
   */
  lemma PeriodCall(t: Tables, refs: Refs, c: Call, pin: Option<Id>, day: Day)
    requires OccurrencesInv(t, refs) && Scheduled(c.control) && c.period.Some? && c.period.value.active
    requires Generate(t, refs, c, pin).Success?
    ensures var after := Generate(t, refs, c, pin).value.0;
      var period := Some(c.period.value.id);
      GeneratedOn(after.rows, c.control.id, period, day) <==>
      GeneratedOn(t.rows, c.control.id, period, day) || DueIn(c.period.value, c.control.interval.value, day)
  {
    var plan, p, interval := PlanOf(c, pin), c.period.value, c.control.interval.value;
    var days := DueDays(t.rows, c.control.id, c.period, c.today, c.horizon, interval);
    var after := Generate(t, refs, c, pin).value.0;
    MaterializeAllGrows(t, refs, plan, days, c.draws);
    DueIffDated(p, interval, day);
    if DueIn(p, interval, day) {
      var k := IndexOfDay(days, day);
      GenerateReturns(t, refs, plan, days, c.draws, k);
    }
    if v :| v in t.rows && IsGenerated(t.rows[v], plan.control, plan.period, day) {
      assert IsGenerated(after.rows[v], plan.control, plan.period, day);
    }
    if v :| v in after.rows && IsGenerated(after.rows[v], plan.control, plan.period, day) {
      if v !in t.rows {
        assert IsNew(after.rows[v], v, plan, days, c.draws);
        var j :| 0 <= j < |days| && IsGenerated(after.rows[v], plan.control, plan.period, days[j]);
      }
    }
  }

  /** What a call does not do: it never touches the generated days of another control or period. */
  lemma OtherGeneratedDays(t: Tables, refs: Refs, c: Call, pin: Option<Id>, control: Id, period: Option<Id>, day: Day)
    requires Generate(t, refs, c, pin).Success?
    requires control != c.control.id || period != PlanOf(c, pin).period
    ensures GeneratedOn(Generate(t, refs, c, pin).value.0.rows, control, period, day) <==>
            GeneratedOn(t.rows, control, period, day)
  {
    if Scheduled(c.control) {
      var plan, after := PlanOf(c, pin), Generate(t, refs, c, pin).value.0;
      var days := DueDays(t.rows, c.control.id, c.period, c.today, c.horizon, c.control.interval.value);
      MaterializeAllGrows(t, refs, plan, days, c.draws);
      if v :| v in t.rows && IsGenerated(t.rows[v], control, period, day) {
        assert IsGenerated(after.rows[v], control, period, day);
      }
      if v :| v in after.rows && IsGenerated(after.rows[v], control, period, day) {
        assert v !in t.rows ==> IsNew(after.rows[v], v, plan, days, c.draws);
      }
    }
  }

  /** Generating is refused for an inactive period, and does nothing for a control without a calendar cadence. */
  lemma GenerateGuards(t: Tables, refs: Refs, c: Call, pin: Option<Id>)
    ensures !c.control.calendar || c.control.interval.None? || c.control.interval.value <= 0 ==>
            Generate(t, refs, c, pin) == Success((t, []))
    ensures (c.control.calendar && c.control.interval.Some? && c.control.interval.value > 0 &&
             c.period.Some? && !c.period.value.active)
            ==> Generate(t, refs, c, pin) == Failure(ValueError)
  {
  }

  /******* Exactly when generating is refused *******/

  /** Somebody has recorded an occurrence by hand that is due at the end of that day. */
  ghost predicate TakenByHand(rows: map<Id, Occurrence>, plan: Plan, day: Day) {
    exists v :: v in rows && rows[v].origin == Manual && rows[v].control == plan.control &&
      rows[v].period == plan.period && rows[v].due == Some(EndOf(day))
  }

  lemma MaterializeSucceedsIff(t: Tables, refs: Refs, plan: Plan, day: Day, draw: Draw)
    requires OccurrencesInv(t, refs) && draw.id !in t.rows && (plan.pin.Some? ==> plan.pin.value in refs.definitions)
    ensures Materialize(t, refs, plan, day, draw).Success? <==> !TakenByHand(t.rows, plan, day)
    ensures Materialize(t, refs, plan, day, draw).Failure? ==>
            Materialize(t, refs, plan, day, draw).error == IntegrityError
  {
    var e := MaterializeEvent(t, plan, day, draw);
    var found := EventStore.FindKey(t.log, MaterializeKey(plan.control, plan.period, day));
    if found.Some? {
      NamedRow(t, refs, plan, day, found.value.id);
      if TakenByHand(t.rows, plan, day) {
        var v :| v in t.rows && t.rows[v].origin == Manual && t.rows[v].control == plan.control &&
          t.rows[v].period == plan.period && t.rows[v].due == Some(EndOf(day));
        assert SharedSlot(t.rows, v, found.value.id);
      }
    } else {
      forall v | Collides(t.rows, v, NewRow(e)) ensures TakenByHand(t.rows, plan, day) {
        if t.rows[v].origin == Generated {
          GeneratedIsNamed(t, refs, plan, day, v);
        }
      }
      if TakenByHand(t.rows, plan, day) {
        var v :| v in t.rows && t.rows[v].origin == Manual && t.rows[v].control == plan.control &&
          t.rows[v].period == plan.period && t.rows[v].due == Some(EndOf(day));
        assert Collides(t.rows, v, NewRow(e));
      }
    }
  }

  /** new_id draws ids that are not in use, each only once. */
  ghost predicate FreshDraws(rows: map<Id, Occurrence>, draws: nat -> Draw) {
    && (forall j: nat :: draws(j).id !in rows)
    && (forall i: nat, j: nat :: i < j ==> draws(i).id != draws(j).id)
  }

  ghost predicate NoneTaken(rows: map<Id, Occurrence>, plan: Plan, days: seq<Day>) {
    forall k {:trigger TakenByHand(rows, plan, days[k])} :: 0 <= k < |days| ==> !TakenByHand(rows, plan, days[k])
  }

  /**
   Generating fails exactly if one of the days is taken by a manual occurrence due at that day's very
   end. Contrary to the function's own description, such a due date is not returned unchanged: the
   whole call is refused.
   */
  lemma {:induction false} GenerateSucceedsIff(t: Tables, refs: Refs, plan: Plan, days: seq<Day>, draws: nat -> Draw)
    requires OccurrencesInv(t, refs) && (plan.pin.Some? ==> plan.pin.value in refs.definitions)
    requires FreshDraws(t.rows, draws)
    ensures MaterializeAll(t, refs, plan, days, draws).Success? <==> NoneTaken(t.rows, plan, days)
    ensures MaterializeAll(t, refs, plan, days, draws).Failure? ==>
            MaterializeAll(t, refs, plan, days, draws).error == IntegrityError
  {
    if days != [] {
      var n := |days| - 1;
      GenerateSucceedsIff(t, refs, plan, days[..n], draws);
      NoneTakenAppend(t.rows, plan, days);
      if MaterializeAll(t, refs, plan, days[..n], draws).Success? {
        LastDaySucceedsIff(t, refs, plan, days[..n], draws, days[n]);
      }
    }
  }

  lemma NoneTakenAppend(rows: map<Id, Occurrence>, plan: Plan, days: seq<Day>)
    requires days != []
    ensures var n := |days| - 1;
      NoneTaken(rows, plan, days) <==> NoneTaken(rows, plan, days[..n]) && !TakenByHand(rows, plan, days[n])
  {
    var n := |days| - 1;
    forall k | 0 <= k < n ensures TakenByHand(rows, plan, days[k]) <==> TakenByHand(rows, plan, days[..n][k]) {
    }
    if NoneTaken(rows, plan, days) {
      forall k | 0 <= k < n ensures !TakenByHand(rows, plan, days[..n][k]) {
        assert !TakenByHand(rows, plan, days[k]);
      }
    }
    if NoneTaken(rows, plan, days[..n]) && !TakenByHand(rows, plan, days[n]) {
      forall k | 0 <= k < |days| ensures !TakenByHand(rows, plan, days[k]) {
        assert k < n ==> !TakenByHand(rows, plan, days[..n][k]);
      }
    }
  }

  lemma LastDaySucceedsIff(t: Tables, refs: Refs, plan: Plan, days: seq<Day>, draws: nat -> Draw, day: Day)
    requires OccurrencesInv(t, refs) && (plan.pin.Some? ==> plan.pin.value in refs.definitions)
    requires FreshDraws(t.rows, draws) && MaterializeAll(t, refs, plan, days, draws).Success?
    ensures var r := Materialize(MaterializeAll(t, refs, plan, days, draws).value.0, refs, plan, day, draws(|days|));
      && (r.Success? <==> !TakenByHand(t.rows, plan, day))
      && (r.Failure? ==> r.error == IntegrityError)
  {
    var before := MaterializeAll(t, refs, plan, days, draws).value.0;
    MaterializeAllKeepsInv(t, refs, plan, days, draws);
    MaterializeAllGrows(t, refs, plan, days, draws);
    SameManual(t.rows, before.rows, plan, days, draws, day);
    NextDrawFresh(t.rows, before.rows, plan, days, draws);
    MaterializeSucceedsIff(before, refs, plan, day, draws(|days|));
  }

  lemma NextDrawFresh(before: map<Id, Occurrence>, after: map<Id, Occurrence>, plan: Plan, days: seq<Day>,
      draws: nat -> Draw)
    requires Grew(before, after, plan, days, draws) && FreshDraws(before, draws)
    ensures draws(|days|).id !in after
  {
    var v := draws(|days|).id;
    assert v in after && v !in before ==> IsNew(after[v], v, plan, days, draws);
  }

  /** A rolling call is never refused: all its days lie after every period-less day on record. */
  lemma RollingNeverRefused(t: Tables, refs: Refs, c: Call, pin: Option<Id>)
    requires OccurrencesInv(t, refs) && Scheduled(c.control) && c.period.None? && FreshDraws(t.rows, c.draws)
    requires pin.Some? ==> pin.value in refs.definitions
    ensures Generate(t, refs, c, pin).Success?
  {
    var plan, interval := PlanOf(c, pin), c.control.interval.value;
    var days := DueDays(t.rows, c.control.id, None, c.today, c.horizon, interval);
    forall k | 0 <= k < |days| ensures !TakenByHand(t.rows, plan, days[k]) {
      Cadence.RollingDateIsNew(PeriodlessDays(t.rows, c.control.id), c.today, c.horizon, interval, days[k]);
    }
    GenerateSucceedsIff(t, refs, plan, days, c.draws);
  }

  /**
   From every state in which a period's first day is free: recording an occurrence by hand for the end
   of that day succeeds, and every call to generate the period is refused from then on.
   */
  lemma ManualBlocksPeriod(t: Tables, refs: Refs, c: Call, pin: Option<Id>, draw: Draw, actor: Option<Id>)
    returns (after: Tables)
    requires OccurrencesInv(t, refs) && Scheduled(c.control) && (pin.Some? ==> pin.value in refs.definitions)
    requires c.period.Some? && c.period.value.active
    requires Cadence.OnOrBefore(c.period.value.starts, c.period.value.ends)
    requires draw.id !in t.rows && forall v :: v in t.rows ==>
      !(t.rows[v].control == c.control.id && t.rows[v].period == Some(c.period.value.id) &&
        t.rows[v].due == Some(EndOf(c.period.value.starts)))
    ensures ExecOccurrence(t, refs, _ => pin, RecordManually(c.control.id, Some(c.period.value.id),
              Some(EndOf(c.period.value.starts)), "", actor, draw)) == Success(after)
    ensures FreshDraws(after.rows, c.draws) ==> Generate(after, refs, c, pin) == Failure(IntegrityError)
  {
    var plan, day := PlanOf(c, pin), c.period.value.starts;
    after := RecordTaken(t, refs, plan, day, draw, actor);
    var days := DueDays(after.rows, c.control.id, c.period, c.today, c.horizon, c.control.interval.value);
    assert days[0] == day;
    if FreshDraws(after.rows, c.draws) {
      GenerateSucceedsIff(after, refs, plan, days, c.draws);
      assert TakenByHand(after.rows, plan, days[0]);
    }
  }

  lemma RecordTaken(t: Tables, refs: Refs, plan: Plan, day: Day, draw: Draw, actor: Option<Id>) returns (after: Tables)
    requires OccurrencesInv(t, refs) && (plan.pin.Some? ==> plan.pin.value in refs.definitions)
    requires draw.id !in t.rows && forall v :: v in t.rows ==>
      !(t.rows[v].control == plan.control && t.rows[v].period == plan.period && t.rows[v].due == Some(EndOf(day)))
    ensures Append(t, refs, NewEvent(t, draw.id,
              RecordedManually(plan.control, plan.period, Some(EndOf(day)), "", plan.pin), None, None, actor, draw.at))
            == Success(after)
    ensures OccurrencesInv(after, refs) && TakenByHand(after.rows, plan, day)
  {
    var e := NewEvent(t, draw.id, RecordedManually(plan.control, plan.period, Some(EndOf(day)), "", plan.pin),
                      None, None, actor, draw.at);
    AppendKeepsInv(t, refs, e);
    after := Append(t, refs, e).value;
    assert after.rows[draw.id] == NewRow(e);
  }

  lemma SameManual(before: map<Id, Occurrence>, after: map<Id, Occurrence>, plan: Plan, days: seq<Day>,
      draws: nat -> Draw, day: Day)
    requires Grew(before, after, plan, days, draws)
    ensures TakenByHand(after, plan, day) <==> TakenByHand(before, plan, day)
  {
  }

  /******* The table *******/

  class OccurrenceTable {
    var tables: Tables

    constructor ()
      ensures tables == Tables([], map[])
    {
      tables := Tables([], map[]);
    }

    /** func.max(due_at), as a day. */
    method LatestDay(control: Id) returns (latest: Option<Day>)
      ensures var days := PeriodlessDays(tables.rows, control);
        if days == {} then latest == None else latest == Some(Cadence.Latest(days))
    {
      var found := Cadence.FindLatest(PeriodlessDays(tables.rows, control));
      latest := if found.Some? then Some(found.value) else None;
    }

    method ComputeDueDays(control: Id, period: Option<Period>, today: Day, horizon: int, interval: int)
      returns (days: seq<Day>)
      requires interval > 0
      ensures days == DueDays(tables.rows, control, period, today, horizon, interval)
      ensures period.Some? ==> forall d: Cadence.Date ::
        d in days <==> Cadence.Reaches(period.value.starts, period.value.ends, interval, d)
      ensures period.None? ==> forall d: Cadence.Date ::
        d in days <==> Cadence.Reaches(Cadence.RollingStart(PeriodlessDays(tables.rows, control), today, interval),
                                       Cadence.AddMonths(today, horizon), interval, d)
    {
      if period.Some? {
        DatesAreDays(period.value.starts, period.value.ends, interval);
        AllReach(period.value.starts, period.value.ends, interval);
        days := Cadence.ComputeDates(period.value.starts, period.value.ends, interval);
      } else {
        var latest := LatestDay(control);
        var start: Cadence.Date := today;
        if latest.Some? {
          Cadence.AddMonthsMoves(latest.value, interval);
          start := Cadence.AddMonths(latest.value, interval);
        }
        var end := Cadence.AddMonths(today, horizon);
        DatesAreDays(start, end, interval);
        AllReach(start, end, interval);
        days := Cadence.ComputeDates(start, end, interval);
      }
    }

    /** generate_occurrences; `pin` is the effective definition version, read once. A failure is rolled back. */
    method GenerateOccurrences(c: Call, refs: Refs, pin: Option<Id>) returns (r: Result<seq<Id>>)
      modifies this
      ensures match Generate(old(tables), refs, c, pin)
        case Success(p) => tables == p.0 && r == Success(p.1)
        case Failure(e) => tables == old(tables) && r == Failure(e)
      ensures OccurrencesInv(old(tables), refs) && Scheduled(c.control) && c.period.Some? && r.Success? ==>
        forall day :: GeneratedOn(tables.rows, c.control.id, Some(c.period.value.id), day) <==>
          GeneratedOn(old(tables.rows), c.control.id, Some(c.period.value.id), day) ||
          DueIn(c.period.value, c.control.interval.value, day)
    {
      ghost var before := tables;
      if !Scheduled(c.control) {
        return Success([]);
      }
      if c.period.Some? && !c.period.value.active {
        return Failure(ValueError);
      }
      var days := ComputeDueDays(c.control.id, c.period, c.today, c.horizon, c.control.interval.value);
      r := MaterializeDays(PlanOf(c, pin), refs, days, c.draws);
      if OccurrencesInv(before, refs) && c.period.Some? && r.Success? {
        forall day {
          PeriodCall(before, refs, c, pin, day);
        }
      }
    }

    /** The loop of generate_occurrences over the due dates. */
    method MaterializeDays(plan: Plan, refs: Refs, days: seq<Day>, draws: nat -> Draw) returns (r: Result<seq<Id>>)
      modifies this
      ensures match MaterializeAll(old(tables), refs, plan, days, draws)
        case Success(p) => tables == p.0 && r == Success(p.1)
        case Failure(e) => tables == old(tables) && r == Failure(e)
    {
      var saved := tables;
      var ids := [];
      for i := 0 to |days|
        invariant MaterializeAll(saved, refs, plan, days[..i], draws) == Success((tables, ids))
      {
        assert days[..i + 1][..i] == days[..i];
        var one := Materialize(tables, refs, plan, days[i], draws(i));
        if one.Failure? {
          StaysRefused(saved, refs, plan, days, draws, i + 1);
          tables := saved;
          return Failure(one.error);
        }
        tables := one.value.0;
        ids := ids + [one.value.1];
      }
      assert days[..|days|] == days;
      r := Success(ids);
    }
  }

  lemma {:induction false} StaysRefused(t: Tables, refs: Refs, plan: Plan, days: seq<Day>, draws: nat -> Draw, k: nat)
    requires k <= |days| && MaterializeAll(t, refs, plan, days[..k], draws).Failure?
    ensures MaterializeAll(t, refs, plan, days, draws) == MaterializeAll(t, refs, plan, days[..k], draws)
    decreases |days|
  {
    if k < |days| {
      var front := days[..|days| - 1];
      assert front[..k] == days[..k];
      StaysRefused(t, refs, plan, front, draws, k);
    } else {
      assert days[..k] == days;
    }
  }
}
