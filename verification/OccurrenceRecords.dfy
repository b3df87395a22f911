/**
 What control occurrences hold (app/control_occurrences.py): the whole row from its events, which commands
 are accepted, and what an accepted command writes.
 */
module OccurrenceRecords {
  import opened Common
  import opened EventLog
  import opened Replay
  import opened Occurrences
  import Operations

  /******* The row of an occurrence *******/

  ghost predicate LastPerformance(es: seq<OccurrenceEvent>, p: nat) {
    p < |es| && es[p].body.Performed? && forall i :: p < i < |es| ==> !es[i].body.Performed?
  }

  /** The columns that stay as the creating event stated them. */
  ghost predicate Born(o: Occurrence, e: OccurrenceEvent) {
    && o.createdAt == e.recordedAt
    && (e.body.Materialized? ==>
          && o.origin == Generated && o.control == e.body.control && o.period == e.body.period
          && o.due == Some(e.body.due) && o.responsible == e.body.responsible && o.pin == e.body.pin)
    && (e.body.RecordedManually? ==>
          && o.origin == Manual && o.control == e.body.control && o.period == e.body.period
          && o.due == e.body.dueAt && o.responsible == None && o.pin == e.body.pin)
  }

  /** The columns of a performance, which the last one gives: its stated time, and the time of its recording. */
  ghost predicate Done(o: Occurrence, e: OccurrenceEvent)
    requires e.body.Performed?
  {
    && o.performedAt == Some(e.occurredAt) && o.performedBy == e.body.person && o.scopeNote == e.body.scope
    && o.evidenceNote == e.body.evidenceNote && o.updatedAt == e.recordedAt
  }

  ghost predicate NotDone(o: Occurrence, e: OccurrenceEvent) {
    && o.performedAt == None && o.performedBy == None && o.evidenceNote == "" && o.updatedAt == e.recordedAt
    && o.scopeNote == if e.body.RecordedManually? then e.body.scopeNote else ""
  }

  /** The row says what its events say, in every column and link. */
  ghost predicate Tells(o: Occurrence, es: seq<OccurrenceEvent>) {
    && es != [] && Creates(es[0].body) && Born(o, es[0])
    && (forall p: nat {:trigger LastPerformance(es, p)} :: LastPerformance(es, p) ==> Done(o, es[p]))
    && ((forall i :: 0 <= i < |es| ==> !es[i].body.Performed?) ==> NotDone(o, es[0]))
    && (forall s :: s in o.snapshots <==> exists i :: 0 <= i < |es| && es[i].body == SnapshotLinked(s))
    && (forall v :: v in o.artifacts <==> exists i :: 0 <= i < |es| && es[i].body == ArtifactLinked(v))
  }

  lemma {:induction false} RowFromEvents(es: seq<OccurrenceEvent>)
    requires HistoryOk(es) && es != []
    ensures var row := Fold(ProjectOccurrence, None, es); row.Some? && Tells(row.value, es)
  {
    var n := |es| - 1;
    var front := es[..n];
    CoreOfHistory(es);
    assert AcceptedAt(es, n);
    if n == 0 {
      assert Fold(ProjectOccurrence, None, front) == None;
    } else {
      HistoryPrefix(es, n);
      RowFromEvents(front);
      var o, o' := Fold(ProjectOccurrence, None, front).value, Fold(ProjectOccurrence, None, es).value;
      Performance(es, o, o');
      Links(es, o, o');
    }
  }

  lemma Performance(es: seq<OccurrenceEvent>, o: Occurrence, o': Occurrence)
    requires |es| > 1 && !Creates(es[|es| - 1].body) && Tells(o, es[..|es| - 1])
    requires ProjectOccurrence(Some(o), es[|es| - 1]) == Some(o')
    ensures forall p: nat {:trigger LastPerformance(es, p)} :: LastPerformance(es, p) ==> Done(o', es[p])
    ensures (forall i :: 0 <= i < |es| ==> !es[i].body.Performed?) ==> NotDone(o', es[0])
  {
    var n := |es| - 1;
    var front := es[..n];
    forall p: nat | LastPerformance(es, p) ensures Done(o', es[p]) {
      if p < n {
        assert LastPerformance(front, p);
      }
    }
    if forall i :: 0 <= i < |es| ==> !es[i].body.Performed? {
      assert forall i :: 0 <= i < n ==> front[i] == es[i];
      assert !es[n].body.Performed?;
    }
  }

  lemma Links(es: seq<OccurrenceEvent>, o: Occurrence, o': Occurrence)
    requires |es| > 1 && !Creates(es[|es| - 1].body) && Tells(o, es[..|es| - 1])
    requires ProjectOccurrence(Some(o), es[|es| - 1]) == Some(o')
    ensures forall s :: s in o'.snapshots <==> exists i :: 0 <= i < |es| && es[i].body == SnapshotLinked(s)
    ensures forall v :: v in o'.artifacts <==> exists i :: 0 <= i < |es| && es[i].body == ArtifactLinked(v)
  {
    var n := |es| - 1;
    var front := es[..n];
    forall s ensures s in o'.snapshots <==> exists i :: 0 <= i < |es| && es[i].body == SnapshotLinked(s) {
      StatedBefore(es, SnapshotLinked(s));
    }
    forall v ensures v in o'.artifacts <==> exists i :: 0 <= i < |es| && es[i].body == ArtifactLinked(v) {
      StatedBefore(es, ArtifactLinked(v));
    }
  }

  lemma StatedBefore(es: seq<OccurrenceEvent>, b: OccurrenceBody)
    requires es != []
    ensures var front := es[..|es| - 1];
      (exists i :: 0 <= i < |es| && es[i].body == b) <==>
      (exists i :: 0 <= i < |front| && front[i].body == b) || es[|es| - 1].body == b
  {
    var front := es[..|es| - 1];
    if i :| 0 <= i < |es| && es[i].body == b {
      assert i < |front| ==> front[i].body == b;
    }
    if i :| 0 <= i < |front| && front[i].body == b {
      assert es[i].body == b;
    }
  }

  /** In every run there is a row exactly for each occurrence with events, and it tells them. */
  lemma RunRows(cmds: seq<Operations.WorldCommand>, v: Id)
    ensures var t := Operations.RunWorld(cmds).occs;
      && (v in t.rows <==> Of(t.log, v) != [])
      && (v in t.rows ==> Tells(t.rows[v], Of(t.log, v)))
  {
    Operations.RunWorldInv(cmds);
    var w := Operations.RunWorld(cmds);
    RowOf(w.occs, Operations.RefsOf(w), v);
    assert HistoryOk(Of(w.occs.log, v));
    if Of(w.occs.log, v) != [] {
      RowFromEvents(Of(w.occs.log, v));
    }
  }

  /******* Which commands are accepted *******/

  /** An occurrence of the control and the period is due at that very time. */
  ghost predicate DueThen(rows: map<Id, Occurrence>, control: Id, period: Option<Id>, due: DueAt) {
    exists v :: v in rows && rows[v].control == control && rows[v].period == period && rows[v].due == Some(due)
  }

  /** When each command on a single occurrence goes through, if the version it pins is on record. */
  ghost predicate Acceptable(t: Tables, refs: Refs, c: OccurrenceCommand)
    requires !c.GenerateCall?
  {
    match c
    case RecordManually(control, period, dueAt, _, _, draw) =>
      draw.id !in t.rows && (dueAt.Some? ==> !DueThen(t.rows, control, period, dueAt.value))
    case Perform(id, _, _, _, _, _, _) => id in t.rows
    case LinkSnapshot(id, snapshot, _, _) => id in t.rows && snapshot !in t.rows[id].snapshots
    case LinkArtifact(id, version, _, _) =>
      id in t.rows && version !in t.rows[id].artifacts && version in refs.evidence
  }

  lemma AcceptedIff(t: Tables, refs: Refs, effective: Id -> Option<Id>, c: OccurrenceCommand)
    requires !c.GenerateCall?
    requires c.RecordManually? && effective(c.control).Some? ==> effective(c.control).value in refs.definitions
    ensures ExecOccurrence(t, refs, effective, c).Success? <==> Acceptable(t, refs, c)
    ensures ExecOccurrence(t, refs, effective, c) == Failure(MissingRow) <==>
      !c.RecordManually? && c.id !in t.rows
  {
    if c.RecordManually? {
      var e := NewEvent(t, c.draw.id, RecordedManually(c.control, c.period, c.dueAt, c.scopeNote, effective(c.control)),
        None, None, c.actor, c.draw.at);
      assert (exists v | v in t.rows :: Collides(t.rows, v, NewRow(e))) <==>
        c.dueAt.Some? && DueThen(t.rows, c.control, c.period, c.dueAt.value);
    }
  }

  /******* What they write *******/

  /** Recording by hand adds one row, pinned to the effective definition; the clock gives its times. */
  lemma RecordingWrites(t: Tables, refs: Refs, effective: Id -> Option<Id>, c: OccurrenceCommand)
    requires c.RecordManually? && ExecOccurrence(t, refs, effective, c).Success?
    ensures var after := ExecOccurrence(t, refs, effective, c).value;
      && after.rows == t.rows[c.draw.id := Occurrence(c.control, c.period, Manual, c.dueAt, effective(c.control), None,
           None, None, c.scopeNote, "", c.draw.at, c.draw.at, {}, {})]
      && |after.log| == |t.log| + 1 && after.log[..|t.log|] == t.log && after.log[|t.log|].actor == c.actor
  {
  }

  /** A performance is stated at the time that the caller gives, and recorded at the clock's. */
  lemma PerformingWrites(t: Tables, refs: Refs, effective: Id -> Option<Id>, c: OccurrenceCommand)
    requires c.Perform? && ExecOccurrence(t, refs, effective, c).Success?
    ensures var after := ExecOccurrence(t, refs, effective, c).value;
      && after.rows == t.rows[c.id := t.rows[c.id].(performedAt := Some(c.occurredAt), performedBy := c.person,
           scopeNote := c.scope, evidenceNote := c.note, updatedAt := c.at)]
      && |after.log| == |t.log| + 1 && after.log[..|t.log|] == t.log && after.log[|t.log|].actor == c.actor
      && after.log[|t.log|].occurredAt == c.occurredAt && after.log[|t.log|].recordedAt == c.at
  {
  }

  lemma LinkingWrites(t: Tables, refs: Refs, effective: Id -> Option<Id>, c: OccurrenceCommand)
    requires (c.LinkSnapshot? || c.LinkArtifact?) && ExecOccurrence(t, refs, effective, c).Success?
    ensures var after := ExecOccurrence(t, refs, effective, c).value; var o := t.rows[c.id];
      && after.rows == t.rows[c.id :=
           if c.LinkSnapshot? then o.(snapshots := o.snapshots + {c.snapshot})
           else o.(artifacts := o.artifacts + {c.version})]
      && |after.log| == |t.log| + 1 && after.log[..|t.log|] == t.log && after.log[|t.log|].actor == c.actor
      && after.log[|t.log|].recordedAt == c.at
  {
  }

  /** The row that generating adds for a day: due with its last microsecond, and nothing done yet. */
  ghost predicate GeneratedRow(o: Occurrence, plan: Plan, day: Day, at: Time) {
    o == Occurrence(plan.control, plan.period, Generated, Some(DueAt(day, 24 * 60 * 60 * 1_000_000 - 1)), plan.pin,
                    plan.responsible, None, None, "", "", at, at, {}, {})
  }

  /** Every row that a call adds is such a row, for one of its days and with the id drawn for it. */
  lemma {:induction false} GeneratingWrites(t: Tables, refs: Refs, plan: Plan, days: seq<Day>, draws: nat -> Draw)
    requires MaterializeAll(t, refs, plan, days, draws).Success?
    ensures var rows := MaterializeAll(t, refs, plan, days, draws).value.0.rows;
      && (forall v :: v in t.rows ==> v in rows && rows[v] == t.rows[v])
      && (forall v :: v in rows && v !in t.rows ==> exists j :: DrawnFor(rows[v], v, plan, days, draws, j))
  {
    if days != [] {
      var n := |days| - 1;
      GeneratingWrites(t, refs, plan, days[..n], draws);
      var before := MaterializeAll(t, refs, plan, days[..n], draws).value.0;
      var rows := MaterializeAll(t, refs, plan, days, draws).value.0.rows;
      forall v | v in rows && v !in t.rows ensures exists j :: DrawnFor(rows[v], v, plan, days, draws, j) {
        if v in before.rows {
          var j :| DrawnFor(before.rows[v], v, plan, days[..n], draws, j);
          assert DrawnFor(rows[v], v, plan, days, draws, j);
        } else {
          assert DrawnFor(rows[v], v, plan, days, draws, n);
        }
      }
    }
  }

  ghost predicate DrawnFor(o: Occurrence, v: Id, plan: Plan, days: seq<Day>, draws: nat -> Draw, j: int) {
    0 <= j < |days| && v == draws(j).id && GeneratedRow(o, plan, days[j], draws(j).at)
  }

  /** What such a call appends: materializing events by its actor, stated and recorded at the clock's time. */
  lemma {:induction false} GeneratingLogs(t: Tables, refs: Refs, plan: Plan, days: seq<Day>, draws: nat -> Draw)
    requires MaterializeAll(t, refs, plan, days, draws).Success?
    ensures var log := MaterializeAll(t, refs, plan, days, draws).value.0.log;
      && |t.log| <= |log| && log[..|t.log|] == t.log
      && (forall k :: |t.log| <= k < |log| ==>
            log[k].body.Materialized? && log[k].actor == plan.actor && log[k].occurredAt == log[k].recordedAt)
  {
    if days != [] {
      GeneratingLogs(t, refs, plan, days[..|days| - 1], draws);
    }
  }

  /** The plan of a call: the control's owner is responsible, and the effective definition is pinned. */
  lemma CallWrites(t: Tables, refs: Refs, effective: Id -> Option<Id>, call: Call, v: Id)
    requires ExecOccurrence(t, refs, effective, GenerateCall(call)).Success?
    ensures var rows := ExecOccurrence(t, refs, effective, GenerateCall(call)).value.rows;
      v in rows && v !in t.rows ==>
        && rows[v].origin == Generated && rows[v].control == call.control.id
        && rows[v].period == (if call.period.Some? then Some(call.period.value.id) else None)
        && rows[v].due.Some? && rows[v].due.value.micros == 24 * 60 * 60 * 1_000_000 - 1
        && rows[v].responsible == call.control.owner && rows[v].pin == effective(call.control.id)
        && exists j: nat :: v == call.draws(j).id && rows[v].createdAt == call.draws(j).at
  {
    if Scheduled(call.control) {
      var plan := PlanOf(call, effective(call.control.id));
      var days :=
        DueDays(t.rows, call.control.id, call.period, call.today, call.horizon, call.control.interval.value);
      GeneratingWrites(t, refs, plan, days, call.draws);
      var rows := MaterializeAll(t, refs, plan, days, call.draws).value.0.rows;
      if v in rows && v !in t.rows {
        var j :| DrawnFor(rows[v], v, plan, days, call.draws, j);
        var i: nat := j;
        assert v == call.draws(i).id;
      }
    }
  }
}
