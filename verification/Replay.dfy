/**
 Replaying the log into a projection table (app/events.py, rebuild_projection), for any projector
 that reads and writes only its own aggregate's row.
 */
module Replay {
  import opened Common
  import opened EventLog

  /** What a projector does to the row of its aggregate; `None` is an absent row. */
  type Projector<!R, !B> = (Option<R>, Event<B>) -> Option<R>

  function Lookup<R>(rows: map<Id, R>, id: Id): Option<R> {
    if id in rows then Some(rows[id]) else None
  }

  function Write<R>(rows: map<Id, R>, id: Id, row: Option<R>): map<Id, R> {
    match row
    case Some(r) => rows[id := r]
    case None => rows - {id}
  }

  lemma LookupWrite<R>(rows: map<Id, R>, at: Id, row: Option<R>, id: Id)
    ensures Lookup(Write(rows, at, row), id) == if id == at then row else Lookup(rows, id)
  {
  }

  function Project<R, B>(step: Projector<R, B>, rows: map<Id, R>, e: Event<B>): map<Id, R> {
    Write(rows, e.id, step(Lookup(rows, e.id), e))
  }

  /** The whole table after projecting `es` in order. */
  function ProjectAll<R, B>(step: Projector<R, B>, rows: map<Id, R>, es: seq<Event<B>>): map<Id, R> {
    if es == [] then rows
    else Project(step, ProjectAll(step, rows, es[..|es| - 1]), es[|es| - 1])
  }

  /** One row after folding one aggregate's events over it. */
  function Fold<R, B>(step: Projector<R, B>, row: Option<R>, es: seq<Event<B>>): Option<R> {
    if es == [] then row
    else step(Fold(step, row, es[..|es| - 1]), es[|es| - 1])
  }

  lemma FoldAppend<R, B>(step: Projector<R, B>, row: Option<R>, es: seq<Event<B>>, e: Event<B>)
    ensures Fold(step, row, es + [e]) == step(Fold(step, row, es), e)
  {
    assert (es + [e])[..|es|] == es;
  }

  /** Projectors commute across aggregates: a row depends only on its own aggregate's history. */
  lemma {:induction false} RowAfter<R, B>(step: Projector<R, B>, rows: map<Id, R>, es: seq<Event<B>>, id: Id)
    ensures Lookup(ProjectAll(step, rows, es), id) == Fold(step, Lookup(rows, id), Of(es, id))
  {
    if es != [] {
      var front, last := es[..|es| - 1], es[|es| - 1];
      RowAfter(step, rows, front, id);
      LookupWrite(ProjectAll(step, rows, front), last.id, step(Lookup(ProjectAll(step, rows, front), last.id), last),
          id);
      if last.id == id {
        FoldAppend(step, Lookup(rows, id), Of(front, id), last);
      } else {
        assert Of(es, id) == Of(front, id);
      }
    }
  }

  /** Two orders that agree on every single aggregate replay to the same table. */
  lemma SameHistoriesSameTable<R, B>(step: Projector<R, B>, rows: map<Id, R>, es: seq<Event<B>>, fs: seq<Event<B>>)
    requires forall id :: Of(es, id) == Of(fs, id)
    ensures ProjectAll(step, rows, es) == ProjectAll(step, rows, fs)
  {
    var a, b := ProjectAll(step, rows, es), ProjectAll(step, rows, fs);
    forall id ensures Lookup(a, id) == Lookup(b, id) {
      RowAfter(step, rows, es, id);
      RowAfter(step, rows, fs, id);
    }
    forall id | id in a ensures id in b && a[id] == b[id] {
      assert Lookup(a, id) == Lookup(b, id);
    }
    forall id | id in b ensures id in a {
      assert Lookup(a, id) == Lookup(b, id);
    }
    assert a == b;
  }

  /******* ORDER BY *******/

  /** `ORDER BY recorded_at, aggregate_type, aggregate_id, aggregate_sequence`, within one aggregate type. */
  predicate RebuildOrder<B>(a: Event<B>, b: Event<B>) {
    a.recordedAt < b.recordedAt ||
    (a.recordedAt == b.recordedAt && (a.id < b.id || (a.id == b.id && a.sequence <= b.sequence)))
  }

  /** `ORDER BY recorded_at, aggregate_sequence`. Ties across aggregates are left to the database. */
  predicate HistoryOrder<B>(a: Event<B>, b: Event<B>) {
    a.recordedAt < b.recordedAt || (a.recordedAt == b.recordedAt && a.sequence <= b.sequence)
  }

  ghost predicate Ordered<B>(order: (Event<B>, Event<B>) -> bool, es: seq<Event<B>>) {
    forall i, j {:trigger InOrder(order, es, i, j)} :: 0 <= i < j < |es| ==> InOrder(order, es, i, j)
  }

  ghost predicate InOrder<B>(order: (Event<B>, Event<B>) -> bool, es: seq<Event<B>>, i: int, j: int)
    requires 0 <= i < |es| && 0 <= j < |es|
  {
    order(es[i], es[j])
  }

  /** `es` is an answer the database may give to selecting `log` in that order. */
  ghost predicate Selected<B>(order: (Event<B>, Event<B>) -> bool, log: seq<Event<B>>, es: seq<Event<B>>) {
    multiset(es) == multiset(log) && Ordered(order, es)
  }

  /** The unique constraint on (aggregate_type, aggregate_id, aggregate_sequence). */
  ghost predicate UniqueSlots<B>(log: seq<Event<B>>) {
    forall i, j {:trigger SlotsDiffer(log, i, j)} :: 0 <= i < j < |log| ==> SlotsDiffer(log, i, j)
  }

  ghost predicate SlotsDiffer<B>(log: seq<Event<B>>, i: int, j: int)
    requires 0 <= i < |log| && 0 <= j < |log|
  {
    log[i].id == log[j].id ==> log[i].sequence != log[j].sequence
  }

  /** Along each aggregate's history in append order, numbers rise and recorded times do not fall. */
  ghost predicate RecordedInOrder<B>(log: seq<Event<B>>) {
    forall i, j {:trigger InTime(log, i, j)} :: 0 <= i < j < |log| ==> InTime(log, i, j)
  }

  ghost predicate InTime<B>(log: seq<Event<B>>, i: int, j: int)
    requires 0 <= i < |log| && 0 <= j < |log|
  {
    log[i].id == log[j].id ==> log[i].recordedAt <= log[j].recordedAt && log[i].sequence < log[j].sequence
  }

  /** Strictly ascending in (recorded_at, aggregate_sequence). */
  ghost predicate Ascending<B>(es: seq<Event<B>>) {
    forall i, j {:trigger Before(es[i], es[j])} :: 0 <= i < j < |es| ==> Before(es[i], es[j])
  }

  predicate Before<B>(a: Event<B>, b: Event<B>) {
    HistoryOrder(a, b) && !HistoryOrder(b, a)
  }

  /** There is only one strictly ascending arrangement of a collection of events. */
  lemma {:induction false} AscendingUnique<B>(es: seq<Event<B>>, fs: seq<Event<B>>)
    requires Ascending(es) && Ascending(fs) && multiset(es) == multiset(fs)
    ensures es == fs
  {
    assert |es| == |multiset(es)| == |multiset(fs)| == |fs|;
    if es != [] {
      var n := |es| - 1;
      SameLast(es, fs);
      assert es == es[..n] + [es[n]] && fs == fs[..n] + [fs[n]];
      assert multiset(es[..n]) == multiset(es) - multiset{es[n]};
      assert multiset(fs[..n]) == multiset(fs) - multiset{fs[n]};
      AscendingFront(es);
      AscendingFront(fs);
      AscendingUnique(es[..n], fs[..n]);
    }
  }

  lemma AscendingFront<B>(es: seq<Event<B>>)
    requires Ascending(es) && es != []
    ensures Ascending(es[..|es| - 1])
  {
    var front := es[..|es| - 1];
    forall i, j | 0 <= i < j < |front| ensures Before(front[i], front[j]) {
      assert Before(es[i], es[j]);
    }
  }

  lemma SameLast<B>(es: seq<Event<B>>, fs: seq<Event<B>>)
    requires Ascending(es) && Ascending(fs) && multiset(es) == multiset(fs) && |es| == |fs| > 0
    ensures es[|es| - 1] == fs[|fs| - 1]
  {
    var n := |es| - 1;
    var i := IndexOf(fs, es[n]);
    var j := IndexOf(es, fs[n]);
    assert i < n ==> Before(fs[i], fs[n]);
    assert j < n ==> Before(es[j], es[n]);
  }

  lemma IndexOf<B>(es: seq<Event<B>>, e: Event<B>) returns (i: nat)
    requires e in multiset(es)
    ensures i < |es| && es[i] == e
  {
    i :| 0 <= i < |es| && es[i] == e;
  }

  /** How often an event occurs in one aggregate's history. */
  lemma {:induction false} OfCount<B>(log: seq<Event<B>>, id: Id, e: Event<B>)
    ensures multiset(Of(log, id))[e] == if e.id == id then multiset(log)[e] else 0
  {
    if log != [] {
      var n := |log| - 1;
      OfCount(log[..n], id, e);
      assert log == log[..n] + [log[n]];
    }
  }

  lemma OfPermuted<B>(log: seq<Event<B>>, es: seq<Event<B>>, id: Id)
    requires multiset(log) == multiset(es)
    ensures multiset(Of(log, id)) == multiset(Of(es, id))
  {
    var a, b := multiset(Of(log, id)), multiset(Of(es, id));
    forall e: Event<B> ensures a[e] == b[e] {
      OfCount(log, id, e);
      OfCount(es, id, e);
    }
    SameCounts(a, b);
  }

  lemma SameCounts<T>(a: multiset<T>, b: multiset<T>)
    requires forall e :: a[e] == b[e]
    ensures a == b
  {
  }

  /** Two positions of one aggregate's history, as two positions of the log. */
  lemma {:induction false} OfPair<B>(log: seq<Event<B>>, id: Id, i: nat, j: nat) returns (p: nat, q: nat)
    requires i < j < |Of(log, id)|
    ensures p < q < |log| && log[p] == Of(log, id)[i] && log[q] == Of(log, id)[j]
    ensures log[p].id == id && log[q].id == id
  {
    q := OfIndex(log, id, j);
    OfPrefix(log, q, id);
    p := OfIndex(log[..q], id, i);
  }

  lemma UniquePermuted<B>(log: seq<Event<B>>, es: seq<Event<B>>)
    requires UniqueSlots(log) && multiset(es) <= multiset(log)
    ensures UniqueSlots(es)
  {
    forall i, j | 0 <= i < j < |es| ensures SlotsDiffer(es, i, j) {
      NoRepeats(log, es[i]);
      CountTwo(es, i, j);
      var p := IndexOf(log, es[i]);
      var q := IndexOf(log, es[j]);
      assert p < q ==> SlotsDiffer(log, p, q);
      assert q < p ==> SlotsDiffer(log, q, p);
    }
  }

  lemma CountTwo<T>(es: seq<T>, i: nat, j: nat)
    requires i < j < |es|
    ensures multiset(es)[es[i]] >= if es[i] == es[j] then 2 else 1
  {
    assert es == es[..i] + [es[i]] + es[i + 1..j] + [es[j]] + es[j + 1..];
  }

  lemma {:induction false} NoRepeats<B>(log: seq<Event<B>>, e: Event<B>)
    requires UniqueSlots(log)
    ensures multiset(log)[e] <= 1
  {
    if log != [] {
      var n := |log| - 1;
      forall i, j | 0 <= i < j < n ensures SlotsDiffer(log[..n], i, j) {
        assert SlotsDiffer(log, i, j);
      }
      NoRepeats(log[..n], e);
      assert log == log[..n] + [log[n]];
      forall i | 0 <= i < n ensures log[i] != log[n] {
        assert SlotsDiffer(log, i, n);
      }
    }
  }

  /** Either ORDER BY arranges one aggregate's events by (recorded_at, aggregate_sequence). */
  lemma HistoryAscending<B>(es: seq<Event<B>>, id: Id)
    requires UniqueSlots(es)
    requires Ordered(RebuildOrder<B>, es) || Ordered(HistoryOrder<B>, es) || RecordedInOrder(es)
    ensures Ascending(Of(es, id))
  {
    forall i, j | 0 <= i < j < |Of(es, id)|
      ensures Before(Of(es, id)[i], Of(es, id)[j])
    {
      var p, q := OfPair(es, id, i, j);
      assert SlotsDiffer(es, p, q);
      if Ordered(RebuildOrder<B>, es) {
        assert InOrder(RebuildOrder<B>, es, p, q);
      } else if Ordered(HistoryOrder<B>, es) {
        assert InOrder(HistoryOrder<B>, es, p, q);
      } else {
        assert InTime(es, p, q);
      }
    }
  }

  /**
   The two ORDER BY clauses of the program agree on every aggregate, whatever the clock did:
   they differ only in how they interleave different aggregates.
   */
  lemma OrdersAgree<B>(log: seq<Event<B>>, es: seq<Event<B>>, fs: seq<Event<B>>, id: Id)
    requires UniqueSlots(log)
    requires Selected(RebuildOrder<B>, log, es) && Selected(HistoryOrder<B>, log, fs)
    ensures Of(es, id) == Of(fs, id)
  {
    UniquePermuted(log, es);
    UniquePermuted(log, fs);
    HistoryAscending(es, id);
    HistoryAscending(fs, id);
    OfPermuted(log, es, id);
    OfPermuted(log, fs, id);
    AscendingUnique(Of(es, id), Of(fs, id));
  }

  lemma InOrderIsUnique<B>(log: seq<Event<B>>)
    requires RecordedInOrder(log)
    ensures UniqueSlots(log)
  {
    forall i, j | 0 <= i < j < |log| ensures SlotsDiffer(log, i, j) {
      assert InTime(log, i, j);
    }
  }

  /** With recorded times in order, the sorted replay visits each aggregate in append order. */
  lemma SortedKeepsHistories<B>(log: seq<Event<B>>, es: seq<Event<B>>, id: Id)
    requires RecordedInOrder(log)
    requires Selected(RebuildOrder<B>, log, es) || Selected(HistoryOrder<B>, log, es)
    ensures Of(es, id) == Of(log, id)
  {
    InOrderIsUnique(log);
    UniquePermuted(log, es);
    HistoryAscending(es, id);
    HistoryAscending(log, id);
    OfPermuted(log, es, id);
    AscendingUnique(Of(es, id), Of(log, id));
  }

  /**
   Rebuild equals live, for any projector of this kind: if recorded times do not fall along any
   aggregate's history, the sorted replay gives the table the live appends left, however ties
   reorder events of different aggregates.
   */
  lemma RebuildEqualsLive<R, B>(step: Projector<R, B>, rows: map<Id, R>, log: seq<Event<B>>, es: seq<Event<B>>)
    requires RecordedInOrder(log)
    requires Selected(RebuildOrder<B>, log, es)
    ensures ProjectAll(step, rows, es) == ProjectAll(step, rows, log)
  {
    forall id ensures Of(es, id) == Of(log, id) {
      SortedKeepsHistories(log, es, id);
    }
    SameHistoriesSameTable(step, rows, es, log);
  }

  /** Numbers rise along each history of a gapless log. */
  lemma {:induction false} ContiguousRises<B>(log: seq<Event<B>>, i: nat, j: nat)
    requires Contiguous(log) && i < j < |log| && log[i].id == log[j].id
    ensures log[i].sequence < log[j].sequence
  {
    assert NumberedAt(log, i) && NumberedAt(log, j);
    OfAt(log, i, j);
  }

  lemma ContiguousUnique<B>(log: seq<Event<B>>)
    requires Contiguous(log)
    ensures UniqueSlots(log)
  {
    forall i, j | 0 <= i < j < |log| ensures SlotsDiffer(log, i, j) {
      if log[i].id == log[j].id {
        ContiguousRises(log, i, j);
      }
    }
  }

}
