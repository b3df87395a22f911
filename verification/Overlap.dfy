/**
 Commands that overlap, seen from the log. A command reads its aggregate, checks its guard, and appends
 its event later; the append (app/events.py) does not check that nothing was appended in between.
 `readAt[k]` is the length that the log had when the guard of its k-th event was read.
 */
module Overlap {
  import opened Common
  import opened EventLog
  import opened Replay

  /** What a kind of aggregate starts as, how events change it, what its guards allow, and what ends it. */
  datatype Rules<!R, !B> = Rules(
    start: Option<R>, step: Projector<R, B>, allows: (Option<R>, B) -> bool, ends: B -> bool)

  /** The row of an aggregate after the first `k` events of the log. */
  function RowAt<R, B>(rules: Rules<R, B>, log: seq<Event<B>>, k: nat, id: Id): Option<R>
    requires k <= |log|
  {
    Fold(rules.step, rules.start, Of(log[..k], id))
  }

  /** The guard of the k-th event held when it was read. */
  ghost predicate GuardedAt<R, B>(rules: Rules<R, B>, log: seq<Event<B>>, readAt: seq<nat>, k: int)
    requires 0 <= k < |log| == |readAt|
  {
    readAt[k] <= k && rules.allows(RowAt(rules, log, readAt[k], log[k].id), log[k].body)
  }

  ghost predicate Guarded<R, B>(rules: Rules<R, B>, log: seq<Event<B>>, readAt: seq<nat>) {
    |readAt| == |log| &&
    forall k {:trigger GuardedAt(rules, log, readAt, k)} :: 0 <= k < |log| ==> GuardedAt(rules, log, readAt, k)
  }

  /** The guard of the k-th event still held when it was appended. */
  ghost predicate HoldsAt<R, B>(rules: Rules<R, B>, log: seq<Event<B>>, k: int)
    requires 0 <= k < |log|
  {
    rules.allows(RowAt(rules, log, k, log[k].id), log[k].body)
  }

  /** No event of its aggregate was appended between the read and the append. */
  ghost predicate Undisturbed<B>(log: seq<Event<B>>, readAt: seq<nat>, k: int)
    requires 0 <= k < |log| == |readAt|
  {
    forall j :: readAt[k] <= j < k ==> log[j].id != log[k].id
  }

  /** An event that ends the aggregate was appended in between. */
  ghost predicate Overtaken<R, B>(rules: Rules<R, B>, log: seq<Event<B>>, readAt: seq<nat>, k: int)
    requires 0 <= k < |log| == |readAt|
  {
    exists j :: readAt[k] <= j < k && log[j].id == log[k].id && rules.ends(log[j].body)
  }

  /** Nothing follows an event that ends its aggregate. */
  ghost predicate EndsAreLast<R, B>(rules: Rules<R, B>, log: seq<Event<B>>) {
    forall i, k :: 0 <= i < k < |log| && log[i].id == log[k].id ==> !rules.ends(log[i].body)
  }

  /** A row is there when it is ended and stays there, and no guard allows anything directly after an end. */
  ghost predicate EndsRefuse<R(!new), B(!new)>(rules: Rules<R, B>) {
    && (forall row: Option<R>, b {:trigger rules.allows(row, b)} :: rules.ends(b) && rules.allows(row, b) ==> row.Some?)
    && (forall row: Option<R>, e: Event<B> {:trigger rules.step(row, e)} :: row.Some? ==> rules.step(row, e).Some?)
    && (forall row: Option<R>, e: Event<B>, b {:trigger rules.allows(rules.step(row, e), b)} ::
          row.Some? && rules.ends(e.body) ==> !rules.allows(rules.step(row, e), b))
  }

  lemma GuardedAppend<R, B>(rules: Rules<R, B>, log: seq<Event<B>>, readAt: seq<nat>, e: Event<B>, read: nat)
    requires Guarded(rules, log, readAt) && read <= |log| && rules.allows(RowAt(rules, log, read, e.id), e.body)
    ensures Guarded(rules, log + [e], readAt + [read])
  {
    var l, rs := log + [e], readAt + [read];
    forall k | 0 <= k < |l| ensures GuardedAt(rules, l, rs, k) {
      assert k < |log| ==> GuardedAt(rules, log, readAt, k);
      assert l[..rs[k]] == log[..rs[k]];
    }
  }

  lemma {:induction false} QuietStretch<B>(log: seq<Event<B>>, a: nat, b: nat, id: Id)
    requires a <= b <= |log| && forall j :: a <= j < b ==> log[j].id != id
    ensures Of(log[..b], id) == Of(log[..a], id)
    decreases b
  {
    if a < b {
      QuietStretch(log, a, b - 1, id);
      assert log[..b] == log[..b - 1] + [log[b - 1]];
      OfAppend(log[..b - 1], log[b - 1], id);
    }
  }

  /** The guard of an undisturbed command still holds when its event is appended. */
  lemma UndisturbedHolds<R, B>(rules: Rules<R, B>, log: seq<Event<B>>, readAt: seq<nat>, k: nat)
    requires Guarded(rules, log, readAt) && k < |log| && Undisturbed(log, readAt, k)
    ensures HoldsAt(rules, log, k)
  {
    assert GuardedAt(rules, log, readAt, k);
    QuietStretch(log, readAt[k], k, log[k].id);
  }

  /** Directly after an event, with nothing of its aggregate in between, the row is what the event made of it. */
  lemma RowAfterEvent<R, B>(rules: Rules<R, B>, log: seq<Event<B>>, i: nat, k: nat)
    requires i < k <= |log| && forall j :: i < j < k ==> log[j].id != log[i].id
    ensures RowAt(rules, log, k, log[i].id) == rules.step(RowAt(rules, log, i, log[i].id), log[i])
  {
    var id := log[i].id;
    QuietStretch(log, i + 1, k, id);
    assert log[..i + 1] == log[..i] + [log[i]];
    OfAppend(log[..i], log[i], id);
    FoldAppend(rules.step, rules.start, Of(log[..i], id), log[i]);
  }

  lemma {:induction false} RowStays<R(!new), B(!new)>(rules: Rules<R, B>, log: seq<Event<B>>, a: nat, b: nat, id: Id)
    requires EndsRefuse(rules) && a <= b <= |log| && RowAt(rules, log, a, id).Some?
    ensures RowAt(rules, log, b, id).Some?
    decreases b
  {
    if a < b {
      RowStays(rules, log, a, b - 1, id);
      assert log[..b] == log[..b - 1] + [log[b - 1]];
      OfAppend(log[..b - 1], log[b - 1], id);
      if log[b - 1].id == id {
        FoldAppend(rules.step, rules.start, Of(log[..b - 1], id), log[b - 1]);
      } else {
        assert Of(log[..b], id) == Of(log[..b - 1], id);
      }
    }
  }

  /** The first event that follows an end of its aggregate was read before that end. */
  lemma {:induction false} NotOvertaken<R(!new), B(!new)>(rules: Rules<R, B>, log: seq<Event<B>>, readAt: seq<nat>,
      n: nat)
    requires Guarded(rules, log, readAt) && EndsRefuse(rules) && n <= |log|
    requires forall k {:trigger Overtaken(rules, log, readAt, k)} :: 0 <= k < n ==> !Overtaken(rules, log, readAt, k)
    ensures EndsAreLast(rules, log[..n])
    decreases n
  {
    if n > 0 {
      var m := n - 1;
      NotOvertaken(rules, log, readAt, m);
      assert forall i :: 0 <= i < m ==> log[..m][i] == log[i] && log[..n][i] == log[i];
      forall i | 0 <= i < m && log[i].id == log[m].id ensures !rules.ends(log[i].body) {
        if rules.ends(log[i].body) {
          assert !Overtaken(rules, log, readAt, m);
          assert GuardedAt(rules, log, readAt, m) && GuardedAt(rules, log, readAt, i);
          RowStays(rules, log, readAt[i], i, log[i].id);
          assert forall j :: i < j < readAt[m] ==> log[..m][j].id != log[..m][i].id;
          RowAfterEvent(rules, log, i, readAt[m]);
        }
      }
    }
  }

  /**
   Ends are final, in a log whose every event was guarded when it was read, if and only if no command
   was overtaken: none of its aggregate's ends was appended between its read and its append.
   */
  lemma EndsAreLastIff<R(!new), B(!new)>(rules: Rules<R, B>, log: seq<Event<B>>, readAt: seq<nat>)
    requires Guarded(rules, log, readAt) && EndsRefuse(rules)
    ensures EndsAreLast(rules, log) <==>
            forall k {:trigger Overtaken(rules, log, readAt, k)} :: 0 <= k < |log| ==> !Overtaken(rules, log, readAt, k)
  {
    if forall k {:trigger Overtaken(rules, log, readAt, k)} :: 0 <= k < |log| ==> !Overtaken(rules, log, readAt, k) {
      NotOvertaken(rules, log, readAt, |log|);
      assert log[..|log|] == log;
    }
  }
}
