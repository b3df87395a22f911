/**
 The append-only table of domain events (app/events.py), as a sequence in append order.
 `id` names the aggregate: it stands for the pair (aggregate_type, aggregate_id).
 `body` stands for the pair (event_type, payload_json).
 */
module EventLog {
  import opened Common

  datatype Event<+B> = Event(
    id: Id, sequence: int, body: B,
    occurredAt: Time, recordedAt: Time,
    actor: Option<Id>, key: Option<Key>)

  /** The events of one aggregate, in the order in which `log` holds them. */
  function Of<B>(log: seq<Event<B>>, id: Id): seq<Event<B>> {
    if log == [] then []
    else
      var last := log[|log| - 1];
      Of(log[..|log| - 1], id) + if last.id == id then [last] else []
  }

  lemma OfAppend<B>(log: seq<Event<B>>, e: Event<B>, id: Id)
    ensures Of(log + [e], id) == Of(log, id) + if e.id == id then [e] else []
  {
    assert (log + [e])[..|log|] == log;
  }

  lemma {:induction false} OfMember<B>(log: seq<Event<B>>, id: Id, e: Event<B>)
    ensures e in Of(log, id) <==> e in log && e.id == id
  {
    if log != [] {
      OfMember(log[..|log| - 1], id, e);
      assert log == log[..|log| - 1] + [log[|log| - 1]];
    }
  }

  /** Where the j-th event of an aggregate stands in the log. */
  lemma {:induction false} OfIndex<B>(log: seq<Event<B>>, id: Id, j: nat) returns (k: nat)
    requires j < |Of(log, id)|
    ensures k < |log| && log[k] == Of(log, id)[j] && log[k].id == id
    ensures |Of(log[..k], id)| == j
  {
    var front := log[..|log| - 1];
    if j < |Of(front, id)| {
      k := OfIndex(front, id, j);
      assert front[..k] == log[..k];
    } else {
      k := |log| - 1;
    }
  }

  /** Taking a prefix of the log takes a prefix of each aggregate's history. */
  lemma {:induction false} OfPrefix<B>(log: seq<Event<B>>, k: nat, id: Id)
    requires k <= |log|
    ensures Of(log[..k], id) <= Of(log, id)
    decreases |log|
  {
    if k < |log| {
      var front := log[..|log| - 1];
      OfPrefix(front, k, id);
      assert front[..k] == log[..k];
    } else {
      assert log[..k] == log;
    }
  }

  /** Where the event at position `k` stands in its aggregate's history up to position `m`. */
  lemma OfAt<B>(log: seq<Event<B>>, k: nat, m: nat)
    requires k < m <= |log|
    ensures var v := log[k].id;
            |Of(log[..k], v)| < |Of(log[..m], v)| && Of(log[..m], v)[|Of(log[..k], v)|] == log[k]
  {
    var v := log[k].id;
    assert log[..k + 1] == log[..k] + [log[k]];
    OfAppend(log[..k], log[k], v);
    assert log[..m][..k + 1] == log[..k + 1];
    OfPrefix(log[..m], k + 1, v);
  }

  /** `_next_aggregate_sequence`: one more than the largest number in use, 1 for a new aggregate. */
  function MaxSequence<B>(log: seq<Event<B>>, id: Id): int {
    if log == [] then 0
    else
      var last := log[|log| - 1];
      var m := MaxSequence(log[..|log| - 1], id);
      if last.id == id then Max(m, last.sequence) else m
  }

  function NextSequence<B>(log: seq<Event<B>>, id: Id): int {
    MaxSequence(log, id) + 1
  }

  /** Each aggregate's events are numbered 1, 2, 3, ... in append order. */
  ghost predicate Contiguous<B>(log: seq<Event<B>>) {
    forall i {:trigger NumberedAt(log, i)} :: 0 <= i < |log| ==> NumberedAt(log, i)
  }

  ghost predicate NumberedAt<B>(log: seq<Event<B>>, i: int)
    requires 0 <= i < |log|
  {
    log[i].sequence == |Of(log[..i], log[i].id)| + 1
  }

  lemma ContiguousAppend<B>(log: seq<Event<B>>, e: Event<B>)
    requires Contiguous(log) && e.sequence == |Of(log, e.id)| + 1
    ensures Contiguous(log + [e])
  {
    var l := log + [e];
    forall i | 0 <= i < |l| ensures NumberedAt(l, i) {
      if i < |log| {
        assert NumberedAt(log, i);
        assert l[..i] == log[..i];
      } else {
        assert l[..i] == log;
      }
    }
  }

  lemma ContiguousPrefix<B>(log: seq<Event<B>>, k: nat)
    requires Contiguous(log) && k <= |log|
    ensures Contiguous(log[..k])
  {
    forall i | 0 <= i < k ensures NumberedAt(log[..k], i) {
      assert NumberedAt(log, i);
      assert log[..k][..i] == log[..i];
    }
  }

  /** With no gaps, the number of events is the largest number in use. */
  lemma {:induction false} ContiguousMax<B>(log: seq<Event<B>>, id: Id)
    requires Contiguous(log)
    ensures MaxSequence(log, id) == |Of(log, id)|
  {
    if log != [] {
      var n := |log| - 1;
      ContiguousPrefix(log, n);
      ContiguousMax(log[..n], id);
      assert NumberedAt(log, n);
    }
  }

  /** With no gaps, the j-th event of an aggregate (counting from 0) is numbered j + 1. */
  lemma ContiguousAt<B>(log: seq<Event<B>>, id: Id, j: nat)
    requires Contiguous(log) && j < |Of(log, id)|
    ensures Of(log, id)[j].sequence == j + 1 && Of(log, id)[j].id == id
  {
    var k := OfIndex(log, id, j);
    assert NumberedAt(log, k);
  }
}
