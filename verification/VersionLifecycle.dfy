/**
 The approval lifecycle shared by policy versions (app/policy_lifecycle.py) and control-definition
 versions (app/control_definition_lifecycle.py), as a theory of the events it leaves in the log.
 */
module VersionLifecycle {
  import opened Common
  import opened EventLog

  datatype Status = Draft | InReview | Approved | Effective | Superseded | Withdrawn

  datatype Body =
    | Drafted(parent: Id, number: nat)    // control definitions only: this event creates the row
    | SubmittedForReview
    | Reviewed(decision: string, comment: string)
    | MadeEffective
    | SupersededBy(successor: Id)
    | WithdrawnFor(reason: string)

  type VersionEvent = Event<Body>

  /** The lifecycle columns of a version row. */
  datatype Lifecycle = Lifecycle(
    status: Status,
    submittedBy: Option<Id>, submittedAt: Option<Time>,
    reviewedBy: Option<Id>, reviewedAt: Option<Time>, reviewDecision: Option<string>, reviewComment: string,
    effectiveAt: Option<Time>,
    supersededAt: Option<Time>, supersededBy: Option<Id>,
    withdrawnAt: Option<Time>, withdrawnReason: string)

  const FRESH := Lifecycle(Draft, None, None, None, None, None, "", None, None, None, None, "")

  /** The snapshot appliers of app/history.py, which the projectors mirror. */
  function Apply(l: Lifecycle, e: VersionEvent): Lifecycle {
    match e.body
    case Drafted(_, _) => l
    case SubmittedForReview => l.(status := InReview, submittedBy := e.actor, submittedAt := Some(e.occurredAt))
    case Reviewed(decision, comment) =>
      l.(reviewedBy := e.actor, reviewedAt := Some(e.occurredAt),
         reviewDecision := Some(decision), reviewComment := comment,
         status := if decision == "approved" then Approved else Draft)
    case MadeEffective => l.(status := Effective, effectiveAt := Some(e.occurredAt))
    case SupersededBy(successor) =>
      l.(status := Superseded, supersededAt := Some(e.occurredAt), supersededBy := Some(successor))
    case WithdrawnFor(reason) =>
      l.(status := Withdrawn, withdrawnAt := Some(e.occurredAt), withdrawnReason := reason)
  }

  /** The lifecycle columns after one version's events. */
  function After(es: seq<VersionEvent>): Lifecycle {
    if es == [] then FRESH else Apply(After(es[..|es| - 1]), es[|es| - 1])
  }

  lemma AfterAppend(es: seq<VersionEvent>, e: VersionEvent)
    ensures After(es + [e]) == Apply(After(es), e)
  {
    assert (es + [e])[..|es|] == es;
  }

  function State(log: seq<VersionEvent>, v: Id): Lifecycle {
    After(Of(log, v))
  }

  lemma StateAppend(log: seq<VersionEvent>, e: VersionEvent, v: Id)
    ensures State(log + [e], v) == if e.id == v then Apply(State(log, v), e) else State(log, v)
  {
    OfAppend(log, e, v);
    AfterAppend(Of(log, v), e);
    assert Of(log, v) + [] == Of(log, v);
  }

  /******* One version's history *******/

  /** The guards of the commands. */
  predicate Allowed(status: Status, body: Body) {
    match body
    case Drafted(_, _) => status == Draft
    case SubmittedForReview => status == Draft
    case Reviewed(decision, _) => status == InReview && (decision == "approved" || decision == "rejected")
    case MadeEffective => status == Approved
    case SupersededBy(_) => status == Effective
    case WithdrawnFor(_) => status == Draft || status == InReview || status == Approved || status == Effective
  }

  ghost predicate AllowedAt(es: seq<VersionEvent>, i: int)
    requires 0 <= i < |es|
  {
    Allowed(After(es[..i]).status, es[i].body)
  }

  ghost predicate Legal(es: seq<VersionEvent>) {
    forall i {:trigger AllowedAt(es, i)} :: 0 <= i < |es| ==> AllowedAt(es, i)
  }

  /** Recorded times do not fall, and only a withdrawal may state another time than the recorded one. */
  ghost predicate Timed(es: seq<VersionEvent>) {
    && (forall i, j :: 0 <= i < j < |es| ==> es[i].recordedAt <= es[j].recordedAt)
    && (forall i :: 0 <= i < |es| && !es[i].body.WithdrawnFor? ==> es[i].occurredAt == es[i].recordedAt)
  }

  lemma LegalPrefix(es: seq<VersionEvent>, k: nat)
    requires Legal(es) && k <= |es|
    ensures Legal(es[..k])
  {
    forall i | 0 <= i < k ensures AllowedAt(es[..k], i) {
      assert AllowedAt(es, i);
      assert es[..k][..i] == es[..i];
    }
  }

  lemma LegalAppend(es: seq<VersionEvent>, e: VersionEvent)
    requires Legal(es) && Allowed(After(es).status, e.body)
    ensures Legal(es + [e])
  {
    forall i | 0 <= i < |es| + 1 ensures AllowedAt(es + [e], i) {
      assert i < |es| ==> AllowedAt(es, i);
      assert (es + [e])[..i] == if i == |es| then es else es[..i];
    }
  }

  /** Which columns are filled in which status. */
  ghost predicate Shape(l: Lifecycle) {
    && (l.status in {Draft, InReview, Approved} ==>
          l.effectiveAt.None? && l.supersededAt.None? && l.supersededBy.None? && l.withdrawnAt.None?)
    && (l.status == InReview ==> l.submittedAt.Some?)
    && (l.status in {Approved, Effective, Superseded} || l.effectiveAt.Some? ==>
          l.submittedAt.Some? && l.reviewedAt.Some? && l.reviewDecision == Some("approved"))
    && (l.status == Effective ==> l.effectiveAt.Some? && l.supersededAt.None? && l.withdrawnAt.None?)
    && (l.status == Superseded ==> l.effectiveAt.Some? && l.supersededAt.Some? && l.withdrawnAt.None?)
    && (l.status == Withdrawn ==> l.withdrawnAt.Some? && l.supersededAt.None?)
    && (l.supersededAt.Some? <==> l.supersededBy.Some?)
  }

  /** submitted_at <= reviewed_at <= effective_at <= superseded_at, none after `now`. */
  ghost predicate Chronology(l: Lifecycle, now: Time) {
    && (l.submittedAt.Some? ==> l.submittedAt.value <= now)
    && (l.reviewedAt.Some? ==> l.reviewedAt.value <= now)
    && (l.effectiveAt.Some? ==> l.effectiveAt.value <= now)
    && (l.supersededAt.Some? ==> l.supersededAt.value <= now)
    && (l.status in {Approved, Effective, Superseded} || l.effectiveAt.Some? ==>
          l.submittedAt.Some? && l.reviewedAt.Some? && l.submittedAt.value <= l.reviewedAt.value)
    && (l.effectiveAt.Some? ==> l.reviewedAt.value <= l.effectiveAt.value)
    && (l.supersededAt.Some? ==> l.effectiveAt.Some? && l.effectiveAt.value <= l.supersededAt.value)
  }

  lemma {:induction false} LegalShape(es: seq<VersionEvent>)
    requires Legal(es)
    ensures Shape(After(es))
  {
    if es != [] {
      var n := |es| - 1;
      LegalPrefix(es, n);
      LegalShape(es[..n]);
      assert AllowedAt(es, n);
    }
  }

  lemma {:induction false} LegalChronology(es: seq<VersionEvent>)
    requires Legal(es) && Timed(es)
    ensures es == [] || Chronology(After(es), es[|es| - 1].recordedAt)
    ensures forall now :: (forall i :: 0 <= i < |es| ==> es[i].recordedAt <= now) ==> Chronology(After(es), now)
  {
    if es != [] {
      var n := |es| - 1;
      LegalPrefix(es, n);
      LegalChronology(es[..n]);
      LegalShape(es[..n]);
      assert Chronology(After(es[..n]), es[n].recordedAt);
      assert AllowedAt(es, n);
    }
  }

  /**
   A version becomes effective only directly after an approval directly after a submission, only
   once, and at most one event follows: its supersession or its withdrawal, which is final.
   */
  lemma EffectiveStory(es: seq<VersionEvent>, k: nat)
    requires Legal(es) && k < |es| && es[k].body.MadeEffective?
    ensures 2 <= k && es[k - 2].body.SubmittedForReview?
    ensures es[k - 1].body.Reviewed? && es[k - 1].body.decision == "approved"
    ensures |es| <= k + 2
    ensures k + 1 < |es| ==> es[k + 1].body.SupersededBy? || es[k + 1].body.WithdrawnFor?
    ensures forall j :: 0 <= j < |es| && es[j].body.MadeEffective? ==> j == k
  {
    Adjacent(es, k);
    Adjacent(es, k - 1);
    if k + 1 < |es| {
      Adjacent(es, k + 1);
      TerminalIsLast(es, k + 1);
    }
    forall j | 0 <= j < k ensures !es[j].body.MadeEffective? {
      Adjacent(es, j + 1);
      if es[j + 1].body.SupersededBy? || es[j + 1].body.WithdrawnFor? {
        TerminalIsLast(es, j + 1);
      }
    }
  }

  /** The status an event leaves. */
  function Leaves(body: Body): Status {
    match body
    case Drafted(_, _) => Draft
    case SubmittedForReview => InReview
    case Reviewed(decision, _) => if decision == "approved" then Approved else Draft
    case MadeEffective => Effective
    case SupersededBy(_) => Superseded
    case WithdrawnFor(_) => Withdrawn
  }

  /** The status is what the last event left. */
  lemma LastStatus(es: seq<VersionEvent>)
    requires Legal(es)
    ensures After(es).status == if es == [] then Draft else Leaves(es[|es| - 1].body)
  {
    if es != [] {
      assert AllowedAt(es, |es| - 1);
    }
  }

  /** Each event is allowed after what the event before it left. */
  lemma Adjacent(es: seq<VersionEvent>, k: nat)
    requires Legal(es) && k < |es|
    ensures Allowed(if k == 0 then Draft else Leaves(es[k - 1].body), es[k].body)
  {
    assert AllowedAt(es, k);
    LegalPrefix(es, k);
    LastStatus(es[..k]);
  }

  /** Superseded and withdrawn are final. */
  lemma TerminalIsLast(es: seq<VersionEvent>, k: nat)
    requires Legal(es) && k < |es| && (es[k].body.SupersededBy? || es[k].body.WithdrawnFor?)
    ensures k == |es| - 1
  {
    if k + 1 < |es| {
      Adjacent(es, k + 1);
    }
  }

  /******* Cutoffs *******/

  /** The events whose stated time is at or before the cutoff, in the same order. */
  function Upto(es: seq<VersionEvent>, asOf: Time): seq<VersionEvent> {
    if es == [] then []
    else
      var last := es[|es| - 1];
      Upto(es[..|es| - 1], asOf) + if last.occurredAt <= asOf then [last] else []
  }

  lemma {:induction false} UptoAll(es: seq<VersionEvent>, asOf: Time)
    requires forall i :: 0 <= i < |es| ==> es[i].occurredAt <= asOf
    ensures Upto(es, asOf) == es
  {
    if es != [] {
      UptoAll(es[..|es| - 1], asOf);
    }
  }

  lemma {:induction false} UptoOf(log: seq<VersionEvent>, asOf: Time, v: Id)
    ensures Of(Upto(log, asOf), v) == Upto(Of(log, v), asOf)
  {
    if log != [] {
      var front, last := log[..|log| - 1], log[|log| - 1];
      UptoOf(front, asOf, v);
      if last.occurredAt <= asOf {
        OfAppend(Upto(front, asOf), last, v);
      }
      assert Of(front, v) + [] == Of(front, v);
      assert Upto(front, asOf) + [] == Upto(front, asOf);
      if last.id == v {
        assert (Of(front, v) + [last])[..|Of(front, v)|] == Of(front, v);
      }
    }
  }

  /** The interval in which the final columns say the version was in force. */
  predicate InForce(l: Lifecycle, t: Time) {
    && l.effectiveAt.Some? && l.effectiveAt.value <= t
    && (l.supersededAt.Some? ==> t < l.supersededAt.value)
    && (l.withdrawnAt.Some? ==> t < l.withdrawnAt.value)
  }

  /** An event past the cutoff does not change whether the columns cover the cutoff. */
  lemma LaterEventIrrelevant(l: Lifecycle, e: VersionEvent, asOf: Time)
    requires Shape(l) && Allowed(l.status, e.body) && asOf < e.occurredAt
    ensures InForce(Apply(l, e), asOf) <==> InForce(l, asOf)
  {
  }

  /** With nothing cut off, the interval test is the status test. */
  lemma NothingCutOff(es: seq<VersionEvent>, asOf: Time)
    requires Legal(es) && Timed(es) && es != []
    requires !es[|es| - 1].body.WithdrawnFor? && es[|es| - 1].occurredAt <= asOf
    ensures Upto(es, asOf) == es
    ensures After(es).status == Effective <==> InForce(After(es), asOf)
  {
    var n := |es| - 1;
    forall i | 0 <= i < n ensures es[i].occurredAt <= asOf {
      if es[i].body.WithdrawnFor? {
        TerminalIsLast(es, i);
      }
    }
    UptoAll(es, asOf);
    LegalShape(es);
    LegalChronology(es);
    LastStatus(es);
  }

  /**
   The final columns know the whole past: a replay cut off at `asOf` shows the version as effective
   exactly when `asOf` lies in the interval that the final columns give.
   */
  lemma {:induction false} CutoffStatus(es: seq<VersionEvent>, asOf: Time)
    requires Legal(es) && Timed(es)
    ensures After(Upto(es, asOf)).status == Effective <==> InForce(After(es), asOf)
  {
    if es != [] {
      var n := |es| - 1;
      var front, e := es[..n], es[n];
      LegalPrefix(es, n);
      if asOf < e.occurredAt {
        CutoffStatus(front, asOf);
        LegalShape(front);
        assert AllowedAt(es, n);
        LaterEventIrrelevant(After(front), e, asOf);
        assert Upto(es, asOf) == Upto(front, asOf);
      } else if e.body.WithdrawnFor? {
        AfterAppend(Upto(front, asOf), e);
      } else {
        NothingCutOff(es, asOf);
      }
    }
  }

  /******* The log of a parent's versions *******/

  /** What the commands check before appending `e` to `log`; `parent` maps versions to policies or controls. */
  ghost predicate Permitted(log: seq<VersionEvent>, e: VersionEvent, parent: map<Id, Id>) {
    && e.id in parent
    && Allowed(State(log, e.id).status, e.body)
    && (e.body.MadeEffective? ==> forall v :: v in parent && v != e.id && parent[v] == parent[e.id] ==>
          State(log, v).status != Effective)
  }

  ghost predicate Disciplined(log: seq<VersionEvent>, parent: map<Id, Id>) {
    forall k {:trigger PermittedAt(log, k, parent)} :: 0 <= k < |log| ==> PermittedAt(log, k, parent)
  }

  ghost predicate PermittedAt(log: seq<VersionEvent>, k: int, parent: map<Id, Id>)
    requires 0 <= k < |log|
  {
    Permitted(log[..k], log[k], parent)
  }

  /** Every supersession is directly followed by its successor becoming effective. */
  ghost predicate PairsClosed(log: seq<VersionEvent>) {
    forall k {:trigger ClosedAt(log, k)} :: 0 <= k < |log| ==> ClosedAt(log, k)
  }

  ghost predicate ClosedAt(log: seq<VersionEvent>, k: int)
    requires 0 <= k < |log|
  {
    log[k].body.SupersededBy? ==>
      k + 1 < |log| && log[k + 1].id == log[k].body.successor && log[k + 1].body.MadeEffective?
  }

  lemma PairsClosedAppend(log: seq<VersionEvent>, e: VersionEvent)
    requires PairsClosed(log) && !e.body.SupersededBy?
    ensures PairsClosed(log + [e])
  {
    var l := log + [e];
    forall k | 0 <= k < |l| ensures ClosedAt(l, k) {
      assert k < |log| ==> ClosedAt(log, k);
    }
  }

  lemma PairsClosedPair(log: seq<VersionEvent>, e: VersionEvent, f: VersionEvent)
    requires PairsClosed(log) && e.body.SupersededBy? && f.id == e.body.successor && f.body.MadeEffective?
    ensures PairsClosed(log + [e] + [f])
  {
    var l := log + [e] + [f];
    forall k | 0 <= k < |l| ensures ClosedAt(l, k) {
      assert k < |log| ==> ClosedAt(log, k);
    }
  }

  /** The clock does not run backwards along the log; only withdrawals state their own time. */
  ghost predicate ClockOrdered(log: seq<VersionEvent>) {
    && (forall i, j :: 0 <= i < j < |log| ==> log[i].recordedAt <= log[j].recordedAt)
    && (forall i :: 0 <= i < |log| && !log[i].body.WithdrawnFor? ==> log[i].occurredAt == log[i].recordedAt)
  }

  lemma DisciplinedPrefix(log: seq<VersionEvent>, parent: map<Id, Id>, k: nat)
    requires Disciplined(log, parent) && k <= |log|
    ensures Disciplined(log[..k], parent)
  {
    forall i | 0 <= i < k ensures PermittedAt(log[..k], i, parent) {
      assert PermittedAt(log, i, parent);
      assert log[..k][..i] == log[..i];
    }
  }

  lemma DisciplinedAppend(log: seq<VersionEvent>, parent: map<Id, Id>, e: VersionEvent)
    requires Disciplined(log, parent) && Permitted(log, e, parent)
    ensures Disciplined(log + [e], parent)
  {
    forall i | 0 <= i < |log| + 1 ensures PermittedAt(log + [e], i, parent) {
      assert i < |log| ==> PermittedAt(log, i, parent);
      assert (log + [e])[..i] == if i == |log| then log else log[..i];
    }
  }

  /** Registering a new version changes nothing that has happened. */
  lemma DisciplinedNewVersion(log: seq<VersionEvent>, parent: map<Id, Id>, v: Id, p: Id)
    requires Disciplined(log, parent) && v !in parent
    ensures Disciplined(log, parent[v := p])
  {
    var wider := parent[v := p];
    forall k | 0 <= k < |log| ensures PermittedAt(log, k, wider) {
      assert PermittedAt(log, k, parent);
      NoEvents(log[..k], v, parent) by {
        DisciplinedPrefix(log, parent, k);
      }
    }
  }

  lemma {:induction false} NoEvents(log: seq<VersionEvent>, v: Id, parent: map<Id, Id>)
    requires Disciplined(log, parent) && v !in parent
    ensures Of(log, v) == []
  {
    if log != [] {
      var n := |log| - 1;
      assert PermittedAt(log, n, parent);
      DisciplinedPrefix(log, parent, n);
      NoEvents(log[..n], v, parent);
    }
  }

  lemma {:induction false} DisciplinedLegal(log: seq<VersionEvent>, parent: map<Id, Id>, v: Id)
    requires Disciplined(log, parent)
    ensures Legal(Of(log, v))
  {
    if log != [] {
      var n := |log| - 1;
      DisciplinedPrefix(log, parent, n);
      DisciplinedLegal(log[..n], parent, v);
      assert PermittedAt(log, n, parent);
      if log[n].id == v {
        LegalAppend(Of(log[..n], v), log[n]);
      } else {
        assert Of(log, v) == Of(log[..n], v);
      }
    }
  }

  /**
   At most one version of a parent is effective. Every prefix of a disciplined log is disciplined,
   so this holds at every moment, also between a supersession and its successor's event.
   */
  lemma {:induction false} OneEffective(log: seq<VersionEvent>, parent: map<Id, Id>, k: nat, v: Id, w: Id)
    requires Disciplined(log, parent) && k <= |log|
    requires v in parent && w in parent && v != w && parent[v] == parent[w]
    ensures !(State(log[..k], v).status == Effective && State(log[..k], w).status == Effective)
    decreases k
  {
    if k > 0 {
      OneEffective(log, parent, k - 1, v, w);
      assert log[..k] == log[..k - 1] + [log[k - 1]];
      assert PermittedAt(log, k - 1, parent);
      StillOneEffective(log[..k - 1], log[k - 1], parent, v, w);
    }
  }

  lemma StillOneEffective(log: seq<VersionEvent>, e: VersionEvent, parent: map<Id, Id>, v: Id, w: Id)
    requires Permitted(log, e, parent) && v in parent && w in parent && v != w && parent[v] == parent[w]
    requires !(State(log, v).status == Effective && State(log, w).status == Effective)
    ensures !(State(log + [e], v).status == Effective && State(log + [e], w).status == Effective)
  {
    StateAppend(log, e, v);
    StateAppend(log, e, w);
  }

  lemma {:induction false} TimedOf(log: seq<VersionEvent>, v: Id)
    requires ClockOrdered(log)
    ensures Timed(Of(log, v))
    ensures forall e :: e in Of(log, v) ==> e.recordedAt <= log[|log| - 1].recordedAt
  {
    if log != [] {
      var n := |log| - 1;
      TimedOf(log[..n], v);
      var es := Of(log[..n], v);
      forall e | e in es ensures e.recordedAt <= log[n].recordedAt {
        OfMember(log[..n], v, e);
      }
      assert forall i :: 0 <= i < |es| ==> es[i] in es;
    }
  }

  /******* Succession *******/

  /** `v` became effective at position `k` of the log. */
  ghost predicate BecameEffective(log: seq<VersionEvent>, v: Id, k: nat) {
    k < |log| && log[k].id == v && log[k].body.MadeEffective?
  }

  /** In the history of one version, where it became effective. */
  lemma {:induction false} EffectiveEvent(es: seq<VersionEvent>) returns (j: nat)
    requires Legal(es) && After(es).effectiveAt.Some?
    ensures j < |es| && es[j].body.MadeEffective? && After(es).effectiveAt == Some(es[j].occurredAt)
    ensures After(es).status == Effective ==> j == |es| - 1
    ensures After(es).status != Effective ==> j == |es| - 2
  {
    var n := |es| - 1;
    LegalPrefix(es, n);
    LegalShape(es[..n]);
    assert AllowedAt(es, n);
    if es[n].body.MadeEffective? {
      j := n;
    } else {
      j := EffectiveEvent(es[..n]);
      EffectiveStory(es, j);
    }
  }

  /** The successor became effective directly after the supersession, and so after its predecessor did. */
  lemma SuccessorFollows(log: seq<VersionEvent>, parent: map<Id, Id>, v: Id) returns (k: nat, s: nat)
    requires Disciplined(log, parent) && PairsClosed(log) && State(log, v).supersededBy.Some?
    ensures k < s < |log| - 1 && BecameEffective(log, v, k)
    ensures log[s].id == v && log[s].body == SupersededBy(State(log, v).supersededBy.value)
    ensures BecameEffective(log, State(log, v).supersededBy.value, s + 1)
  {
    var es := Of(log, v);
    DisciplinedLegal(log, parent, v);
    LegalShape(es);
    var j := EffectiveEvent(es);
    EffectiveStory(es, j);
    LastStatus(es);
    s := OfIndex(log, v, j + 1);
    assert ClosedAt(log, s);
    k := OfIndex(log[..s], v, j) by {
      OfPrefix(log, s, v);
    }
    OfPrefix(log, s, v);
  }

  lemma SameEffectivePosition(log: seq<VersionEvent>, parent: map<Id, Id>, v: Id, k: nat, m: nat)
    requires Disciplined(log, parent) && BecameEffective(log, v, k) && BecameEffective(log, v, m)
    ensures k == m
  {
    DisciplinedLegal(log, parent, v);
    assert log[..|log|] == log;
    OfAt(log, k, |log|);
    OfAt(log, m, |log|);
    EffectiveStory(Of(log, v), |Of(log[..k], v)|);
    if k < m {
      OfAt(log, k, m);
    } else if m < k {
      OfAt(log, m, k);
    }
  }

  /** Of two versions of one parent that became effective, the first had ended before the second began. */
  lemma EndedBefore(log: seq<VersionEvent>, parent: map<Id, Id>, v: Id, w: Id, kv: nat, kw: nat) returns (s: nat)
    requires Disciplined(log, parent) && BecameEffective(log, v, kv) && BecameEffective(log, w, kw) && kv < kw
    requires v in parent && w in parent && v != w && parent[v] == parent[w]
    ensures kv < s < kw && log[s].id == v && (log[s].body.SupersededBy? || log[s].body.WithdrawnFor?)
    ensures Of(log, v) != [] && log[s] == Of(log, v)[|Of(log, v)| - 1]
  {
    DisciplinedLegal(log, parent, v);
    var es, i := Of(log, v), |Of(log[..kv], v)|;
    var seen := Of(log[..kw], v);
    OfAt(log, kv, kw);
    OfPrefix(log, kw, v);
    EffectiveStory(es, i);
    NoLongerEffective(log, parent, v, w, kw);
    s := OfIndex(log[..kw], v, i + 1);
    assert log[..kw][..s] == log[..s];
    if s <= kv {
      assert log[..kv][..s] == log[..s];
      OfPrefix(log[..kv], s, v);
    }
  }

  lemma NoLongerEffective(log: seq<VersionEvent>, parent: map<Id, Id>, v: Id, w: Id, kw: nat)
    requires Disciplined(log, parent) && BecameEffective(log, w, kw)
    requires v in parent && w in parent && v != w && parent[v] == parent[w]
    ensures var seen := Of(log[..kw], v); seen != [] ==> !seen[|seen| - 1].body.MadeEffective?
  {
    assert PermittedAt(log, kw, parent);
    DisciplinedPrefix(log, parent, kw);
    DisciplinedLegal(log[..kw], parent, v);
    LastStatus(Of(log[..kw], v));
  }

  /** The effective_at column is the stated time of the one event that made the version effective. */
  lemma EffectiveColumn(log: seq<VersionEvent>, parent: map<Id, Id>, v: Id, k: nat)
    requires Disciplined(log, parent) && BecameEffective(log, v, k)
    ensures State(log, v).effectiveAt == Some(log[k].occurredAt)
  {
    DisciplinedLegal(log, parent, v);
    assert log[..|log|] == log;
    OfAt(log, k, |log|);
    var es, i := Of(log, v), |Of(log[..k], v)|;
    EffectiveStory(es, i);
    assert es[..i + 1] == es[..i] + [es[i]];
    AfterAppend(es[..i], es[i]);
    if i + 1 < |es| {
      assert es == es[..i + 1] + [es[i + 1]];
      AfterAppend(es[..i + 1], es[i + 1]);
    } else {
      assert es == es[..i + 1];
    }
  }

  ghost predicate Chain(log: seq<VersionEvent>, path: seq<Id>) {
    forall i :: 0 <= i < |path| - 1 ==> State(log, path[i]).supersededBy == Some(path[i + 1])
  }

  /**
   superseded_by links never form a cycle and every chain is finite: along a chain the versions
   became effective at strictly later positions of the log.
   */
  lemma {:induction false} ChainAscends(log: seq<VersionEvent>, parent: map<Id, Id>, path: seq<Id>)
    returns (at: seq<nat>)
    requires Disciplined(log, parent) && PairsClosed(log) && Chain(log, path) && |path| >= 2
    ensures |at| == |path|
    ensures forall i :: 0 <= i < |at| ==> BecameEffective(log, path[i], at[i])
    ensures forall i, j :: 0 <= i < j < |at| ==> at[i] < at[j]
    ensures forall i, j :: 0 <= i < j < |path| ==> path[i] != path[j]
  {
    var n := |path| - 1;
    assert State(log, path[n - 1]).supersededBy == Some(path[n]);
    var k, s := SuccessorFollows(log, parent, path[n - 1]);
    if n == 1 {
      at := [k, s + 1];
    } else {
      var front := ChainAscends(log, parent, path[..n]);
      SameEffectivePosition(log, parent, path[n - 1], k, front[n - 1]);
      at := front + [s + 1];
    }
    forall i, j | 0 <= i < j < |path| ensures path[i] != path[j] {
      assert at[i] < at[j];
      assert BecameEffective(log, path[i], at[i]) && BecameEffective(log, path[j], at[j]);
      if path[i] == path[j] {
        SameEffectivePosition(log, parent, path[i], at[i], at[j]);
      }
    }
  }
}
