/**
 Capturing versions of evidence artifacts (app/evidence_repository.py) across two stores: an object
 store, and a database in which each capture runs in its caller's transaction. Any number of captures
 interleave, each working on the view of `artifact.versions` that it loaded first.
 */
module Evidence {
  import opened Common
  import opened EventLog
  import opened Replay

  /** `evidence/<artifact>/<version>/content.<extension>`. */
  datatype ObjectKey = ObjectKey(artifact: Id, version: Id, extension: string)

  datatype CaptureBody = Captured(artifact: Id, number: nat, objectKey: ObjectKey, sha256: string)

  type CaptureEvent = Event<CaptureBody>

  datatype EvidenceRow = EvidenceRow(
    artifact: Id, number: nat, objectKey: ObjectKey, sha256: string, capturedAt: Time, actor: Option<Id>)

  /** EVIDENCE_ARTIFACT_VERSION_PROJECTORS. */
  function ProjectCaptured(row: Option<EvidenceRow>, e: CaptureEvent): Option<EvidenceRow> {
    Some(EvidenceRow(e.body.artifact, e.body.number, e.body.objectKey, e.body.sha256, e.occurredAt, e.actor))
  }

  /** The events of one artifact's versions, in the order in which `log` holds them. */
  function VersionsOf(log: seq<CaptureEvent>, artifact: Id): seq<CaptureEvent> {
    if log == [] then []
    else
      var last := log[|log| - 1];
      VersionsOf(log[..|log| - 1], artifact) + if last.body.artifact == artifact then [last] else []
  }

  /** `artifact.latest_version.version_number`, 0 if there is none. */
  function LatestNumber(view: seq<CaptureEvent>): nat {
    if view == [] then 0
    else
      var m := LatestNumber(view[..|view| - 1]);
      if m < view[|view| - 1].body.number then view[|view| - 1].body.number else m
  }

  predicate HasHash(view: seq<CaptureEvent>, sha256: string) {
    exists e :: e in view && e.body.sha256 == sha256
  }

  /** uq_evidence_artifact_version. */
  predicate NumberTaken(log: seq<CaptureEvent>, artifact: Id, number: nat) {
    exists e :: e in log && e.body.artifact == artifact && e.body.number == number
  }

  /******* Captures in flight *******/

  type CaptureId = nat

  datatype Request = Request(
    artifact: Id, version: Id, sha256: string, extension: string, actor: Option<Id>, occurredAt: Option<Time>)

  /** What a capture will do next. */
  datatype Pc =
    | Begun
    | Viewed(view: seq<CaptureEvent>)
    | Uploaded(view: seq<CaptureEvent>)
    | Inserted(event: CaptureEvent)               // in the caller's open transaction
    | Cleaning                                    // the append failed; the object is to be deleted
    | Finished(version: Id, created: bool)
    | Raised

  datatype Capture = Capture(request: Request, pc: Pc)

  /** `log` and `rows` hold what is committed. */
  datatype Store = Store(
    log: seq<CaptureEvent>, rows: map<Id, EvidenceRow>, objects: set<ObjectKey>, captures: map<CaptureId, Capture>)

  const EMPTY_STORE := Store([], map[], {}, map[])

  function KeyFor(r: Request): ObjectKey {
    ObjectKey(r.artifact, r.version, r.extension)
  }

  function CandidateFor(r: Request, view: seq<CaptureEvent>, at: Time): CaptureEvent {
    Event(r.version, 1, Captured(r.artifact, LatestNumber(view) + 1, KeyFor(r), r.sha256),
          if r.occurredAt.Some? then r.occurredAt.value else at, at, r.actor, None)
  }

  /** Steps of a capture; `ok` says whether the outside world lets the step succeed. */
  datatype Action = View | Upload(ok: bool) | Append(ok: bool, at: Time) | Delete(ok: bool) | Commit | Rollback

  datatype Move = Begin(c: CaptureId, request: Request) | Do(c: CaptureId, action: Action)

  /** Another open transaction has inserted the same version number; this insert waits for it. */
  predicate Blocked(s: Store, artifact: Id, number: nat) {
    exists d :: d in s.captures && s.captures[d].pc.Inserted? &&
      s.captures[d].pc.event.body.artifact == artifact && s.captures[d].pc.event.body.number == number
  }

  /** A new capture draws a version id that is not in use (new_id). */
  ghost predicate Unused(s: Store, version: Id) {
    version !in s.rows && forall d :: d in s.captures ==> s.captures[d].request.version != version
  }

  predicate Enabled(s: Store, c: CaptureId, a: Action) {
    c in s.captures &&
    match a
    case View => s.captures[c].pc.Begun?
    case Upload(_) => s.captures[c].pc.Viewed?
    case Append(ok, _) =>
      s.captures[c].pc.Uploaded? &&
      (ok ==> !Blocked(s, s.captures[c].request.artifact, LatestNumber(s.captures[c].pc.view) + 1))
    case Delete(_) => s.captures[c].pc.Cleaning?
    case Commit => s.captures[c].pc.Inserted?
    case Rollback => s.captures[c].pc.Inserted?
  }

  function Goto(s: Store, c: CaptureId, pc: Pc): Store
    requires c in s.captures
  {
    s.(captures := s.captures[c := s.captures[c].(pc := pc)])
  }

  function Existing(view: seq<CaptureEvent>, sha256: string): (e: CaptureEvent)
    requires HasHash(view, sha256)
    ensures e in view && e.body.sha256 == sha256
  {
    if view[0].body.sha256 == sha256 then view[0] else Existing(view[1..], sha256)
  }

  function Act(s: Store, c: CaptureId, a: Action): Store
    requires Enabled(s, c, a)
  {
    var r, pc := s.captures[c].request, s.captures[c].pc;
    match a
    case View =>
      var view := VersionsOf(s.log, r.artifact);
      if HasHash(view, r.sha256) then Goto(s, c, Finished(Existing(view, r.sha256).id, false))
      else Goto(s, c, Viewed(view))
    case Upload(ok) =>
      if ok then Goto(s.(objects := s.objects + {KeyFor(r)}), c, Uploaded(pc.view)) else Goto(s, c, Raised)
    case Append(ok, at) =>
      var e := CandidateFor(r, pc.view, at);
      if ok && !NumberTaken(s.log, r.artifact, e.body.number) then Goto(s, c, Inserted(e)) else Goto(s, c, Cleaning)
    case Delete(ok) => Goto(if ok then s.(objects := s.objects - {KeyFor(r)}) else s, c, Raised)
    case Commit =>
      Goto(s.(log := s.log + [pc.event], rows := Project(ProjectCaptured, s.rows, pc.event)),
           c, Finished(pc.event.id, true))
    case Rollback => Goto(s, c, Raised)
  }

  /** A move that is not possible changes nothing. */
  ghost function Step(s: Store, m: Move): Store {
    match m
    case Begin(c, request) =>
      if c !in s.captures && Unused(s, request.version) then s.(captures := s.captures[c := Capture(request, Begun)])
      else s
    case Do(c, a) => if Enabled(s, c, a) then Act(s, c, a) else s
  }

  ghost function RunMoves(moves: seq<Move>): Store {
    if moves == [] then EMPTY_STORE
    else Step(RunMoves(moves[..|moves| - 1]), moves[|moves| - 1])
  }

  /******* What every step keeps *******/

  /** The j-th version of an artifact is numbered j, and its hash is new to the artifact. */
  ghost predicate AddedAt(log: seq<CaptureEvent>, i: int)
    requires 0 <= i < |log|
  {
    var before := VersionsOf(log[..i], log[i].body.artifact);
    log[i].body.number == |before| + 1 && !HasHash(before, log[i].body.sha256)
  }

  ghost predicate WellNumbered(log: seq<CaptureEvent>) {
    forall i {:trigger AddedAt(log, i)} :: 0 <= i < |log| ==> AddedAt(log, i)
  }

  /** The row and the object of a committed event. */
  ghost predicate StoredAt(s: Store, i: int)
    requires 0 <= i < |s.log|
  {
    s.log[i].id in s.rows && s.log[i].body.objectKey.version == s.log[i].id && s.log[i].body.objectKey in s.objects
  }

  /** A version id is used by one event only. */
  ghost predicate FirstUse(log: seq<CaptureEvent>, i: int)
    requires 0 <= i < |log|
  {
    log[i].sequence == 1 && forall j :: 0 <= j < i ==> log[j].id != log[i].id
  }

  /** The stated time is the request's if it has one, and the recorded time otherwise. */
  ghost predicate StatesTime(r: Request, occurredAt: Time, recordedAt: Time) {
    occurredAt == if r.occurredAt.Some? then r.occurredAt.value else recordedAt
  }

  /** The row holds what the request asked for. */
  ghost predicate HoldsRequest(row: EvidenceRow, r: Request) {
    && row.artifact == r.artifact && row.sha256 == r.sha256 && row.actor == r.actor
    && row.objectKey == ObjectKey(r.artifact, r.version, r.extension)
    && (r.occurredAt.Some? ==> row.capturedAt == r.occurredAt.value)
  }

  /** What a capture that ended without an error gave its caller. */
  ghost predicate ResultOk(s: Store, r: Request, version: Id, created: bool) {
    && version in s.rows && s.rows[version].artifact == r.artifact && s.rows[version].sha256 == r.sha256
    && (created ==> version == r.version && HoldsRequest(s.rows[version], r))
  }

  ghost predicate CaptureOk(s: Store, c: CaptureId)
    requires c in s.captures
  {
    var r, pc := s.captures[c].request, s.captures[c].pc;
    var versions := VersionsOf(s.log, r.artifact);
    && (!pc.Finished? ==> r.version !in s.rows)
    && (pc.Viewed? || pc.Uploaded? ==> pc.view <= versions && !HasHash(pc.view, r.sha256))
    && (pc.Uploaded? || pc.Inserted? ==> KeyFor(r) in s.objects)
    && (pc.Inserted? ==>
          && pc.event.id == r.version && pc.event.sequence == 1
          && pc.event.body == Captured(r.artifact, |versions| + 1, KeyFor(r), r.sha256)
          && pc.event.actor == r.actor && StatesTime(r, pc.event.occurredAt, pc.event.recordedAt)
          && !HasHash(versions, r.sha256))
    && (pc.Finished? ==> ResultOk(s, r, pc.version, pc.created))
  }

  /** Two captures never share a version id, nor hold two uncommitted versions of one artifact. */
  ghost predicate Apart(s: Store, c: CaptureId, d: CaptureId)
    requires c in s.captures && d in s.captures
  {
    c == d ||
    (s.captures[c].request.version != s.captures[d].request.version &&
     !(s.captures[c].pc.Inserted? && s.captures[d].pc.Inserted? &&
       s.captures[c].request.artifact == s.captures[d].request.artifact))
  }

  ghost predicate StoreInv(s: Store) {
    && WellNumbered(s.log)
    && s.rows == ProjectAll(ProjectCaptured, map[], s.log)
    && (forall i {:trigger StoredAt(s, i)} :: 0 <= i < |s.log| ==> StoredAt(s, i))
    && (forall i {:trigger FirstUse(s.log, i)} :: 0 <= i < |s.log| ==> FirstUse(s.log, i))
    && (forall c {:trigger CaptureOk(s, c)} :: c in s.captures ==> CaptureOk(s, c))
    && (forall c, d {:trigger Apart(s, c, d)} :: c in s.captures && d in s.captures ==> Apart(s, c, d))
  }

  lemma VersionsAppend(log: seq<CaptureEvent>, e: CaptureEvent, artifact: Id)
    ensures VersionsOf(log + [e], artifact) == VersionsOf(log, artifact) + if e.body.artifact == artifact then
        [e] else []
  {
    assert (log + [e])[..|log|] == log;
  }

  lemma {:induction false} VersionsMember(log: seq<CaptureEvent>, artifact: Id, e: CaptureEvent)
    ensures e in VersionsOf(log, artifact) <==> e in log && e.body.artifact == artifact
  {
    if log != [] {
      VersionsMember(log[..|log| - 1], artifact, e);
      assert log == log[..|log| - 1] + [log[|log| - 1]];
    }
  }

  lemma WellNumberedPrefix(log: seq<CaptureEvent>, k: nat)
    requires WellNumbered(log) && k <= |log|
    ensures WellNumbered(log[..k])
  {
    forall i | 0 <= i < k ensures AddedAt(log[..k], i) {
      assert AddedAt(log, i);
      assert log[..k][..i] == log[..i];
    }
  }

  /** The versions of an artifact are numbered 1, 2, ..., n. */
  lemma {:induction false} NumbersAreContiguous(log: seq<CaptureEvent>, artifact: Id, j: nat)
    requires WellNumbered(log) && j < |VersionsOf(log, artifact)|
    ensures VersionsOf(log, artifact)[j].body.number == j + 1
  {
    var n := |log| - 1;
    WellNumberedPrefix(log, n);
    assert AddedAt(log, n);
    if j < |VersionsOf(log[..n], artifact)| {
      NumbersAreContiguous(log[..n], artifact, j);
    }
  }

  /** A view that is a prefix of the committed versions yields the number after its own length. */
  lemma {:induction false} LatestOfPrefix(view: seq<CaptureEvent>)
    requires forall j :: 0 <= j < |view| ==> view[j].body.number == j + 1
    ensures LatestNumber(view) == |view|
  {
    if view != [] {
      LatestOfPrefix(view[..|view| - 1]);
    }
  }

  lemma ViewNumber(log: seq<CaptureEvent>, artifact: Id, view: seq<CaptureEvent>)
    requires WellNumbered(log) && view <= VersionsOf(log, artifact)
    ensures LatestNumber(view) == |view|
  {
    forall j | 0 <= j < |view| ensures view[j].body.number == j + 1 {
      NumbersAreContiguous(log, artifact, j);
    }
    LatestOfPrefix(view);
  }

  /** The unique constraint on version numbers refuses exactly the captures whose view is stale. */
  lemma StaleViewRefused(log: seq<CaptureEvent>, artifact: Id, view: seq<CaptureEvent>)
    requires WellNumbered(log) && view <= VersionsOf(log, artifact)
    ensures NumberTaken(log, artifact, LatestNumber(view) + 1) <==> view != VersionsOf(log, artifact)
  {
    var versions := VersionsOf(log, artifact);
    ViewNumber(log, artifact, view);
    if |view| < |versions| {
      NumbersAreContiguous(log, artifact, |view|);
      VersionsMember(log, artifact, versions[|view|]);
    } else {
      forall e | e in log && e.body.artifact == artifact ensures e.body.number <= |versions| {
        VersionsMember(log, artifact, e);
        var j :| 0 <= j < |versions| && versions[j] == e;
        NumbersAreContiguous(log, artifact, j);
      }
    }
  }

  /** Steps that commit nothing: it is enough to look at the capture that moves and at the objects. */
  lemma QuietStep(s: Store, t: Store, c: CaptureId)
    requires StoreInv(s) && t.log == s.log && t.rows == s.rows
    requires c in t.captures && t.captures == s.captures[c := t.captures[c]]
    requires CaptureOk(t, c)
    requires c in s.captures ==> s.captures[c].request == t.captures[c].request
    requires c !in s.captures ==> Unused(s, t.captures[c].request.version)
    requires t.captures[c].pc.Inserted? ==>
      forall d :: d in s.captures && d != c && s.captures[d].pc.Inserted? ==>
        s.captures[d].request.artifact != t.captures[c].request.artifact
    requires forall k :: k in s.objects && k !in t.objects ==>
      k == KeyFor(t.captures[c].request) && t.captures[c].request.version !in s.rows
    ensures StoreInv(t)
  {
    forall d | d in t.captures ensures CaptureOk(t, d) {
      if d != c {
        assert CaptureOk(s, d);
        assert c in s.captures ==> Apart(s, c, d);
      }
    }
    forall i | 0 <= i < |t.log| ensures StoredAt(t, i) {
      assert StoredAt(s, i);
    }
    forall d, e | d in t.captures && e in t.captures ensures Apart(t, d, e) {
      assert d in s.captures && e in s.captures ==> Apart(s, d, e);
    }
  }

  lemma AppendKeepsInv(s: Store, c: CaptureId, ok: bool, at: Time)
    requires StoreInv(s) && Enabled(s, c, Append(ok, at))
    ensures StoreInv(Act(s, c, Append(ok, at)))
  {
    var r, view := s.captures[c].request, s.captures[c].pc.view;
    assert CaptureOk(s, c);
    ViewNumber(s.log, r.artifact, view);
    StaleViewRefused(s.log, r.artifact, view);
    forall d | d in s.captures && d != c && s.captures[d].pc.Inserted? && s.captures[d].request.artifact == r.artifact
      ensures !Act(s, c, Append(ok, at)).captures[c].pc.Inserted?
    {
      assert CaptureOk(s, d);
    }
    QuietStep(s, Act(s, c, Append(ok, at)), c);
  }

  lemma CommittedLog(s: Store, e: CaptureEvent)
    requires StoreInv(s)
    requires e.body.number == |VersionsOf(s.log, e.body.artifact)| + 1
    requires !HasHash(VersionsOf(s.log, e.body.artifact), e.body.sha256)
    ensures WellNumbered(s.log + [e])
    ensures Project(ProjectCaptured, s.rows, e) == ProjectAll(ProjectCaptured, map[], s.log + [e])
  {
    var log := s.log + [e];
    assert log[..|s.log|] == s.log;
    forall i | 0 <= i < |log| ensures AddedAt(log, i) {
      if i < |s.log| {
        assert AddedAt(s.log, i);
        assert log[..i] == s.log[..i];
      }
    }
  }

  /** The other captures after a commit: none of them waits to commit a version of the same artifact. */
  lemma CommitKeepsCapture(s: Store, c: CaptureId, d: CaptureId)
    requires StoreInv(s) && Enabled(s, c, Commit) && d in s.captures
    ensures CaptureOk(Act(s, c, Commit), d)
  {
    var e := s.captures[c].pc.event;
    assert CaptureOk(s, c);
    assert CaptureOk(s, d) && Apart(s, c, d);
    var versions := VersionsOf(s.log, s.captures[d].request.artifact);
    VersionsAppend(s.log, e, s.captures[d].request.artifact);
    assert versions + [] == versions;
  }

  lemma CommitKeepsStored(s: Store, c: CaptureId, i: nat)
    requires StoreInv(s) && Enabled(s, c, Commit) && i <= |s.log|
    ensures StoredAt(Act(s, c, Commit), i) && FirstUse(Act(s, c, Commit).log, i)
  {
    assert CaptureOk(s, c);
    if i == |s.log| {
      forall j | 0 <= j < |s.log| ensures s.log[j].id in s.rows {
        assert StoredAt(s, j);
      }
    } else {
      assert StoredAt(s, i) && FirstUse(s.log, i);
    }
  }

  lemma CommitKeepsInv(s: Store, c: CaptureId)
    requires StoreInv(s) && Enabled(s, c, Commit)
    ensures StoreInv(Act(s, c, Commit))
  {
    var t := Act(s, c, Commit);
    forall d | d in t.captures ensures CaptureOk(t, d) {
      CommitKeepsCapture(s, c, d);
    }
    forall i | 0 <= i < |t.log| ensures StoredAt(t, i) && FirstUse(t.log, i) {
      CommitKeepsStored(s, c, i);
    }
    forall d, f | d in t.captures && f in t.captures ensures Apart(t, d, f) {
      assert Apart(s, d, f);
    }
    assert CaptureOk(s, c);
    CommittedLog(s, s.captures[c].pc.event);
  }

  lemma ViewKeepsInv(s: Store, c: CaptureId)
    requires StoreInv(s) && Enabled(s, c, View)
    ensures StoreInv(Act(s, c, View))
  {
    var r := s.captures[c].request;
    assert CaptureOk(s, c);
    if HasHash(VersionsOf(s.log, r.artifact), r.sha256) {
      ExistingVersion(s, r.artifact, r.sha256);
    }
    QuietStep(s, Act(s, c, View), c);
  }

  lemma StepKeepsInv(s: Store, m: Move)
    requires StoreInv(s)
    ensures StoreInv(Step(s, m))
  {
    var t := Step(s, m);
    if m.Begin? {
      if m.c !in s.captures && Unused(s, m.request.version) {
        QuietStep(s, t, m.c);
      }
    } else if Enabled(s, m.c, m.action) {
      assert CaptureOk(s, m.c);
      match m.action {
        case Append(ok, at) => AppendKeepsInv(s, m.c, ok, at);
        case Commit => CommitKeepsInv(s, m.c);
        case View => ViewKeepsInv(s, m.c);
        case _ => QuietStep(s, t, m.c);
      }
    }
  }

  lemma {:induction false} RunKeepsStoreInv(moves: seq<Move>)
    ensures StoreInv(RunMoves(moves))
  {
    if moves != [] {
      RunKeepsStoreInv(moves[..|moves| - 1]);
      StepKeepsInv(RunMoves(moves[..|moves| - 1]), moves[|moves| - 1]);
    }
  }

  /******* Guarantees of every run *******/

  lemma {:induction false} RowsFromLog(log: seq<CaptureEvent>, v: Id)
    ensures v in ProjectAll(ProjectCaptured, map[], log) ==>
            exists i :: 0 <= i < |log| && log[i].id == v &&
                ProjectCaptured(None, log[i]) == Some(ProjectAll(ProjectCaptured, map[], log)[v])
  {
    if log != [] {
      var n := |log| - 1;
      RowsFromLog(log[..n], v);
      if v in ProjectAll(ProjectCaptured, map[], log) {
        if log[n].id == v {
          assert ProjectCaptured(None, log[n]) == Some(ProjectAll(ProjectCaptured, map[], log)[v]);
        } else {
          var i :| 0 <= i < n && log[..n][i].id == v &&
            ProjectCaptured(None, log[..n][i]) == Some(ProjectAll(ProjectCaptured, map[], log[..n])[v]);
          assert log[i].id == v;
        }
      }
    }
  }

  /** The event of a stored version, with what the invariant says of it. */
  lemma RowEvent(s: Store, v: Id) returns (i: nat)
    requires StoreInv(s) && v in s.rows
    ensures i < |s.log| && s.log[i].id == v && ProjectCaptured(None, s.log[i]) == Some(s.rows[v])
    ensures StoredAt(s, i) && AddedAt(s.log, i)
  {
    RowsFromLog(s.log, v);
    i :| 0 <= i < |s.log| && s.log[i].id == v && ProjectCaptured(None, s.log[i]) == Some(s.rows[v]);
    assert StoredAt(s, i) && AddedAt(s.log, i);
  }

  /** Every stored version's object is in the object store. */
  lemma ObjectsArePresent(moves: seq<Move>, v: Id)
    requires v in RunMoves(moves).rows
    ensures RunMoves(moves).rows[v].objectKey in RunMoves(moves).objects
  {
    RunKeepsStoreInv(moves);
    var i := RowEvent(RunMoves(moves), v);
  }

  lemma {:induction false} VersionsPrefix(log: seq<CaptureEvent>, k: nat, artifact: Id)
    requires k <= |log|
    ensures VersionsOf(log[..k], artifact) <= VersionsOf(log, artifact)
    decreases |log|
  {
    if k < |log| {
      var front := log[..|log| - 1];
      VersionsPrefix(front, k, artifact);
      assert front[..k] == log[..k];
    } else {
      assert log[..k] == log;
    }
  }

  /** Of two committed captures of one artifact, the later has the larger number and another hash. */
  lemma LaterCapture(log: seq<CaptureEvent>, i: nat, j: nat)
    requires WellNumbered(log) && i < j < |log| && log[i].body.artifact == log[j].body.artifact
    ensures log[i].body.number < log[j].body.number && log[i].body.sha256 != log[j].body.sha256
  {
    var a := log[i].body.artifact;
    assert AddedAt(log, i) && AddedAt(log, j);
    assert log[..j][..i + 1] == log[..i + 1] && log[..i + 1] == log[..i] + [log[i]];
    VersionsPrefix(log[..j], i + 1, a);
    VersionsAppend(log[..i], log[i], a);
    VersionsMember(log[..j], a, log[i]);
  }

  /** However captures interleave and fail, no artifact has two versions with one hash or one number. */
  lemma HashesAreUnique(moves: seq<Move>, v: Id, w: Id)
    requires v in RunMoves(moves).rows && w in RunMoves(moves).rows && v != w
    requires RunMoves(moves).rows[v].artifact == RunMoves(moves).rows[w].artifact
    ensures RunMoves(moves).rows[v].sha256 != RunMoves(moves).rows[w].sha256
    ensures RunMoves(moves).rows[v].number != RunMoves(moves).rows[w].number
  {
    var s := RunMoves(moves);
    RunKeepsStoreInv(moves);
    var i := RowEvent(s, v);
    var j := RowEvent(s, w);
    if i < j {
      LaterCapture(s.log, i, j);
    } else {
      LaterCapture(s.log, j, i);
    }
  }

  /** With uniqueness above: the version numbers of an artifact are exactly 1..n. */
  lemma NumbersHaveNoGap(moves: seq<Move>, v: Id, number: nat) returns (w: Id)
    requires v in RunMoves(moves).rows && 1 <= number <= RunMoves(moves).rows[v].number
    ensures w in RunMoves(moves).rows && RunMoves(moves).rows[w].number == number
    ensures RunMoves(moves).rows[w].artifact == RunMoves(moves).rows[v].artifact
  {
    var s := RunMoves(moves);
    RunKeepsStoreInv(moves);
    var i := RowEvent(s, v);
    var a := s.rows[v].artifact;
    VersionsPrefix(s.log, i + 1, a);
    assert s.log[..i + 1] == s.log[..i] + [s.log[i]];
    VersionsAppend(s.log[..i], s.log[i], a);
    var e := VersionsOf(s.log, a)[number - 1];
    NumbersAreContiguous(s.log, a, number - 1);
    VersionsMember(s.log, a, e);
    w := e.id;
    var j :| 0 <= j < |s.log| && s.log[j] == e;
    CommittedRow(s, j);
  }

  /** A committed event's row is its own: version ids are never used twice. */
  lemma CommittedRow(s: Store, j: nat)
    requires StoreInv(s) && j < |s.log|
    ensures s.log[j].id in s.rows && Some(s.rows[s.log[j].id]) == ProjectCaptured(None, s.log[j])
  {
    assert StoredAt(s, j);
    var i := RowEvent(s, s.log[j].id);
    if i != j {
      SameVersionSameEvent(s, i, j);
    }
  }

  lemma SameVersionSameEvent(s: Store, i: nat, j: nat)
    requires StoreInv(s) && i < |s.log| && j < |s.log| && s.log[i].id == s.log[j].id
    ensures i == j
  {
    assert FirstUse(s.log, i) && FirstUse(s.log, j);
  }

  /**
   However captures interleave and fail: a capture that ended without an error named a stored version with the
   requested content, and one that created it left what its request states.
   */
  lemma ResultsHoldRequests(moves: seq<Move>, c: CaptureId)
    requires c in RunMoves(moves).captures && RunMoves(moves).captures[c].pc.Finished?
    ensures var s, r, pc := RunMoves(moves), RunMoves(moves).captures[c].request, RunMoves(moves).captures[c].pc;
      && pc.version in s.rows && s.rows[pc.version].artifact == r.artifact && s.rows[pc.version].sha256 == r.sha256
      && (pc.created ==> pc.version == r.version && HoldsRequest(s.rows[pc.version], r))
  {
    RunKeepsStoreInv(moves);
    assert CaptureOk(RunMoves(moves), c);
  }

  /******* Orphaned objects *******/

  predicate Compensated(m: Move) {
    m.Begin? || (!m.action.Rollback? && m.action != Delete(false))
  }

  /** The object belongs to a committed version, or to a capture that has yet to commit it or delete it. */
  ghost predicate Owned(s: Store, k: ObjectKey) {
    || (exists i :: 0 <= i < |s.log| && s.log[i].body.objectKey == k)
    || (exists c :: Holds(s, c, k))
  }

  predicate Holds(s: Store, c: CaptureId, k: ObjectKey) {
    c in s.captures && KeyFor(s.captures[c].request) == k &&
    (s.captures[c].pc.Uploaded? || s.captures[c].pc.Inserted? || s.captures[c].pc.Cleaning?)
  }

  lemma StepKeepsOwned(s: Store, m: Move, k: ObjectKey)
    requires StoreInv(s) && Compensated(m) && k in Step(s, m).objects && (k in s.objects ==> Owned(s, k))
    ensures Owned(Step(s, m), k)
  {
    var t := Step(s, m);
    if i :| 0 <= i < |s.log| && s.log[i].body.objectKey == k {
      assert t.log[i].body.objectKey == k;
    } else if k in s.objects {
      var c :| Holds(s, c, k);
      HolderStep(s, m, c, k);
    } else {
      assert Holds(t, m.c, k);
    }
  }

  lemma HolderStep(s: Store, m: Move, c: CaptureId, k: ObjectKey)
    requires StoreInv(s) && Compensated(m) && k in Step(s, m).objects && Holds(s, c, k)
    ensures Owned(Step(s, m), k)
  {
    var t := Step(s, m);
    assert CaptureOk(s, c);
    if m == Do(c, Commit) && Enabled(s, c, Commit) {
      assert t.log[|s.log|].body.objectKey == k;
    } else {
      assert Holds(t, c, k);
    }
  }

  /**
   If every failed append could be cleaned up and no caller rolled back a finished capture, then once
   no capture is in flight the object store holds exactly the objects of the stored versions.
   */
  lemma {:induction false} NoOrphans(moves: seq<Move>, k: ObjectKey)
    requires forall i :: 0 <= i < |moves| ==> Compensated(moves[i])
    ensures k in RunMoves(moves).objects ==> Owned(RunMoves(moves), k)
  {
    if moves != [] {
      var n := |moves| - 1;
      NoOrphans(moves[..n], k);
      RunKeepsStoreInv(moves[..n]);
      if k in RunMoves(moves).objects {
        StepKeepsOwned(RunMoves(moves[..n]), moves[n], k);
      }
    }
  }

  lemma ObjectsAreExactlyTheVersions(moves: seq<Move>)
    requires forall i :: 0 <= i < |moves| ==> Compensated(moves[i])
    requires forall c :: c in RunMoves(moves).captures ==>
      RunMoves(moves).captures[c].pc.Finished? || RunMoves(moves).captures[c].pc.Raised?
    ensures RunMoves(moves).objects == set v | v in RunMoves(moves).rows :: RunMoves(moves).rows[v].objectKey
  {
    var s := RunMoves(moves);
    RunKeepsStoreInv(moves);
    var keys := set v | v in s.rows :: s.rows[v].objectKey;
    forall k | k in s.objects ensures k in keys {
      NoOrphans(moves, k);
      var i :| 0 <= i < |s.log| && s.log[i].body.objectKey == k;
      CommittedRow(s, i);
    }
    forall k | k in keys ensures k in s.objects {
      var v :| v in s.rows && s.rows[v].objectKey == k;
      ObjectsArePresent(moves, v);
    }
  }

  /******* One capture, from its call to its caller's commit or rollback *******/

  lemma ExistingVersion(s: Store, artifact: Id, sha256: string)
    requires StoreInv(s) && HasHash(VersionsOf(s.log, artifact), sha256)
    ensures var v := Existing(VersionsOf(s.log, artifact), sha256).id;
      v in s.rows && s.rows[v].artifact == artifact && s.rows[v].sha256 == sha256
  {
    var e := Existing(VersionsOf(s.log, artifact), sha256);
    VersionsMember(s.log, artifact, e);
    var j :| 0 <= j < |s.log| && s.log[j] == e;
    CommittedRow(s, j);
  }

  /** What the outside world answers during one call. */
  datatype Answers = Answers(upload: bool, append: bool, delete: bool, commit: bool, at: Time)

  class EvidenceRepository {
    var store: Store

    constructor ()
      ensures store == EMPTY_STORE
    {
      store := EMPTY_STORE;
    }

    /** The first part of capture_evidence_version: is there a version with this content already? */
    method LookUp(c: CaptureId, request: Request) returns (existing: Option<Id>)
      requires StoreInv(store) && c !in store.captures && Unused(store, request.version)
      modifies this
      ensures StoreInv(store) && store.log == old(store.log) && store.rows == old(store.rows)
      ensures store.objects == old(store.objects)
      ensures existing.Some? <==> HasHash(VersionsOf(store.log, request.artifact), request.sha256)
      ensures existing.Some? ==>
        && existing.value in store.rows && store.rows[existing.value].artifact == request.artifact
        && store.rows[existing.value].sha256 == request.sha256
      ensures existing.None? ==>
        store.captures == old(store.captures)[c := Capture(request, Viewed(VersionsOf(store.log, request.artifact)))]
    {
      StepKeepsInv(store, Begin(c, request));
      store := store.(captures := store.captures[c := Capture(request, Begun)]);
      StepKeepsInv(store, Do(c, View));
      store := Act(store, c, View);
      if store.captures[c].pc.Finished? {
        ExistingVersion(store, request.artifact, request.sha256);
        existing := Some(store.captures[c].pc.version);
      } else {
        existing := None;
      }
    }

    /** The second part: append the event; if that fails for any reason, delete the object again. */
    method AppendOrCleanUp(c: CaptureId, answers: Answers) returns (ok: bool)
      requires StoreInv(store) && c in store.captures && store.captures[c].pc.Uploaded?
      requires forall number :: !Blocked(store, store.captures[c].request.artifact, number)
      modifies this
      ensures StoreInv(store) && store.log == old(store.log) && store.rows == old(store.rows)
      ensures c in store.captures && store.captures[c].request == old(store.captures[c].request)
      ensures ok == (answers.append &&
        old(store.captures[c].pc.view) == VersionsOf(store.log, store.captures[c].request.artifact))
      ensures ok ==> store.captures[c].pc.Inserted? && store.captures[c].pc.event.recordedAt == answers.at
      ensures store.objects ==
        if ok || !answers.delete then old(store.objects) else old(store.objects) - {KeyFor(store.captures[c].request)}
    {
      assert CaptureOk(store, c);
      StaleViewRefused(store.log, store.captures[c].request.artifact, store.captures[c].pc.view);
      StepKeepsInv(store, Do(c, Append(answers.append, answers.at)));
      store := Act(store, c, Append(answers.append, answers.at));
      ok := store.captures[c].pc.Inserted?;
      if !ok {
        StepKeepsInv(store, Do(c, Delete(answers.delete)));
        store := Act(store, c, Delete(answers.delete));
      }
    }

    method EndTransaction(c: CaptureId, commit: bool)
      requires StoreInv(store) && c in store.captures && store.captures[c].pc.Inserted?
      modifies this
      ensures StoreInv(store) && store.objects == old(store.objects)
      ensures !commit ==> store.log == old(store.log) && store.rows == old(store.rows)
      ensures commit ==>
        var r := old(store.captures[c].request);
        && r.version in store.rows && store.rows == old(store.rows)[r.version := store.rows[r.version]]
        && HoldsRequest(store.rows[r.version], r)
        && StatesTime(r, store.rows[r.version].capturedAt, old(store.captures[c].pc.event.recordedAt))
        && store.rows[r.version].number == |VersionsOf(old(store.log), r.artifact)| + 1
    {
      assert CaptureOk(store, c);
      var last := if commit then Commit else Rollback;
      StepKeepsInv(store, Do(c, last));
      store := Act(store, c, last);
    }

    /**
     capture_evidence_version and the end of its caller's transaction, with no other capture of the
     artifact in between. Each statement is one step of the machine above, so its guarantees hold.
     */
    method CaptureVersion(c: CaptureId, request: Request, answers: Answers) returns (r: Option<(Id, bool)>)
      requires StoreInv(store) && c !in store.captures && Unused(store, request.version)
      requires forall number :: !Blocked(store, request.artifact, number)
      modifies this
      ensures StoreInv(store)
      ensures var known := HasHash(VersionsOf(old(store.log), request.artifact), request.sha256);
        && (known ==> r.Some? && !r.value.1)
        && (!known ==> (r == if answers.upload && answers.append &&
            answers.commit then Some((request.version, true)) else None))
      ensures r.Some? ==>
        && r.value.0 in store.rows && store.rows[r.value.0].artifact == request.artifact
        && store.rows[r.value.0].sha256 == request.sha256
      ensures r.Some? && r.value.1 ==>
        && store.rows == old(store.rows)[request.version := store.rows[request.version]]
        && HoldsRequest(store.rows[request.version], request)
        && StatesTime(request, store.rows[request.version].capturedAt, answers.at)
        && store.rows[request.version].number == |VersionsOf(old(store.log), request.artifact)| + 1
        && store.objects == old(store.objects) + {store.rows[request.version].objectKey}
      ensures r.None? || !r.value.1 ==> store.log == old(store.log) && store.rows == old(store.rows)
      ensures r.Some? && !r.value.1 ==> store.objects == old(store.objects)
      ensures r.None? && answers.commit && answers.delete ==> store.objects <= old(store.objects)
    {
      var existing := LookUp(c, request);
      if existing.Some? {
        return Some((existing.value, false));
      }
      StepKeepsInv(store, Do(c, Upload(answers.upload)));
      store := Act(store, c, Upload(answers.upload));
      if !answers.upload {
        return None;
      }
      forall number ensures !Blocked(store, request.artifact, number) {
        assert !Blocked(old(store), request.artifact, number);
      }
      var ok := AppendOrCleanUp(c, answers);
      if !ok {
        return None;
      }
      EndTransaction(c, answers.commit);
      r := if answers.commit then Some((request.version, true)) else None;
    }
  }
}
