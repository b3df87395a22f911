/**
 Rebuilding the projections that refer to each other (app/backup.py): each rebuild's reset also
 damages rows that another projection owns, so the order decides what a recovery restores.
 */
module Recovery {
  import opened Common
  import opened EventLog
  import opened Replay
  import opened VersionLifecycle
  import opened PolicyLifecycle
  import opened ControlDefinitions
  import opened DefinitionReplay
  import opened Evidence
  import opened Operations
  import Occurrences

  datatype Projection =
    | PolicyVersionLifecycle
    | ControlOccurrences
    | InternalControlVersions
    | EvidenceArtifactVersions
    | ControlTests
    | ComplianceScope
    | Findings
    | FrameworkAdoption

  /** _PROJECTION_REBUILDERS, in its order. */
  const REGISTRY: seq<Projection> := [
    PolicyVersionLifecycle, ControlOccurrences, InternalControlVersions, EvidenceArtifactVersions,
    ControlTests, ComplianceScope, Findings, FrameworkAdoption]

  /** The answers to the ordered queries; `failing` are rebuilds of other tables that raise. */
  datatype Answers = Answers(
    definitions: seq<VersionEvent>, captures: seq<CaptureEvent>, occurrences: seq<Occurrences.OccurrenceEvent>,
    failing: set<Projection>)

  /** The part of _reset_internal_control_versions that writes another projection's table. */
  function ClearPins(rows: map<Id, Occurrences.Occurrence>): map<Id, Occurrences.Occurrence> {
    map v | v in rows :: rows[v].(pin := None)
  }

  /** The part of _reset_evidence_artifact_versions that writes another projection's table. */
  function ClearLinks(rows: map<Id, Occurrences.Occurrence>): map<Id, Occurrences.Occurrence> {
    map v | v in rows :: rows[v].(artifacts := {})
  }

  predicate CaptureAccepted(rows: map<Id, EvidenceRow>, e: CaptureEvent) {
    e.id !in rows &&
    forall v | v in rows :: !(rows[v].artifact == e.body.artifact && rows[v].number == e.body.number)
  }

  /** Replay from the emptied table; a violated constraint raises. */
  function ReplayCaptures(es: seq<CaptureEvent>): Result<map<Id, EvidenceRow>> {
    if es == [] then Success(map[])
    else
      var before := ReplayCaptures(es[..|es| - 1]);
      if before.Failure? then before
      else if CaptureAccepted(before.value, es[|es| - 1])
      then Success(Project(ProjectCaptured, before.value, es[|es| - 1]))
      else Failure(IntegrityError)
  }

  function ReplayOccurrences(es: seq<Occurrences.OccurrenceEvent>, refs: Occurrences.Refs)
    : Result<map<Id, Occurrences.Occurrence>>
  {
    if es == [] then Success(map[])
    else
      var before := ReplayOccurrences(es[..|es| - 1], refs);
      if before.Failure? then before
      else if Occurrences.Accepts(before.value, refs, es[|es| - 1])
      then Success(Project(Occurrences.ProjectOccurrence, before.value, es[|es| - 1]))
      else Failure(IntegrityError)
  }

  /** One entry of the registry. */
  ghost function Rebuild(w: World, p: Projection, a: Answers): Result<World> {
    match p
    case InternalControlVersions =>
      var r := RebuildRows(ByKey, a.definitions);
      if r.Failure? then Failure(r.error)
      else Success(w.(defs := w.defs.(versions := r.value), occs := w.occs.(rows := ClearPins(w.occs.rows))))
    case EvidenceArtifactVersions =>
      var r := ReplayCaptures(a.captures);
      if r.Failure? then Failure(r.error)
      else Success(w.(evidence := r.value, occs := w.occs.(rows := ClearLinks(w.occs.rows))))
    case ControlOccurrences =>
      var r := ReplayOccurrences(a.occurrences, RefsOf(w));
      if r.Failure? then Failure(r.error) else Success(w.(occs := w.occs.(rows := r.value)))
    case _ => if p in a.failing then Failure(IntegrityError) else Success(w)
  }

  /** A success is committed, a failure is rolled back. */
  ghost function AfterRebuild(w: World, p: Projection, a: Answers): World {
    var r := Rebuild(w, p, a);
    if r.Success? then r.value else w
  }

  /** _rebuild_all_projections. */
  ghost function RebuildAll(w: World, names: seq<Projection>, a: Answers): World {
    if names == [] then w
    else
      AfterRebuild(RebuildAll(w, names[..|names| - 1], a), names[|names| - 1], a)
  }

  /** The names it reports as rebuilt (`ok`) or as failed. */
  ghost function Reported(w: World, names: seq<Projection>, a: Answers, ok: bool): seq<Projection> {
    if names == [] then []
    else
      var n := |names| - 1;
      Reported(w, names[..n], a, ok) +
        if Rebuild(RebuildAll(w, names[..n], a), names[n], a).Success? == ok then [names[n]] else []
  }

  /******* Each replay succeeds *******/

  /** A reachable state whose recorded times do not fall along any aggregate's history, and answers for it. */
  ghost predicate Recoverable(w: World, a: Answers) {
    && WorldInv(w) && RecordedInOrder(w.defs.log) && RecordedInOrder(w.occs.log)
    && Selected(RebuildOrder<Body>, w.defs.log, a.definitions)
    && Selected(RebuildOrder<CaptureBody>, w.captures, a.captures)
    && Selected(RebuildOrder<Occurrences.OccurrenceBody>, w.occs.log, a.occurrences)
  }

  lemma CapturesRecorded(captures: seq<CaptureEvent>)
    requires forall i {:trigger FirstUse(captures, i)} :: 0 <= i < |captures| ==> FirstUse(captures, i)
    ensures RecordedInOrder(captures) && UniqueSlots(captures)
  {
    forall i, j | 0 <= i < j < |captures| ensures InTime(captures, i, j) && SlotsDiffer(captures, i, j) {
      assert FirstUse(captures, j);
    }
  }

  /** Any arrangement of the captures keeps ids and version numbers apart. */
  lemma ArrangedApart(captures: seq<CaptureEvent>, es: seq<CaptureEvent>, i: nat, j: nat)
    requires forall k {:trigger FirstUse(captures, k)} :: 0 <= k < |captures| ==> FirstUse(captures, k)
    requires forall k {:trigger NumbersApart(captures, k)} :: 0 <= k < |captures| ==> NumbersApart(captures, k)
    requires multiset(es) == multiset(captures) && i < j < |es|
    ensures es[i].id != es[j].id
    ensures !(es[i].body.artifact == es[j].body.artifact && es[i].body.number == es[j].body.number)
  {
    CapturesRecorded(captures);
    UniquePermuted(captures, es);
    assert SlotsDiffer(es, i, j);
    assert es[i] in multiset(es) && es[j] in multiset(es);
    var p := IndexOf(captures, es[i]);
    var q := IndexOf(captures, es[j]);
    assert FirstUse(captures, p) && FirstUse(captures, q);
    assert NumbersApart(captures, p) && NumbersApart(captures, q);
    assert p < q ==> captures[p] in captures[..q];
    assert q < p ==> captures[q] in captures[..p];
  }

  lemma {:induction false} CapturesReplay(captures: seq<CaptureEvent>, es: seq<CaptureEvent>, k: nat)
    requires forall i {:trigger FirstUse(captures, i)} :: 0 <= i < |captures| ==> FirstUse(captures, i)
    requires forall i {:trigger NumbersApart(captures, i)} :: 0 <= i < |captures| ==> NumbersApart(captures, i)
    requires multiset(es) == multiset(captures) && k <= |es|
    ensures ReplayCaptures(es[..k]) == Success(ProjectAll(ProjectCaptured, map[], es[..k]))
    decreases k
  {
    if k > 0 {
      CapturesReplay(captures, es, k - 1);
      assert es[..k][..k - 1] == es[..k - 1];
      var rows, e := ProjectAll(ProjectCaptured, map[], es[..k - 1]), es[k - 1];
      forall v | v in rows
        ensures v != e.id && !(rows[v].artifact == e.body.artifact && rows[v].number == e.body.number)
      {
        RowsFromLog(es[..k - 1], v);
        var i :| 0 <= i < k - 1 && es[..k - 1][i].id == v && ProjectCaptured(None, es[..k - 1][i]) == Some(rows[v]);
        ArrangedApart(captures, es, i, k - 1);
      }
    }
  }

  lemma CapturesRestored(captures: seq<CaptureEvent>, evidence: map<Id, EvidenceRow>, es: seq<CaptureEvent>)
    requires EvidenceInv(captures, evidence) && Selected(RebuildOrder<CaptureBody>, captures, es)
    ensures ReplayCaptures(es) == Success(evidence)
  {
    CapturesReplay(captures, es, |es|);
    assert es[..|es|] == es;
    CapturesRecorded(captures);
    RebuildEqualsLive<EvidenceRow, CaptureBody>(ProjectCaptured, map[], captures, es);
  }

  /** The row that a replay holds for an aggregate, after `k` events. */
  lemma ReplayedOccurrence(t: Occurrences.Tables, refs: Occurrences.Refs, es: seq<Occurrences.OccurrenceEvent>,
      k: nat, v: Id)
    requires Occurrences.OccurrencesInv(t, refs) && RecordedInOrder(t.log)
    requires Selected(RebuildOrder<Occurrences.OccurrenceBody>, t.log, es) && k <= |es|
    ensures var row := Lookup(ProjectAll(Occurrences.ProjectOccurrence, map[], es[..k]), v);
      && Of(es[..k], v) <= Of(t.log, v)
      && row == Fold(Occurrences.ProjectOccurrence, None, Of(es[..k], v))
      && (row.Some? ==> v in t.rows && Occurrences.SameCore(row.value, t.rows[v]))
  {
    SortedKeepsHistories(t.log, es, v);
    OfPrefix(es, k, v);
    RowAfter<Occurrences.Occurrence, Occurrences.OccurrenceBody>(Occurrences.ProjectOccurrence, map[], es[..k], v);
    Occurrences.RowOf(t, refs, v);
    var seen := Of(es[..k], v);
    if seen != [] {
      assert Occurrences.HistoryOk(Of(t.log, v));
      Occurrences.HistoryPrefix(Of(t.log, v), |seen|);
      assert Of(t.log, v)[..|seen|] == seen;
      Occurrences.CoreOfHistory(seen);
    }
  }

  lemma ReplayAccepts(t: Occurrences.Tables, refs: Occurrences.Refs, es: seq<Occurrences.OccurrenceEvent>, k: nat)
    requires Occurrences.OccurrencesInv(t, refs) && RecordedInOrder(t.log)
    requires Selected(RebuildOrder<Occurrences.OccurrenceBody>, t.log, es) && k < |es|
    ensures Occurrences.Accepts(ProjectAll(Occurrences.ProjectOccurrence, map[], es[..k]), refs, es[k])
  {
    var e := es[k];
    assert e in multiset(es);
    var i := IndexOf(t.log, e);
    assert Occurrences.RefAt(t.log, refs, i);
    ReplayRowAccepts(t, refs, es, k);
    if Occurrences.Creates(e.body) {
      Occurrences.BornAt(t, refs, i);
      var rows := ProjectAll(Occurrences.ProjectOccurrence, map[], es[..k]);
      forall v | v in rows ensures !Occurrences.Collides(rows, v, Occurrences.NewRow(e)) {
        ReplayedOccurrence(t, refs, es, k, v);
        assert !Occurrences.SharedSlot(t.rows, v, e.id);
      }
    }
  }

  lemma ReplayRowAccepts(t: Occurrences.Tables, refs: Occurrences.Refs, es: seq<Occurrences.OccurrenceEvent>, k: nat)
    requires Occurrences.OccurrencesInv(t, refs) && RecordedInOrder(t.log)
    requires Selected(RebuildOrder<Occurrences.OccurrenceBody>, t.log, es) && k < |es|
    ensures Occurrences.RowAccepts(Lookup(ProjectAll(Occurrences.ProjectOccurrence, map[], es[..k]), es[k].id), es[k])
  {
    var v := es[k].id;
    ReplayedOccurrence(t, refs, es, k, v);
    SortedKeepsHistories(t.log, es, v);
    assert es[..|es|] == es;
    OfAt(es, k, |es|);
    var history, p := Of(t.log, v), |Of(es[..k], v)|;
    assert Occurrences.HistoryOk(history);
    assert Occurrences.AcceptedAt(history, p);
    assert history[..p] == Of(es[..k], v);
  }

  lemma {:induction false} OccurrencesReplay(t: Occurrences.Tables, refs: Occurrences.Refs,
      es: seq<Occurrences.OccurrenceEvent>, k: nat)
    requires Occurrences.OccurrencesInv(t, refs) && RecordedInOrder(t.log)
    requires Selected(RebuildOrder<Occurrences.OccurrenceBody>, t.log, es) && k <= |es|
    ensures ReplayOccurrences(es[..k], refs) == Success(ProjectAll(Occurrences.ProjectOccurrence, map[], es[..k]))
    decreases k
  {
    if k > 0 {
      OccurrencesReplay(t, refs, es, k - 1);
      assert es[..k][..k - 1] == es[..k - 1];
      ReplayAccepts(t, refs, es, k - 1);
    }
  }

  lemma OccurrencesRestored(t: Occurrences.Tables, refs: Occurrences.Refs, es: seq<Occurrences.OccurrenceEvent>)
    requires Occurrences.OccurrencesInv(t, refs) && RecordedInOrder(t.log)
    requires Selected(RebuildOrder<Occurrences.OccurrenceBody>, t.log, es)
    ensures ReplayOccurrences(es, refs) == Success(t.rows)
  {
    OccurrencesReplay(t, refs, es, |es|);
    assert es[..|es|] == es;
    RebuildEqualsLive<Occurrences.Occurrence, Occurrences.OccurrenceBody>(Occurrences.ProjectOccurrence, map[], t.log,
        es);
  }

  /******* What an order of rebuilds keeps *******/

  /** `breaker` is rebuilt at some point after which `owner` is not. */
  ghost predicate LeftBroken(names: seq<Projection>, breaker: Projection, owner: Projection) {
    exists i :: 0 <= i < |names| && names[i] == breaker && owner !in names[i..]
  }

  lemma LeftBrokenAppend(names: seq<Projection>, breaker: Projection, owner: Projection)
    requires names != [] && breaker != owner
    ensures var n := |names| - 1;
      LeftBroken(names, breaker, owner) <==>
      names[n] != owner && (names[n] == breaker || LeftBroken(names[..n], breaker, owner))
  {
    var n := |names| - 1;
    if i :| 0 <= i < |names| && names[i] == breaker && owner !in names[i..] {
      assert names[n] == names[i..][n - i];
      if i < n {
        forall k | 0 <= k < |names[..n][i..]| ensures names[..n][i..][k] != owner {
          assert names[..n][i..][k] == names[i..][k];
        }
        assert names[..n][i] == breaker;
      }
    }
    if names[n] != owner {
      if i :| 0 <= i < n && names[..n][i] == breaker && owner !in names[..n][i..] {
        assert names[i] == breaker && names[i..] == names[..n][i..] + [names[n]];
      }
      assert names[n..] == [names[n]];
    }
  }

  ghost predicate DefinitionsReplay(w: World) {
    !Crossing(w.defs) && !Dangling(w.defs) && !Batched(w.defs, ByKey)
  }

  function Damaged(live: World, pins: bool, links: bool): World {
    var rows := live.occs.rows;
    live.(occs := live.occs.(rows := map v | v in rows ::
      rows[v].(pin := if pins then None else rows[v].pin, artifacts := if links then {} else rows[v].artifacts)))
  }

  lemma DamagedStep(live: World, a: Answers, pins: bool, links: bool, p: Projection)
    requires Recoverable(live, a)
    ensures AfterRebuild(Damaged(live, pins, links), p, a) ==
      match p
      case ControlOccurrences => Damaged(live, false, false)
      case InternalControlVersions => Damaged(live, pins || DefinitionsReplay(live), links)
      case EvidenceArtifactVersions => Damaged(live, pins, true)
      case _ => Damaged(live, pins, links)
  {
    ClearDamaged(live, pins, links);
    match p {
      case ControlOccurrences =>
        OccurrencesRestored(live.occs, RefsOf(live), a.occurrences);
        Undamaged(live);
      case InternalControlVersions => RebuildSucceedsIff(live.defs, ByKey, a.definitions);
      case EvidenceArtifactVersions => CapturesRestored(live.captures, live.evidence, a.captures);
      case _ =>
    }
  }

  lemma ClearDamaged(live: World, pins: bool, links: bool)
    ensures ClearPins(Damaged(live, pins, links).occs.rows) == Damaged(live, true, links).occs.rows
    ensures ClearLinks(Damaged(live, pins, links).occs.rows) == Damaged(live, pins, true).occs.rows
  {
  }

  lemma Undamaged(live: World)
    ensures Damaged(live, false, false) == live
  {
    assert Damaged(live, false, false).occs.rows == live.occs.rows;
  }

  /**
   What any series of rebuilds, in any order and with repetitions, leaves of a reachable state: the
   three tables, but without the pins if the definitions were rebuilt at some point and the
   occurrences not after it, and without the artifact links if the evidence versions were.
   */
  lemma {:induction false} AfterRebuilds(live: World, names: seq<Projection>, a: Answers)
    requires Recoverable(live, a)
    ensures RebuildAll(live, names, a) ==
            Damaged(live, DefinitionsReplay(live) && LeftBroken(names, InternalControlVersions, ControlOccurrences),
                    LeftBroken(names, EvidenceArtifactVersions, ControlOccurrences))
  {
    if names == [] {
      Undamaged(live);
    } else {
      var n := |names| - 1;
      AfterRebuilds(live, names[..n], a);
      LeftBrokenAppend(names, InternalControlVersions, ControlOccurrences);
      LeftBrokenAppend(names, EvidenceArtifactVersions, ControlOccurrences);
      DamagedStep(live, a, DefinitionsReplay(live) &&
          LeftBroken(names[..n], InternalControlVersions, ControlOccurrences),
                  LeftBroken(names[..n], EvidenceArtifactVersions, ControlOccurrences), names[n]);
    }
  }

  ghost predicate NoPins(w: World) {
    forall v :: v in w.occs.rows ==> w.occs.rows[v].pin.None?
  }

  ghost predicate NoLinks(w: World) {
    forall v :: v in w.occs.rows ==> w.occs.rows[v].artifacts == {}
  }

  lemma DamagedIsLiveIff(live: World, pins: bool, links: bool)
    ensures Damaged(live, pins, links) == live <==> (pins ==> NoPins(live)) && (links ==> NoLinks(live))
    ensures pins ==> NoPins(Damaged(live, pins, links))
    ensures links ==> NoLinks(Damaged(live, pins, links))
  {
    var rows, damaged := live.occs.rows, Damaged(live, pins, links).occs.rows;
    if Damaged(live, pins, links) == live {
      forall v | v in rows ensures (pins ==> rows[v].pin.None?) && (links ==> rows[v].artifacts == {}) {
        assert damaged[v] == rows[v];
      }
    }
    if (pins ==> NoPins(live)) && (links ==> NoLinks(live)) {
      assert damaged == rows;
    }
  }

  /** Exactly which orders of rebuilding restore a reachable state. */
  lemma RestoredIff(live: World, names: seq<Projection>, a: Answers)
    requires Recoverable(live, a)
    ensures RebuildAll(live, names, a) == live <==>
      && (DefinitionsReplay(live) && LeftBroken(names, InternalControlVersions, ControlOccurrences) ==> NoPins(live))
      && (LeftBroken(names, EvidenceArtifactVersions, ControlOccurrences) ==> NoLinks(live))
  {
    AfterRebuilds(live, names, a);
    DamagedIsLiveIff(live, DefinitionsReplay(live) && LeftBroken(names, InternalControlVersions, ControlOccurrences),
                     LeftBroken(names, EvidenceArtifactVersions, ControlOccurrences));
  }

  /**
   The registry's own order rebuilds the occurrences first: it ends with every artifact link gone and,
   if the definitions can be replayed at all, with every pin gone; everything else is as before.
   */
  lemma RegistryOrderLoses(live: World, a: Answers)
    requires Recoverable(live, a)
    ensures RebuildAll(live, REGISTRY, a) == Damaged(live, DefinitionsReplay(live), true)
    ensures NoLinks(RebuildAll(live, REGISTRY, a))
    ensures DefinitionsReplay(live) ==> NoPins(RebuildAll(live, REGISTRY, a))
  {
    AfterRebuilds(live, REGISTRY, a);
    assert REGISTRY[2] == InternalControlVersions && REGISTRY[3] == EvidenceArtifactVersions;
    assert ControlOccurrences !in REGISTRY[2..] && ControlOccurrences !in REGISTRY[3..];
    DamagedIsLiveIff(live, DefinitionsReplay(live), true);
  }

  /** One more rebuild of the occurrences afterwards repairs whatever the registry's order lost. */
  lemma OccurrencesLastRestores(live: World, names: seq<Projection>, a: Answers)
    requires Recoverable(live, a)
    ensures RebuildAll(live, names + [ControlOccurrences], a) == live
  {
    var all := names + [ControlOccurrences];
    AfterRebuilds(live, all, a);
    LeftBrokenAppend(all, InternalControlVersions, ControlOccurrences);
    LeftBrokenAppend(all, EvidenceArtifactVersions, ControlOccurrences);
    Undamaged(live);
  }

  /** The same events under any contents of the tables. */
  predicate SameLogs(w: World, live: World) {
    w.defs.log == live.defs.log && w.captures == live.captures && w.occs.log == live.occs.log
  }

  /** A rebuild of definitions or evidence restores its own table and leaves the other's alone. */
  lemma RestoresItsTable(live: World, w: World, a: Answers, p: Projection)
    requires Recoverable(live, a) && SameLogs(w, live) && DefinitionsReplay(live)
    requires p == InternalControlVersions || p == EvidenceArtifactVersions
    ensures SameLogs(AfterRebuild(w, p, a), live)
    ensures AfterRebuild(w, p, a).defs == if p == InternalControlVersions then live.defs else w.defs
    ensures AfterRebuild(w, p, a).evidence == if p == EvidenceArtifactVersions then live.evidence else w.evidence
  {
    RebuildSucceedsIff(live.defs, ByKey, a.definitions);
    CapturesRestored(live.captures, live.evidence, a.captures);
  }

  lemma ThreeRebuilds(w: World, p: Projection, q: Projection, r: Projection, a: Answers)
    ensures RebuildAll(w, [p, q, r], a) == AfterRebuild(AfterRebuild(AfterRebuild(w, p, a), q, a), r, a)
  {
    assert [p, q, r][..2] == [p, q] && [p, q][..1] == [p] && [p][..0] == [];
    assert RebuildAll(w, [p], a) == AfterRebuild(w, p, a);
    assert RebuildAll(w, [p, q], a) == AfterRebuild(RebuildAll(w, [p], a), q, a);
  }

  /**
   Whatever the tables have come to hold, rebuilding definitions and evidence first (in either order)
   and occurrences last brings back the state that the commands had left.
   */
  lemma RecoveryFromAnything(live: World, w: World, a: Answers, definitionsFirst: bool)
    requires Recoverable(live, a) && SameLogs(w, live) && DefinitionsReplay(live)
    ensures RebuildAll(w, if definitionsFirst then [InternalControlVersions, EvidenceArtifactVersions,
        ControlOccurrences]
                          else [EvidenceArtifactVersions, InternalControlVersions, ControlOccurrences], a) == live
  {
    var p := if definitionsFirst then InternalControlVersions else EvidenceArtifactVersions;
    var q := if definitionsFirst then EvidenceArtifactVersions else InternalControlVersions;
    ThreeRebuilds(w, p, q, ControlOccurrences, a);
    RestoresItsTable(live, w, a, p);
    RestoresItsTable(live, AfterRebuild(w, p, a), a, q);
    OccurrencesRestored(live.occs, RefsOf(live), a.occurrences);
  }

  /******* The loop over the registry *******/

  class Database {
    var world: World

    constructor (w: World)
      ensures world == w
    {
      world := w;
    }

    method RebuildDefinitions(events: seq<VersionEvent>) returns (ok: bool)
      modifies this
      ensures ok == RebuildRows(ByKey, events).Success?
      ensures ok ==> world == old(world).(defs := old(world).defs.(versions := RebuildRows(ByKey, events).value),
                                          occs := old(world).occs.(rows := ClearPins(old(world).occs.rows)))
      ensures !ok ==> world == old(world)
    {
      var table := new ControlDefinitionTable();
      var error := table.Rebuild(events);
      ok := error.None?;
      if ok {
        world := world.(defs := world.defs.(versions := table.versions),
                        occs := world.occs.(rows := ClearPins(world.occs.rows)));
      }
    }

    method RebuildEvidence(events: seq<CaptureEvent>) returns (ok: bool)
      modifies this
      ensures ok == ReplayCaptures(events).Success?
      ensures ok ==> world == old(world).(evidence := ReplayCaptures(events).value,
                                          occs := old(world).occs.(rows := ClearLinks(old(world).occs.rows)))
      ensures !ok ==> world == old(world)
    {
      var rows: map<Id, EvidenceRow> := map[];
      for i := 0 to |events|
        invariant ReplayCaptures(events[..i]) == Success(rows)
      {
        assert events[..i + 1][..i] == events[..i];
        if !CaptureAccepted(rows, events[i]) {
          CapturesStayFailed(events, i + 1);
          return false;
        }
        rows := Project(ProjectCaptured, rows, events[i]);
      }
      assert events[..|events|] == events;
      world := world.(evidence := rows, occs := world.occs.(rows := ClearLinks(world.occs.rows)));
      ok := true;
    }

    method RebuildOccurrences(events: seq<Occurrences.OccurrenceEvent>) returns (ok: bool)
      modifies this
      ensures ok == ReplayOccurrences(events, RefsOf(old(world))).Success?
      ensures ok ==> world == old(world).(occs := old(world).occs.(rows := ReplayOccurrences(events,
          RefsOf(old(world))).value))
      ensures !ok ==> world == old(world)
    {
      var refs := RefsOf(world);
      var rows: map<Id, Occurrences.Occurrence> := map[];
      for i := 0 to |events|
        invariant ReplayOccurrences(events[..i], refs) == Success(rows)
      {
        assert events[..i + 1][..i] == events[..i];
        if !Occurrences.Accepts(rows, refs, events[i]) {
          OccurrencesStayFailed(events, refs, i + 1);
          return false;
        }
        rows := Project(Occurrences.ProjectOccurrence, rows, events[i]);
      }
      assert events[..|events|] == events;
      world := world.(occs := world.occs.(rows := rows));
      ok := true;
    }

    method RebuildOne(p: Projection, a: Answers) returns (ok: bool)
      modifies this
      ensures ok == Rebuild(old(world), p, a).Success?
      ensures world == AfterRebuild(old(world), p, a)
    {
      match p {
        case InternalControlVersions => ok := RebuildDefinitions(a.definitions);
        case EvidenceArtifactVersions => ok := RebuildEvidence(a.captures);
        case ControlOccurrences => ok := RebuildOccurrences(a.occurrences);
        case _ => ok := p !in a.failing;
      }
    }

    /** _rebuild_all_projections. */
    method RebuildAllProjections(names: seq<Projection>, a: Answers)
      returns (rebuilt: seq<Projection>, errors: seq<Projection>)
      modifies this
      ensures world == RebuildAll(old(world), names, a)
      ensures rebuilt == Reported(old(world), names, a, true)
      ensures errors == Reported(old(world), names, a, false)
    {
      rebuilt, errors := [], [];
      for i := 0 to |names|
        invariant world == RebuildAll(old(world), names[..i], a)
        invariant rebuilt == Reported(old(world), names[..i], a, true)
        invariant errors == Reported(old(world), names[..i], a, false)
      {
        assert names[..i + 1][..i] == names[..i];
        var ok := RebuildOne(names[i], a);
        if ok {
          rebuilt := rebuilt + [names[i]];
        } else {
          errors := errors + [names[i]];
        }
      }
      assert names[..|names|] == names;
    }
  }

  lemma {:induction false} CapturesStayFailed(events: seq<CaptureEvent>, k: nat)
    requires k <= |events| && ReplayCaptures(events[..k]).Failure?
    ensures ReplayCaptures(events).Failure?
    decreases |events|
  {
    if k < |events| {
      var front := events[..|events| - 1];
      assert front[..k] == events[..k];
      CapturesStayFailed(front, k);
    } else {
      assert events[..k] == events;
    }
  }

  lemma {:induction false} OccurrencesStayFailed(events: seq<Occurrences.OccurrenceEvent>, refs: Occurrences.Refs,
      k: nat)
    requires k <= |events| && ReplayOccurrences(events[..k], refs).Failure?
    ensures ReplayOccurrences(events, refs).Failure?
    decreases |events|
  {
    if k < |events| {
      var front := events[..|events| - 1];
      assert front[..k] == events[..k];
      OccurrencesStayFailed(front, refs, k);
    } else {
      assert events[..k] == events;
    }
  }

  /** Which rebuilds fail in a reachable state. */
  ghost predicate Fails(live: World, p: Projection, a: Answers) {
    match p
    case ControlOccurrences => false
    case EvidenceArtifactVersions => false
    case InternalControlVersions => !DefinitionsReplay(live)
    case _ => p in a.failing
  }

  lemma FailsIff(live: World, a: Answers, pins: bool, links: bool, p: Projection)
    requires Recoverable(live, a)
    ensures Rebuild(Damaged(live, pins, links), p, a).Failure? <==> Fails(live, p, a)
  {
    match p {
      case ControlOccurrences => OccurrencesRestored(live.occs, RefsOf(live), a.occurrences);
      case InternalControlVersions => RebuildSucceedsIff(live.defs, ByKey, a.definitions);
      case EvidenceArtifactVersions => CapturesRestored(live.captures, live.evidence, a.captures);
      case _ =>
    }
  }

  ghost function Keep(names: seq<Projection>, live: World, a: Answers, fails: bool): seq<Projection> {
    if names == [] then []
    else
      var n := |names| - 1;
      Keep(names[..n], live, a, fails) + if Fails(live, names[n], a) == fails then [names[n]] else []
  }

  /** What is reported: losing pins and links is not an error, so the registry's order reports none of it. */
  lemma {:induction false} ReportedExactly(live: World, names: seq<Projection>, a: Answers, ok: bool)
    requires Recoverable(live, a)
    ensures Reported(live, names, a, ok) == Keep(names, live, a, !ok)
  {
    if names != [] {
      var n := |names| - 1;
      ReportedExactly(live, names[..n], a, ok);
      AfterRebuilds(live, names[..n], a);
      FailsIff(live, a,
        DefinitionsReplay(live) && LeftBroken(names[..n], InternalControlVersions, ControlOccurrences),
        LeftBroken(names[..n], EvidenceArtifactVersions, ControlOccurrences), names[n]);
    }
  }
}
