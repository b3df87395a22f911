/**
 The database-backed job queue (app/jobs.py): claiming by a guarded update, reclaiming of stale
 claims, and retries with exponential backoff, interleaved over any number of workers.
 */
module Jobs {
  import opened Common

  const STALE_RUNNING_THRESHOLD := 120
  const BACKOFF_BASE := 5

  type WorkerId = nat

  datatype Status = Pending | Running | Succeeded | Failed

  datatype Job = Job(
    status: Status, attempts: nat, maxAttempts: int, availableAt: Time,
    claimedBy: Option<WorkerId>, claimedAt: Option<Time>, createdAt: Time, key: Option<Key>)

  function Pow2(n: nat): (p: nat)
    ensures p >= 1
  {
    if n == 0 then 1 else 2 * Pow2(n - 1)
  }

  /** Seconds to wait after failed attempt number `attempts`. */
  function Backoff(attempts: nat): int
    requires attempts >= 1
  {
    BACKOFF_BASE * Pow2(attempts - 1)
  }

  /** _candidate_predicate. */
  predicate Candidate(job: Job, now: Time) {
    || (job.status == Pending && job.availableAt <= now)
    || (job.status == Running && job.claimedAt.Some? && job.claimedAt.value <= now - STALE_RUNNING_THRESHOLD)
  }

  function ClaimRow(job: Job, w: WorkerId, now: Time): Job {
    job.(status := Running, claimedBy := Some(w), claimedAt := Some(now))
  }

  /** What run_job writes; `seen` is the attempts value the worker loaded with its claim. */
  function FinishRow(job: Job, seen: nat, ok: bool, now: Time): Job {
    var attempts := seen + 1;
    if ok then job.(attempts := attempts, status := Succeeded)
    else if attempts >= job.maxAttempts then job.(attempts := attempts, status := Failed)
    else job.(attempts := attempts, status := Pending, availableAt := now + Backoff(attempts))
  }

  function NewJob(maxAttempts: int, now: Time, key: Option<Key>): Job {
    Job(Pending, 0, maxAttempts, now, None, None, now, key)
  }

  /******* The machine *******/

  /** A worker that is not in the table is idle. */
  datatype Worker =
    | Picked(job: Id, at: Time)               // selected a candidate, at clock reading `at`
    | Holding(job: Id, at: Time, seen: nat)   // its claim is committed, run_job is under way

  /** History of a job: when its runs completed, and whether claim_specific_job ever claimed it. */
  datatype Past = Past(finishes: seq<Time>, direct: bool)

  datatype World = World(now: Time, jobs: map<Id, Job>, past: map<Id, Past>, workers: map<WorkerId, Worker>)

  datatype Action =
    | Tick(now: Time)
    | Enqueue(job: Id, maxAttempts: int, key: Option<Key>)
    | Pick(w: WorkerId, job: Id, at: Time)
    | Claim(w: WorkerId)
    | ClaimSpecific(w: WorkerId, job: Id, at: Time)
    | Finish(w: WorkerId, ok: bool, at: Time)
    | Crash(w: WorkerId)

  predicate KeyInUse(jobs: map<Id, Job>, key: Option<Key>) {
    key.Some? && exists j | j in jobs :: jobs[j].key == key
  }

  /** The oldest candidate, as `ORDER BY created_at LIMIT 1` may return it. */
  ghost predicate Oldest(jobs: map<Id, Job>, job: Id, at: Time) {
    job in jobs && Candidate(jobs[job], at) &&
    forall j :: j in jobs && Candidate(jobs[j], at) ==> jobs[job].createdAt <= jobs[j].createdAt
  }

  /** When an action can happen. Clock readings are from the past, a worker's own in order. */
  ghost predicate Enabled(s: World, a: Action) {
    match a
    case Tick(now) => s.now <= now
    case Enqueue(job, _, _) => job !in s.jobs
    case Pick(w, job, at) => w !in s.workers && at <= s.now && Oldest(s.jobs, job, at)
    case Claim(w) => w in s.workers && s.workers[w].Picked?
    case ClaimSpecific(w, job, at) => w !in s.workers && at <= s.now
    case Finish(w, ok, at) => w in s.workers && s.workers[w].Holding? && s.workers[w].at <= at <= s.now
    case Crash(w) => w in s.workers
  }

  function Claimed(s: World, w: WorkerId, job: Id, at: Time, direct: bool): World
    requires job in s.jobs && job in s.past
  {
    World(s.now, s.jobs[job := ClaimRow(s.jobs[job], w, at)],
          s.past[job := s.past[job].(direct := s.past[job].direct || direct)],
          s.workers[w := Holding(job, at, s.jobs[job].attempts)])
  }

  ghost function Do(s: World, a: Action): World
    requires Enabled(s, a)
  {
    match a
    case Tick(now) => s.(now := now)
    case Enqueue(job, maxAttempts, key) =>
      if KeyInUse(s.jobs, key) then s
      else s.(jobs := s.jobs[job := NewJob(maxAttempts, s.now, key)], past := s.past[job := Past([], false)])
    case Pick(w, job, at) => s.(workers := s.workers[w := Picked(job, at)])
    case Claim(w) =>
      var job, at := s.workers[w].job, s.workers[w].at;
      if job in s.jobs && job in s.past && Candidate(s.jobs[job], at) then Claimed(s, w, job, at, false)
      else s.(workers := s.workers - {w})
    case ClaimSpecific(w, job, at) =>
      if job in s.jobs && job in s.past && s.jobs[job].status == Pending then Claimed(s, w, job, at, true) else s
    case Finish(w, ok, at) =>
      var job, seen := s.workers[w].job, s.workers[w].seen;
      if job in s.jobs && job in s.past then
        World(s.now, s.jobs[job := FinishRow(s.jobs[job], seen, ok, at)],
              s.past[job := s.past[job].(finishes := s.past[job].finishes + [at])], s.workers - {w})
      else s
    case Crash(w) => s.(workers := s.workers - {w})
  }

  function Init(now: Time): World {
    World(now, map[], map[], map[])
  }

  ghost predicate IsRun(run: seq<World>, actions: seq<Action>) {
    && |run| == |actions| + 1
    && (exists now :: run[0] == Init(now))
    && (forall i {:trigger Moves(run, actions, i)} :: 0 <= i < |actions| ==> Moves(run, actions, i))
  }

  ghost predicate Moves(run: seq<World>, actions: seq<Action>, i: int)
    requires 0 <= i < |actions| && i + 1 < |run|
  {
    Enabled(run[i], actions[i]) && run[i + 1] == Do(run[i], actions[i])
  }

  /** Every live worker finishes or crashes within the threshold of its own claim time. */
  ghost predicate Prompt(s: World) {
    forall w :: w in s.workers && s.workers[w].Holding? ==> s.now < s.workers[w].at + STALE_RUNNING_THRESHOLD
  }

  /******* The invariant *******/

  ghost predicate HolderOwns(s: World, w: WorkerId)
    requires w in s.workers
  {
    match s.workers[w]
    case Picked(_, at) => at <= s.now
    case Holding(job, at, seen) =>
      && job in s.jobs && at <= s.now
      && s.jobs[job].status == Running && s.jobs[job].claimedBy == Some(w) && s.jobs[job].claimedAt == Some(at)
      && s.jobs[job].attempts == seen
  }

  /** Consecutive completions of a job that was only claimed by claim_job respect the backoff. */
  ghost predicate Spaced(finishes: seq<Time>) {
    forall i :: 0 < i < |finishes| ==> finishes[i - 1] + Backoff(i) <= finishes[i]
  }

  ghost predicate JobInv(j: Job, p: Past, now: Time) {
    && j.attempts == |p.finishes|
    && (j.status in {Pending, Running} ==> j.attempts == 0 || j.attempts < j.maxAttempts)
    && (j.status in {Succeeded, Failed} ==> 1 <= j.attempts <= Max(1, j.maxAttempts))
    && (j.status == Failed ==> j.attempts >= j.maxAttempts)
    && (j.status == Running ==> j.claimedAt.Some? && j.claimedAt.value <= now)
    && (!p.direct ==> Spaced(p.finishes))
    && (j.status in {Pending, Running} && j.attempts > 0 ==>
          p.finishes[j.attempts - 1] + Backoff(j.attempts) <= j.availableAt)
    && (!p.direct && j.status == Running ==> j.availableAt <= j.claimedAt.value)
  }

  ghost predicate JobOk(s: World, j: Id)
    requires j in s.jobs
  {
    j in s.past && JobInv(s.jobs[j], s.past[j], s.now)
  }

  ghost predicate UniqueKeys(jobs: map<Id, Job>) {
    forall i, j :: i in jobs && j in jobs && i != j && jobs[i].key.Some? ==> jobs[i].key != jobs[j].key
  }

  ghost predicate Inv(s: World) {
    && (forall w {:trigger HolderOwns(s, w)} :: w in s.workers ==> HolderOwns(s, w))
    && (forall j {:trigger JobOk(s, j)} :: j in s.jobs ==> JobOk(s, j))
    && UniqueKeys(s.jobs)
  }

  /** A live holder of a job keeps the guarded update out exactly while its claim is younger than the threshold. */
  lemma StealIffStale(s: World, u: WorkerId, at: Time)
    requires Inv(s) && u in s.workers && s.workers[u].Holding?
    ensures s.workers[u].job in s.jobs
    ensures Candidate(s.jobs[s.workers[u].job], at) <==> s.workers[u].at + 120 <= at
  {
    assert HolderOwns(s, u);
  }

  lemma ClaimKeepsInv(s: World, w: WorkerId, job: Id, at: Time, direct: bool)
    requires Inv(s) && Prompt(s) && job in s.jobs && job in s.past && at <= s.now
    requires if direct then s.jobs[job].status == Pending else Candidate(s.jobs[job], at)
    requires w in s.workers ==> s.workers[w].Picked?
    ensures Inv(Claimed(s, w, job, at, direct))
  {
    var s' := Claimed(s, w, job, at, direct);
    assert JobOk(s, job);
    forall j | j in s'.jobs ensures JobOk(s', j) {
      assert JobOk(s, j);
    }
    forall u | u in s'.workers ensures HolderOwns(s', u) {
      if u != w {
        assert HolderOwns(s, u);
        if s.workers[u].Holding? && s.workers[u].job == job {
          StealIffStale(s, u, at);
        }
      }
    }
  }

  lemma SpacedAppend(finishes: seq<Time>, at: Time)
    requires Spaced(finishes)
    requires finishes != [] ==> finishes[|finishes| - 1] + Backoff(|finishes|) <= at
    ensures Spaced(finishes + [at])
  {
    var f := finishes + [at];
    forall i | 0 < i < |f| ensures f[i - 1] + Backoff(i) <= f[i] {
      if i < |finishes| {
        assert finishes[i - 1] + Backoff(i) <= finishes[i];
      }
    }
  }

  lemma FinishJobInv(j: Job, p: Past, now: Time, ok: bool, at: Time)
    requires JobInv(j, p, now) && j.status == Running && j.claimedAt.value <= at <= now
    ensures JobInv(FinishRow(j, j.attempts, ok, at), p.(finishes := p.finishes + [at]), now)
  {
    if !p.direct {
      SpacedAppend(p.finishes, at);
    }
  }

  lemma FinishKeepsInv(s: World, w: WorkerId, ok: bool, at: Time)
    requires Inv(s) && Enabled(s, Finish(w, ok, at))
    ensures Inv(Do(s, Finish(w, ok, at)))
  {
    assert HolderOwns(s, w);
    var s', job := Do(s, Finish(w, ok, at)), s.workers[w].job;
    assert JobOk(s, job);
    FinishJobInv(s.jobs[job], s.past[job], s.now, ok, at);
    forall j | j in s'.jobs ensures JobOk(s', j) {
      assert JobOk(s, j);
    }
    forall u | u in s'.workers ensures HolderOwns(s', u) {
      assert HolderOwns(s, u);
    }
  }

  lemma QuietStepKeepsInv(s: World, a: Action)
    requires Inv(s) && Enabled(s, a)
    requires a.Tick? || a.Enqueue? || a.Pick? || a.Crash?
    ensures Inv(Do(s, a))
  {
    var s' := Do(s, a);
    forall j | j in s'.jobs ensures JobOk(s', j) {
      assert j in s.jobs ==> JobOk(s, j);
    }
    forall u | u in s'.workers ensures HolderOwns(s', u) {
      assert u in s.workers ==> HolderOwns(s, u);
    }
  }

  lemma DoKeepsInv(s: World, a: Action)
    requires Inv(s) && Prompt(s) && Enabled(s, a)
    ensures Inv(Do(s, a))
  {
    match a {
      case Claim(w) =>
        assert HolderOwns(s, w);
        var job, at := s.workers[w].job, s.workers[w].at;
        if job in s.jobs && job in s.past && Candidate(s.jobs[job], at) {
          ClaimKeepsInv(s, w, job, at, false);
        } else {
          QuietStepKeepsInv(s, Crash(w));
        }
      case ClaimSpecific(w, job, at) =>
        if job in s.jobs && job in s.past && s.jobs[job].status == Pending {
          ClaimKeepsInv(s, w, job, at, true);
        }
      case Finish(w, ok, at) => FinishKeepsInv(s, w, ok, at);
      case _ => QuietStepKeepsInv(s, a);
    }
  }

  ghost predicate PromptRun(run: seq<World>) {
    forall i :: 0 <= i < |run| ==> Prompt(run[i])
  }

  lemma {:induction false} RunInv(run: seq<World>, actions: seq<Action>, i: nat)
    requires IsRun(run, actions) && PromptRun(run) && i < |run|
    ensures Inv(run[i])
  {
    if i > 0 {
      RunInv(run, actions, i - 1);
      assert Moves(run, actions, i - 1);
      DoKeepsInv(run[i - 1], actions[i - 1]);
    }
  }

  /******* Guarantees of every prompt run *******/

  /** No two live workers ever hold the same job. */
  lemma Exclusive(run: seq<World>, actions: seq<Action>, i: nat, w: WorkerId, u: WorkerId)
    requires IsRun(run, actions) && PromptRun(run) && i < |run|
    requires w in run[i].workers && run[i].workers[w].Holding?
    requires u in run[i].workers && run[i].workers[u].Holding?
    requires run[i].workers[w].job == run[i].workers[u].job
    ensures w == u
  {
    RunInv(run, actions, i);
    assert HolderOwns(run[i], w) && HolderOwns(run[i], u);
  }

  lemma DoKeepsTerminal(s: World, a: Action, j: Id)
    requires Inv(s) && Enabled(s, a) && j in s.jobs && s.jobs[j].status in {Succeeded, Failed}
    ensures j in Do(s, a).jobs && Do(s, a).jobs[j] == s.jobs[j]
  {
    if a.Finish? {
      assert HolderOwns(s, a.w);
    }
  }

  /** Succeeded and failed are absorbing: the row never changes again. */
  lemma {:induction false} TerminalAbsorbing(run: seq<World>, actions: seq<Action>, i: nat, k: nat, j: Id)
    requires IsRun(run, actions) && PromptRun(run) && i <= k < |run|
    requires j in run[i].jobs && run[i].jobs[j].status in {Succeeded, Failed}
    ensures j in run[k].jobs && run[k].jobs[j] == run[i].jobs[j]
    decreases k
  {
    if i < k {
      TerminalAbsorbing(run, actions, i, k - 1, j);
      RunInv(run, actions, k - 1);
      assert Moves(run, actions, k - 1);
      DoKeepsTerminal(run[k - 1], actions[k - 1], j);
    }
  }

  /** A claim whose worker crashed can be taken again once it is old enough. */
  lemma StaleClaimCanBeTaken(s: World, j: Id, w: WorkerId)
    requires Inv(s) && Prompt(s) && j in s.jobs && s.jobs[j].status == Running
    requires s.jobs[j].claimedAt.Some? && s.jobs[j].claimedAt.value + 120 <= s.now
    requires w in s.workers && s.workers[w] == Picked(j, s.now)
    ensures var s' := Do(s, Claim(w)); w in s'.workers && s'.workers[w] == Holding(j, s.now, s.jobs[j].attempts)
    ensures Candidate(s.jobs[j], s.now)
    ensures forall u :: u in s.workers && s.workers[u].Holding? ==> s.workers[u].job != j
  {
    assert JobOk(s, j);
    forall u | u in s.workers && s.workers[u].Holding? ensures s.workers[u].job != j {
      StealIffStale(s, u, s.now);
    }
  }

  /** attempts counts the completed runs, and never exceeds max_attempts (or 1, if that is smaller). */
  lemma AttemptsCountRuns(run: seq<World>, actions: seq<Action>, i: nat, j: Id)
    requires IsRun(run, actions) && PromptRun(run) && i < |run| && j in run[i].jobs
    ensures j in run[i].past
    ensures run[i].jobs[j].attempts == |run[i].past[j].finishes|
    ensures run[i].jobs[j].attempts <= Max(1, run[i].jobs[j].maxAttempts)
    ensures run[i].jobs[j].status == Failed ==> run[i].jobs[j].attempts >= run[i].jobs[j].maxAttempts
  {
    RunInv(run, actions, i);
    assert JobOk(run[i], j);
  }

  lemma {:induction false} SpacedTotal(finishes: seq<Time>)
    requires Spaced(finishes) && finishes != []
    ensures finishes[0] + BACKOFF_BASE * (Pow2(|finishes| - 1) - 1) <= finishes[|finishes| - 1]
  {
    var n := |finishes| - 1;
    if n > 0 {
      assert finishes[..n] != [] && finishes[..n][0] == finishes[0] && finishes[..n][n - 1] == finishes[n - 1];
      assert Spaced(finishes[..n]) by {
        forall i | 0 < i < n ensures finishes[..n][i - 1] + Backoff(i) <= finishes[..n][i] {
          assert finishes[i - 1] + Backoff(i) <= finishes[i];
        }
      }
      SpacedTotal(finishes[..n]);
      assert finishes[n - 1] + Backoff(n) <= finishes[n];
      assert Pow2(n) == 2 * Pow2(n - 1);
    }
  }

  /**
   A job claimed only through claim_job fails for good no sooner than 5 * (2^(max_attempts - 1) - 1)
   seconds after its first failure.
   */
  lemma FailsNoSooner(run: seq<World>, actions: seq<Action>, i: nat, j: Id)
    requires IsRun(run, actions) && PromptRun(run) && i < |run|
    requires j in run[i].jobs && run[i].jobs[j].status == Failed && run[i].jobs[j].maxAttempts >= 1
    requires j in run[i].past && !run[i].past[j].direct
    ensures var finishes := run[i].past[j].finishes;
      && |finishes| == run[i].jobs[j].maxAttempts
      && finishes[0] + 5 * (Pow2(run[i].jobs[j].maxAttempts - 1) - 1) <= finishes[|finishes| - 1]
  {
    RunInv(run, actions, i);
    assert JobOk(run[i], j);
    SpacedTotal(run[i].past[j].finishes);
  }

  /** An idempotency key names at most one job. */
  lemma KeysNameOneJob(run: seq<World>, actions: seq<Action>, i: nat, j: Id, k: Id)
    requires IsRun(run, actions) && PromptRun(run) && i < |run| && j in run[i].jobs && k in run[i].jobs
    requires run[i].jobs[j].key.Some? && run[i].jobs[j].key == run[i].jobs[k].key
    ensures j == k
  {
    RunInv(run, actions, i);
  }

  /******* What an idle worker gets *******/

  /** The job waits for a worker, or its claim is two minutes old. */
  ghost predicate Claimable(jobs: map<Id, Job>, j: Id, now: Time) {
    j in jobs &&
    ((jobs[j].status == Pending && jobs[j].availableAt <= now) ||
     (jobs[j].status == Running && jobs[j].claimedAt.Some? && jobs[j].claimedAt.value + 120 <= now))
  }

  lemma {:induction false} OldestExists(jobs: map<Id, Job>, among: set<Id>) returns (job: Id)
    requires among != {} && among <= jobs.Keys
    ensures job in among && forall j :: j in among ==> jobs[job].createdAt <= jobs[j].createdAt
    decreases |among|
  {
    var one :| one in among;
    var rest := among - {one};
    job := one;
    if rest != {} {
      var other := OldestExists(jobs, rest);
      job := if jobs[other].createdAt < jobs[one].createdAt then other else one;
    }
    forall j | j in among ensures jobs[job].createdAt <= jobs[j].createdAt {
      assert j == one || j in rest;
    }
  }

  /** The worker selects the job and its guarded update goes through. */
  ghost predicate PicksAndClaims(s: World, w: WorkerId, job: Id) {
    && job in s.jobs
    && Enabled(s, Pick(w, job, s.now)) && Enabled(Do(s, Pick(w, job, s.now)), Claim(w))
    && var s' := Do(Do(s, Pick(w, job, s.now)), Claim(w));
       w in s'.workers && s'.workers[w] == Holding(job, s.now, s.jobs[job].attempts) && job in s'.jobs &&
       s'.jobs[job] == s.jobs[job].(status := Running, claimedBy := Some(w), claimedAt := Some(s.now))
  }

  /**
   The jobs that an idle worker can come to hold are exactly those that wait or are stale and of which no
   waiting or stale one is older.
   */
  lemma PicksAndClaimsIff(s: World, w: WorkerId, job: Id)
    requires Inv(s) && w !in s.workers
    ensures PicksAndClaims(s, w, job) <==>
      Claimable(s.jobs, job, s.now) &&
      forall j :: Claimable(s.jobs, j, s.now) ==> s.jobs[job].createdAt <= s.jobs[j].createdAt
  {
    assert forall j :: j in s.jobs ==> (Claimable(s.jobs, j, s.now) <==> Candidate(s.jobs[j], s.now));
    assert job in s.jobs ==> JobOk(s, job);
  }

  /** While any job waits or is stale, an idle worker comes to hold one. */
  lemma IdleWorkerClaims(s: World, w: WorkerId, j: Id) returns (job: Id)
    requires Inv(s) && w !in s.workers && Claimable(s.jobs, j, s.now)
    ensures PicksAndClaims(s, w, job)
  {
    var all := set i | i in s.jobs && Claimable(s.jobs, i, s.now);
    assert j in all;
    job := OldestExists(s.jobs, all);
    PicksAndClaimsIff(s, w, job);
  }

  /** A job that was just enqueued is what an idle worker takes, unless an older one waits or is stale. */
  lemma NewJobIsClaimed(s: World, job: Id, maxAttempts: int, key: Option<Key>, w: WorkerId)
    requires Inv(s) && job !in s.jobs && w !in s.workers
    requires key.None? || forall j :: j in s.jobs ==> s.jobs[j].key != key
    ensures Enabled(s, Enqueue(job, maxAttempts, key))
    ensures var s' := Do(s, Enqueue(job, maxAttempts, key));
      && Claimable(s'.jobs, job, s.now) && s'.jobs[job].attempts == 0 && s'.jobs[job].maxAttempts == maxAttempts
      && s'.jobs[job].key == key
      && (PicksAndClaims(s', w, job) <==> forall j :: Claimable(s.jobs, j, s.now) ==> s.now <= s.jobs[j].createdAt)
  {
    var s' := Do(s, Enqueue(job, maxAttempts, key));
    QuietStepKeepsInv(s, Enqueue(job, maxAttempts, key));
    PicksAndClaimsIff(s', w, job);
    assert forall j :: j in s.jobs ==> s'.jobs[j] == s.jobs[j];
    assert forall j :: j in s.jobs ==> (Claimable(s.jobs, j, s.now) <==> Claimable(s'.jobs, j, s.now));
  }

  /**
   What the end of a run leaves. A failed attempt that is not the last one puts the job back, and it can be
   claimed from 5 * 2^(attempts - 1) seconds after the failure on, and not before.
   */
  lemma RunEnds(s: World, u: WorkerId, ok: bool, at: Time)
    requires Inv(s) && Enabled(s, Finish(u, ok, at))
    ensures s.workers[u].job in s.jobs
    ensures var j := s.workers[u].job; var s' := Do(s, Finish(u, ok, at)); var n := s.jobs[j].attempts + 1;
      && j in s'.jobs && s'.jobs[j].attempts == n && u !in s'.workers
      && (ok ==> s'.jobs[j].status == Succeeded)
      && (!ok && n >= s.jobs[j].maxAttempts ==> s'.jobs[j].status == Failed)
      && (!ok && n < s.jobs[j].maxAttempts ==> s'.jobs[j].status == Pending)
      && (forall t :: Claimable(s'.jobs, j, t) <==>
           !ok && n < s.jobs[j].maxAttempts && at + 5 * Pow2(n - 1) <= t)
  {
    assert HolderOwns(s, u);
    assert JobOk(s, s.workers[u].job);
  }

  /** A selected job is claimed exactly if, at the clock reading of its selection, it still waits or is stale. */
  lemma ClaimIff(s: World, w: WorkerId)
    requires Inv(s) && w in s.workers && s.workers[w].Picked?
    ensures w in Do(s, Claim(w)).workers <==> Claimable(s.jobs, s.workers[w].job, s.workers[w].at)
  {
    var j := s.workers[w].job;
    assert j in s.jobs ==> JobOk(s, j);
  }

  /** claim_specific_job takes a pending job, whether or not its backoff is over, and no other. */
  lemma ClaimSpecificIff(s: World, w: WorkerId, job: Id, at: Time)
    requires Inv(s) && Enabled(s, ClaimSpecific(w, job, at))
    ensures var s' := Do(s, ClaimSpecific(w, job, at));
      && (w in s'.workers <==> job in s.jobs && s.jobs[job].status == Pending)
      && (w in s'.workers ==>
            && job in s'.jobs && s'.workers[w] == Holding(job, at, s.jobs[job].attempts)
            && s'.jobs[job].status == Running && s'.jobs[job].claimedBy == Some(w)
            && s'.jobs[job].claimedAt == Some(at))
  {
    assert job in s.jobs ==> JobOk(s, job);
  }

  /******* Why promptness is needed *******/

  /**
   From every state in which a live worker's claim has grown old: another worker takes the job, the
   first one is not stopped, and what the second wrote is overwritten when the first one finishes.
   */
  lemma LateWorkerOverwrites(s: World, u: WorkerId, w: WorkerId)
    requires Inv(s) && u in s.workers && s.workers[u].Holding? && w != u
    requires s.workers[u].at + 120 <= s.now
    requires w in s.workers && s.workers[w] == Picked(s.workers[u].job, s.now)
    ensures var j := s.workers[u].job; var both := Do(s, Claim(w));
      && w in both.workers && u in both.workers
      && both.workers[w].Holding? && both.workers[w].job == j && both.workers[u] == s.workers[u]
      && Enabled(both, Finish(w, true, s.now))
      && var done := Do(both, Finish(w, true, s.now));
      && j in done.jobs && done.jobs[j].status == Succeeded
      && Enabled(done, Finish(u, false, s.now))
      && j in Do(done, Finish(u, false, s.now)).jobs
      && Do(done, Finish(u, false, s.now)).jobs[j].status != Succeeded
  {
    StealIffStale(s, u, s.now);
    assert JobOk(s, s.workers[u].job);
    assert HolderOwns(s, u);
  }

  /******* The queue *******/

  class JobQueue {
    var jobs: map<Id, Job>

    constructor ()
      ensures jobs == map[]
    {
      jobs := map[];
    }

    /** enqueue_job: an idempotency key already in use returns the existing job. */
    method EnqueueJob(id: Id, maxAttempts: int, now: Time, key: Option<Key>) returns (job: Id)
      requires id !in jobs
      modifies this
      ensures job in jobs && (key.Some? ==> jobs[job].key == key)
      ensures if key.Some? && exists j :: j in old(jobs) && old(jobs)[j].key == key then jobs == old(jobs)
              else job == id && jobs == old(jobs)[id := Job(Pending, 0, maxAttempts, now, None, None, now, key)]
    {
      if KeyInUse(jobs, key) {
        job :| job in jobs && jobs[job].key == key;
        return;
      }
      jobs := jobs[id := NewJob(maxAttempts, now, key)];
      job := id;
    }

    /** _try_claim: the update repeats the whole candidate predicate. */
    method TryClaim(id: Id, w: WorkerId, now: Time) returns (claimed: bool)
      modifies this
      ensures claimed <==> Claimable(old(jobs), id, now)
      ensures jobs.Keys == old(jobs).Keys && forall j :: j in jobs && j != id ==> jobs[j] == old(jobs)[j]
      ensures id in jobs ==> jobs[id] == if !claimed then old(jobs)[id]
        else old(jobs)[id].(status := Running, claimedBy := Some(w), claimedAt := Some(now))
    {
      claimed := id in jobs && Candidate(jobs[id], now);
      if claimed {
        jobs := jobs[id := jobs[id].(status := Running, claimedBy := Some(w), claimedAt := Some(now))];
      }
    }

    method SelectCandidate(now: Time) returns (found: Option<Id>)
      ensures found.Some? <==> exists j :: Claimable(jobs, j, now)
      ensures found.Some? ==> Claimable(jobs, found.value, now)
      ensures found.Some? ==>
        forall j :: Claimable(jobs, j, now) ==> jobs[found.value].createdAt <= jobs[j].createdAt
    {
      found := None;
      var todo := jobs.Keys;
      while todo != {}
        invariant todo <= jobs.Keys
        invariant found.None? ==> forall j :: j in jobs && j !in todo ==> !Candidate(jobs[j], now)
        invariant found.Some? ==> found.value in jobs && Candidate(jobs[found.value], now)
        invariant found.Some? ==> forall j :: j in jobs && j !in todo && Candidate(jobs[j], now) ==>
          jobs[found.value].createdAt <= jobs[j].createdAt
        decreases |todo|
      {
        var j :| j in todo;
        if Candidate(jobs[j], now) && (found.None? || jobs[j].createdAt < jobs[found.value].createdAt) {
          found := Some(j);
        }
        todo := todo - {j};
      }
      assert forall j :: j in jobs ==> (Claimable(jobs, j, now) <==> Candidate(jobs[j], now));
    }

    /** claim_job, when no other worker comes between its select and its update. */
    method ClaimJob(w: WorkerId, now: Time) returns (job: Option<Id>)
      modifies this
      ensures job.Some? <==> exists j :: Claimable(old(jobs), j, now)
      ensures job.None? ==> jobs == old(jobs)
      ensures job.Some? ==> Claimable(old(jobs), job.value, now)
      ensures job.Some? ==>
        forall j :: Claimable(old(jobs), j, now) ==> old(jobs)[job.value].createdAt <= old(jobs)[j].createdAt
      ensures job.Some? ==>
        jobs == old(jobs)[job.value :=
          old(jobs)[job.value].(status := Running, claimedBy := Some(w), claimedAt := Some(now))]
    {
      job := SelectCandidate(now);
      if job.Some? {
        var claimed := TryClaim(job.value, w, now);
      }
    }

    method ClaimSpecificJob(id: Id, w: WorkerId, now: Time) returns (claimed: bool)
      modifies this
      ensures claimed <==> id in old(jobs) && old(jobs)[id].status == Pending
      ensures !claimed ==> jobs == old(jobs)
      ensures claimed ==> jobs == old(jobs)[id :=
        old(jobs)[id].(status := Running, claimedBy := Some(w), claimedAt := Some(now))]
    {
      claimed := id in jobs && jobs[id].status == Pending;
      if claimed {
        jobs := jobs[id := jobs[id].(status := Running, claimedBy := Some(w), claimedAt := Some(now))];
      }
    }

    /** run_job: `ok` is whether the handler returned, `seen` the attempts loaded with the claim. */
    method RunJob(id: Id, seen: nat, ok: bool, now: Time)
      requires id in jobs
      modifies this
      ensures jobs == old(jobs)[id := FinishRow(old(jobs)[id], seen, ok, now)]
      ensures jobs[id].attempts == seen + 1
      ensures jobs[id].status ==
        if ok then Succeeded else if seen + 1 >= old(jobs)[id].maxAttempts then Failed else Pending
      ensures jobs[id].availableAt ==
        if jobs[id].status == Pending then now + 5 * Pow2(seen) else old(jobs)[id].availableAt
    {
      var job := jobs[id].(attempts := seen + 1);
      if ok {
        job := job.(status := Succeeded);
      } else if job.attempts >= job.maxAttempts {
        job := job.(status := Failed);
      } else {
        job := job.(status := Pending);
        var backoff := BACKOFF_BASE * Pow2(job.attempts - 1);
        job := job.(availableAt := now + backoff);
      }
      jobs := jobs[id := job];
    }
  }
}
