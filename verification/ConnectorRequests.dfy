/**
 Applies of upgrade plans that overlap (app/connector_lifecycle.py): each compares the instance it has
 loaded with its plan, and writes the new version later, without looking at the stored version again.
 */
module ConnectorRequests {
  import opened Common
  import opened Connectors

  type RequestId = nat

  /** An apply that has passed its checks when the audit trail was `checkedAt` records long. */
  datatype Request = Request(plan: Plan, with: Manifest, allowed: bool, checkedAt: nat)

  /** `checks` is a history variable: how long the trail was when each record's apply was checked. */
  datatype Shared = Shared(
    instance: Instance, plans: set<Plan>, audit: seq<Audit>, checks: seq<nat>, open: map<RequestId, Request>)

  datatype Step =
    | Make(from: Manifest, to: Manifest)
    | Check(r: RequestId, plan: Plan, with: Manifest, allowDowngrade: bool)
    | Write(r: RequestId)
    | Drop(r: RequestId)

  function Next(s: Shared, step: Step): Shared {
    match step
    case Make(from, to) =>
      var p := MakePlan(s.instance, from, to);
      if p.Success? then s.(plans := s.plans + {p.value}) else s
    case Check(r, p, m, allow) =>
      if r !in s.open && p in s.plans && Apply(s.instance, p, m, allow).Success?
      then s.(open := s.open[r := Request(p, m, allow, |s.audit|)]) else s
    case Write(r) =>
      if r !in s.open then s
      else
        var q := s.open[r];
        s.(instance := s.instance.(version := q.with.version),
           audit := s.audit + [RecordOf(q)],
           checks := s.checks + [q.checkedAt], open := s.open - {r})
    case Drop(r) => s.(open := s.open - {r})
  }

  function Run(start: Instance, steps: seq<Step>): Shared {
    if steps == [] then Shared(start, {}, [], [], map[])
    else Next(Run(start, steps[..|steps| - 1]), steps[|steps| - 1])
  }

  /******* What every step keeps *******/

  /** The apply of record `k` found the version that its plan starts from. */
  ghost predicate CheckedAt(start: Instance, audit: seq<Audit>, checks: seq<nat>, k: int)
    requires 0 <= k < |audit| == |checks|
  {
    checks[k] <= k && AuditOk(audit[k]) && VersionAfter(start, audit[..checks[k]]) == audit[k].plan.fromVersion
  }

  ghost predicate RequestOk(start: Instance, s: Shared, r: RequestId)
    requires r in s.open
  {
    var q := s.open[r];
    && PlanOk(q.plan) && Reviewed(q.plan, q.with) && (q.plan.direction == Downgrade ==> q.allowed)
    && q.checkedAt <= |s.audit| && VersionAfter(start, s.audit[..q.checkedAt]) == q.plan.fromVersion
  }

  ghost predicate AllChecked(start: Instance, audit: seq<Audit>, checks: seq<nat>) {
    |audit| == |checks| && forall k {:trigger CheckedAt(start, audit, checks, k)} ::
      0 <= k < |audit| ==> CheckedAt(start, audit, checks, k)
  }

  ghost predicate SharedInv(start: Instance, s: Shared) {
    && s.instance == Instance(start.connector, VersionAfter(start, s.audit))
    && PlansOk(s.plans) && AllChecked(start, s.audit, s.checks)
    && (forall r {:trigger RequestOk(start, s, r)} :: r in s.open ==> RequestOk(start, s, r))
  }

  function RecordOf(q: Request): Audit {
    Audit(q.plan.direction == Downgrade, q.plan, q.with, q.allowed)
  }

  lemma WriteKeepsChecks(start: Instance, audit: seq<Audit>, checks: seq<nat>, a: Audit, c: nat)
    requires AllChecked(start, audit, checks) && AuditOk(a) && c <= |audit|
    requires VersionAfter(start, audit[..c]) == a.plan.fromVersion
    ensures AllChecked(start, audit + [a], checks + [c])
  {
    var more, cs := audit + [a], checks + [c];
    forall k | 0 <= k < |more| ensures CheckedAt(start, more, cs, k) {
      if k < |audit| {
        assert CheckedAt(start, audit, checks, k);
      }
      assert more[..cs[k]] == audit[..cs[k]];
    }
  }

  lemma WriteKeepsInv(start: Instance, s: Shared, r: RequestId)
    requires SharedInv(start, s) && r in s.open
    ensures SharedInv(start, Next(s, Write(r)))
  {
    var q, t := s.open[r], Next(s, Write(r));
    assert RequestOk(start, s, r);
    WriteKeepsChecks(start, s.audit, s.checks, RecordOf(q), q.checkedAt);
    forall x | x in t.open ensures RequestOk(start, t, x) {
      assert RequestOk(start, s, x);
      assert t.audit[..t.open[x].checkedAt] == s.audit[..t.open[x].checkedAt];
    }
  }

  lemma CheckKeepsInv(start: Instance, s: Shared, r: RequestId, p: Plan, m: Manifest, allow: bool)
    requires SharedInv(start, s)
    ensures SharedInv(start, Next(s, Check(r, p, m, allow)))
  {
    var t := Next(s, Check(r, p, m, allow));
    forall x | x in t.open ensures RequestOk(start, t, x) {
      if x in s.open {
        assert RequestOk(start, s, x);
      } else {
        assert PlanOk(p);
        assert s.audit[..|s.audit|] == s.audit;
      }
    }
  }

  lemma StepKeepsInv(start: Instance, s: Shared, step: Step)
    requires SharedInv(start, s)
    ensures SharedInv(start, Next(s, step))
  {
    match step {
      case Make(from, to) =>
        if MakePlan(s.instance, from, to).Success? {
          MadePlanOk(s.instance, from, to);
        }
        forall x | x in s.open ensures RequestOk(start, Next(s, step), x) {
          assert RequestOk(start, s, x);
        }
      case Check(r, p, m, allow) => CheckKeepsInv(start, s, r, p, m, allow);
      case Write(r) =>
        if r in s.open {
          WriteKeepsInv(start, s, r);
        }
      case Drop(r) =>
        forall x | x in Next(s, step).open ensures RequestOk(start, Next(s, step), x) {
          assert RequestOk(start, s, x);
        }
    }
  }

  lemma {:induction false} RunKeepsInv(start: Instance, steps: seq<Step>)
    ensures SharedInv(start, Run(start, steps))
  {
    if steps != [] {
      RunKeepsInv(start, steps[..|steps| - 1]);
      StepKeepsInv(start, Run(start, steps[..|steps| - 1]), steps[|steps| - 1]);
    }
  }

  /******* When the guarantees of one apply at a time survive *******/

  /** Nothing was written to the instance between the check and the write of record `k`. */
  predicate Undisturbed(checks: seq<nat>, k: int)
    requires 0 <= k < |checks|
  {
    checks[k] == k
  }

  ghost predicate NoneDisturbed(checks: seq<nat>) {
    forall k {:trigger Undisturbed(checks, k)} :: 0 <= k < |checks| ==> Undisturbed(checks, k)
  }

  /** The audit trail is an unbroken chain. */
  ghost predicate Chain(start: Instance, audit: seq<Audit>) {
    forall k {:trigger LinkedAt(start, audit, k)} :: 0 <= k < |audit| ==> LinkedAt(start, audit, k)
  }

  /** A record continues the trail exactly if the instance had, at the write, the version it had at the check. */
  lemma LinkedIff(start: Instance, audit: seq<Audit>, checks: seq<nat>, k: nat)
    requires AllChecked(start, audit, checks) && k < |audit|
    ensures checks[k] <= k
    ensures LinkedAt(start, audit, k) <==> VersionAfter(start, audit[..k]) == VersionAfter(start, audit[..checks[k]])
  {
    assert CheckedAt(start, audit, checks, k);
  }

  lemma LowerTransitive(u: string, v: string, w: string)
    requires Lower(u, v) && Lower(v, w)
    ensures Lower(u, w)
  {
  }

  lemma UpgradeRises(start: Instance, audit: seq<Audit>, n: nat)
    requires n < |audit| && LinkedAt(start, audit, n) && audit[n].plan.direction == Upgrade
    ensures Lower(VersionAfter(start, audit[..n]), VersionAfter(start, audit[..n + 1]))
  {
    assert audit[..n + 1][n] == audit[n];
  }

  ghost predicate Upgrades(audit: seq<Audit>) {
    forall k :: 0 <= k < |audit| ==> audit[k].plan.direction == Upgrade
  }

  /** Along an unbroken chain of upgrades the version rises strictly. */
  lemma {:induction false} UpgradesRise(start: Instance, audit: seq<Audit>, i: nat, j: nat)
    requires Chain(start, audit) && i < j <= |audit| && Upgrades(audit)
    ensures Lower(VersionAfter(start, audit[..i]), VersionAfter(start, audit[..j]))
    decreases j
  {
    assert LinkedAt(start, audit, j - 1);
    UpgradeRises(start, audit, j - 1);
    if i < j - 1 {
      UpgradesRise(start, audit, i, j - 1);
      var u, v, w := VersionAfter(start, audit[..i]), VersionAfter(start, audit[..j - 1]),
          VersionAfter(start, audit[..j]);
      LowerTransitive(u, v, w);
    }
  }

  /**
   Over overlapping applies that are all upgrades, the audit trail is an unbroken chain if and only if
   nothing was written to the instance between any apply's check and its write.
   */
  lemma ChainIffUndisturbed(start: Instance, steps: seq<Step>)
    requires Upgrades(Run(start, steps).audit)
    ensures Chain(start, Run(start, steps).audit) <==> NoneDisturbed(Run(start, steps).checks)
  {
    RunKeepsInv(start, steps);
    var audit, checks := Run(start, steps).audit, Run(start, steps).checks;
    if NoneDisturbed(checks) {
      UndisturbedChain(start, audit, checks);
    }
    if Chain(start, audit) {
      forall k | 0 <= k < |checks| ensures Undisturbed(checks, k) {
        LinkedIff(start, audit, checks, k);
        assert LinkedAt(start, audit, k);
        if checks[k] < k {
          UpgradesRise(start, audit, checks[k], k);
        }
      }
    }
  }

  lemma UndisturbedChain(start: Instance, audit: seq<Audit>, checks: seq<nat>)
    requires AllChecked(start, audit, checks) && NoneDisturbed(checks)
    ensures Chain(start, audit)
  {
    forall k | 0 <= k < |audit| ensures LinkedAt(start, audit, k) {
      assert Undisturbed(checks, k);
      LinkedIff(start, audit, checks, k);
    }
  }

  /** In general the trail is a chain exactly if every version at a write is the one at its check. */
  lemma ChainIffSameVersions(start: Instance, steps: seq<Step>)
    ensures var s := Run(start, steps);
      && |s.checks| == |s.audit|
      && (Chain(start, s.audit) <==> forall k :: 0 <= k < |s.audit| ==>
            s.checks[k] <= k && VersionAfter(start, s.audit[..k]) == VersionAfter(start, s.audit[..s.checks[k]]))
  {
    RunKeepsInv(start, steps);
    var audit, checks := Run(start, steps).audit, Run(start, steps).checks;
    forall k | 0 <= k < |audit|
      ensures checks[k] <= k
      ensures LinkedAt(start, audit, k) <==> VersionAfter(start, audit[..k]) == VersionAfter(start, audit[..checks[k]])
    {
      LinkedIff(start, audit, checks, k);
    }
    if Chain(start, audit) {
      forall k | 0 <= k < |audit| ensures VersionAfter(start, audit[..k]) == VersionAfter(start, audit[..checks[k]]) {
        assert LinkedAt(start, audit, k);
      }
    }
  }

  lemma CheckedNotLower(start: Instance, audit: seq<Audit>, checks: seq<nat>, k: nat)
    requires AllChecked(start, audit, checks) && k < |audit| && Undisturbed(checks, k) && !audit[k].rollback
    ensures !Lower(audit[k].plan.toVersion, VersionAfter(start, audit[..k]))
  {
    assert CheckedAt(start, audit, checks, k);
  }

  /** A write that lowers the version is an allowed rollback, or was disturbed. */
  lemma DecreaseHasCause(start: Instance, steps: seq<Step>, k: nat)
    requires k < |Run(start, steps).audit|
    requires Lower(Run(start, steps).audit[k].plan.toVersion, VersionAfter(start, Run(start, steps).audit[..k]))
    ensures var s := Run(start, steps);
      |s.checks| == |s.audit| && ((s.audit[k].rollback && s.audit[k].allowed) || !Undisturbed(s.checks, k))
  {
    RunKeepsInv(start, steps);
    var audit, checks := Run(start, steps).audit, Run(start, steps).checks;
    assert CheckedAt(start, audit, checks, k);
    if Undisturbed(checks, k) && !audit[k].rollback {
      CheckedNotLower(start, audit, checks, k);
    }
  }

  /** Without a disturbance and without allow_downgrade, the version never falls along the trail. */
  lemma {:induction false} UndisturbedNeverDecreases(start: Instance, steps: seq<Step>, i: nat, j: nat)
    requires Parse(start.version).Some? && i <= j <= |Run(start, steps).audit|
    requires NoneDisturbed(Run(start, steps).checks)
    requires forall k :: 0 <= k < |Run(start, steps).audit| ==> !Run(start, steps).audit[k].allowed
    ensures !Lower(VersionAfter(start, Run(start, steps).audit[..j]), VersionAfter(start, Run(start, steps).audit[..i]))
    decreases j
  {
    if i < j {
      RunKeepsInv(start, steps);
      var audit, checks := Run(start, steps).audit, Run(start, steps).checks;
      UndisturbedNeverDecreases(start, steps, i, j - 1);
      TrailStep(start, audit, checks, i, j - 1);
    }
  }

  lemma TrailStep(start: Instance, audit: seq<Audit>, checks: seq<nat>, i: nat, k: nat)
    requires Parse(start.version).Some? && AllChecked(start, audit, checks) && NoneDisturbed(checks)
    requires i <= k < |audit| && !audit[k].allowed
    requires !Lower(VersionAfter(start, audit[..k]), VersionAfter(start, audit[..i]))
    ensures !Lower(VersionAfter(start, audit[..k + 1]), VersionAfter(start, audit[..i]))
  {
    var u, v, w := VersionAfter(start, audit[..i]), VersionAfter(start, audit[..k]),
        VersionAfter(start, audit[..k + 1]);
    assert audit[..k + 1][k] == audit[k];
    assert CheckedAt(start, audit, checks, k) && Undisturbed(checks, k);
    CheckedNotLower(start, audit, checks, k);
    TrailParses(start, audit, checks, k);
    if Lower(w, u) {
      LowerThrough(u, v, w);
    }
  }

  lemma TrailParses(start: Instance, audit: seq<Audit>, checks: seq<nat>, k: nat)
    requires Parse(start.version).Some? && AllChecked(start, audit, checks) && k <= |audit|
    ensures Parse(VersionAfter(start, audit[..k])).Some?
  {
    if k > 0 {
      assert CheckedAt(start, audit, checks, k - 1);
      assert audit[..k][k - 1] == audit[k - 1];
    }
  }

  /******* What goes wrong otherwise *******/

  /**
   From every state: of two overlapping applies of upgrade plans from the present version, the one that
   writes second lowers the version without allow_downgrade, if its target is the lower one.
   */
  lemma SecondApplyLowers(start: Instance, s: Shared, high: Plan, low: Plan, a: Manifest, b: Manifest,
                          r: RequestId, x: RequestId)
    returns (first: Shared, after: Shared)
    requires SharedInv(start, s) && r != x && r !in s.open && x !in s.open && high in s.plans && low in s.plans
    requires Apply(s.instance, high, a, false).Success? && Apply(s.instance, low, b, false).Success?
    requires high.direction == Upgrade && low.direction == Upgrade && Lower(low.toVersion, high.toVersion)
    ensures first == Next(Next(Next(s, Check(r, high, a, false)), Check(x, low, b, false)), Write(r))
    ensures after == Next(first, Write(x))
    ensures Lower(after.instance.version, first.instance.version)
    ensures |after.audit| == |s.audit| + 2
    ensures forall k :: |s.audit| <= k < |after.audit| ==> !after.audit[k].rollback && !after.audit[k].allowed
    ensures !Chain(start, after.audit)
  {
    first, after := TwoApplies(s, high, low, a, b, r, x);
    assert PlanOk(high) && high.fromVersion == s.instance.version == low.fromVersion;
    NotTheSame(high);
    BrokenLink(start, s.audit, first.audit[|s.audit|], after.audit[|s.audit| + 1]);
    assert after.audit == s.audit + [first.audit[|s.audit|]] + [after.audit[|s.audit| + 1]];
  }

  lemma BrokenLink(start: Instance, audit: seq<Audit>, x: Audit, y: Audit)
    requires y.plan.fromVersion != x.plan.toVersion
    ensures !Chain(start, audit + [x] + [y])
  {
    var all, k := audit + [x] + [y], |audit| + 1;
    assert all[..k] == audit + [x];
    assert !LinkedAt(start, all, k);
  }

  lemma TwoApplies(s: Shared, high: Plan, low: Plan, a: Manifest, b: Manifest, r: RequestId, x: RequestId)
    returns (first: Shared, after: Shared)
    requires r != x && r !in s.open && x !in s.open && high in s.plans && low in s.plans
    requires Apply(s.instance, high, a, false).Success? && Apply(s.instance, low, b, false).Success?
    ensures first == Next(Next(Next(s, Check(r, high, a, false)), Check(x, low, b, false)), Write(r))
    ensures after == Next(first, Write(x))
    ensures first.instance.version == high.toVersion && after.instance.version == low.toVersion
    ensures first.audit == s.audit + [Audit(high.direction == Downgrade, high, a, false)]
    ensures after.audit == first.audit + [Audit(low.direction == Downgrade, low, b, false)]
  {
    var one := Next(s, Check(r, high, a, false));
    var two := Next(one, Check(x, low, b, false));
    first := Next(two, Write(r));
    after := Next(first, Write(x));
  }

  lemma NotTheSame(p: Plan)
    requires PlanOk(p) && p.direction == Upgrade
    ensures p.fromVersion != p.toVersion
  {
  }

  /** A check and its write with no other step in between do what the apply does when called alone, or nothing. */
  lemma LoneApplyIsApply(s: Shared, r: RequestId, p: Plan, m: Manifest, allow: bool)
    requires r !in s.open && p in s.plans
    ensures var t := Next(Next(s, Check(r, p, m, allow)), Write(r));
      match Apply(s.instance, p, m, allow)
      case Success(result) => t.instance == result.0 && t.audit == s.audit + [result.1] && t.open == s.open
      case Failure(_) => t == s
  {
  }
}
