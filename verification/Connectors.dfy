/**
 Upgrading connector instances (app/connector_lifecycle.py): a plan is made against some manifest of
 the instance and may be stale when it is applied.
 */
module Connectors {
  import opened Common

  const CORE_CONTRACT_VERSION := 1

  const CAPABILITIES := {
    "file.capture", "evidence.collect", "configuration.snapshot", "identity.population", "identity.groups",
    "asset.inventory", "vulnerability.findings", "notification.send"}

  datatype Field = Field(name: string, kind: string)

  datatype Manifest = Manifest(
    connector: string, version: string, capabilities: seq<string>, permissions: seq<string>,
    config: seq<Field>, minCore: int, maxCore: Option<int>)

  /******* Versions *******/

  datatype Semver = Semver(major: nat, minor: nat, patch: nat)

  predicate AllDigits(s: string) {
    s == "" || ('0' <= s[|s| - 1] <= '9' && AllDigits(s[..|s| - 1]))
  }

  /** int() of ASCII digits; leading zeros are accepted. */
  function ToNat(s: string): nat
    requires AllDigits(s)
  {
    if s == "" then 0 else ToNat(s[..|s| - 1]) * 10 + (s[|s| - 1] - '0') as nat
  }

  /** version.split("."). */
  function Split(s: string): (parts: seq<string>)
    ensures parts != []
  {
    if s == "" then [""]
    else
      var rest := Split(s[1..]);
      if s[0] == '.' then [""] + rest else [[s[0]] + rest[0]] + rest[1..]
  }

  /** Python's `$` also matches before a final newline, and int() ignores it. */
  function Chomp(s: string): string {
    if s != "" && s[|s| - 1] == '\n' then s[..|s| - 1] else s
  }

  predicate IsNumber(s: string) {
    s != "" && AllDigits(s)
  }

  /** _semver_tuple, for the versions that match `^\d+\.\d+\.\d+$`. */
  function Parse(version: string): Option<Semver> {
    var parts := Split(Chomp(version));
    if |parts| == 3 && IsNumber(parts[0]) && IsNumber(parts[1]) && IsNumber(parts[2])
    then Some(Semver(ToNat(parts[0]), ToNat(parts[1]), ToNat(parts[2])))
    else None
  }

  /** Precedence of X.Y.Z: major, then minor, then patch, numerically. */
  predicate Less(a: Semver, b: Semver) {
    a.major < b.major ||
    (a.major == b.major && (a.minor < b.minor || (a.minor == b.minor && a.patch < b.patch)))
  }

  /******* Plans *******/

  predicate ValidManifest(m: Manifest) {
    && m.connector != "" && Parse(m.version).Some?
    && m.capabilities != [] && (forall c :: c in m.capabilities ==> c in CAPABILITIES)
    && ValidConfig(m.config)
  }

  predicate ValidConfig(config: seq<Field>) {
    && (forall i, j :: 0 <= i < j < |config| ==> config[i].name != config[j].name)
    && (forall f :: f in config ==> f.kind in {"str", "bool", "int"})
  }

  predicate Compatible(m: Manifest) {
    m.minCore <= CORE_CONTRACT_VERSION && (m.maxCore.Some? ==> CORE_CONTRACT_VERSION <= m.maxCore.value)
  }

  datatype Direction = Upgrade | Downgrade | Same

  datatype Plan = Plan(
    connector: string, fromVersion: string, toVersion: string, direction: Direction,
    newCapabilities: seq<string>, newPermissions: seq<string>,
    toCapabilities: seq<string>, toPermissions: seq<string>)

  datatype Instance = Instance(connector: string, version: string)

  /** The elements of `xs` that are not in `ys`, in order. */
  function Without(xs: seq<string>, ys: seq<string>): (r: seq<string>)
    ensures forall x :: x in r <==> x in xs && x !in ys
  {
    if xs == [] then [] else (if xs[0] in ys then [] else [xs[0]]) + Without(xs[1..], ys)
  }

  /** plan_connector_instance_upgrade. */
  function MakePlan(i: Instance, from: Manifest, to: Manifest): Result<Plan> {
    if to.connector != i.connector || !ValidManifest(to) || !Compatible(to) || Parse(from.version).None?
    then Failure(ValueError)
    else
      var a, b := Parse(from.version).value, Parse(to.version).value;
      Success(Plan(i.connector, from.version, to.version,
                   if Less(a, b) then Upgrade else if Less(b, a) then Downgrade else Same,
                   Without(to.capabilities, from.capabilities), Without(to.permissions, from.permissions),
                   to.capabilities, to.permissions))
  }

  /** An audit record of an applied plan. */
  datatype Audit = Audit(rollback: bool, plan: Plan, applied: Manifest, allowed: bool)

  predicate Reviewed(p: Plan, m: Manifest) {
    m.version == p.toVersion && m.capabilities == p.toCapabilities && m.permissions == p.toPermissions
  }

  /** apply_connector_instance_upgrade. */
  function Apply(i: Instance, p: Plan, to: Manifest, allowDowngrade: bool): Result<(Instance, Audit)> {
    if i.version != p.fromVersion then Failure(ValueError)
    else if p.direction == Downgrade && !allowDowngrade then Failure(ValueError)
    else if p.connector != i.connector || to.connector != i.connector then Failure(ValueError)
    else if !Reviewed(p, to) then Failure(ValueError)
    else Success((i.(version := to.version), Audit(p.direction == Downgrade, p, to, allowDowngrade)))
  }

  /******* Runs *******/

  /** An instance, the plans made for it so far, and its audit trail. */
  datatype State = State(instance: Instance, plans: set<Plan>, audit: seq<Audit>)

  /** Any plan made at any earlier time may be applied, with any manifest. */
  datatype Step = Make(from: Manifest, to: Manifest) | Use(plan: Plan, with: Manifest, allowDowngrade: bool)

  function Next(s: State, step: Step): State {
    match step
    case Make(from, to) =>
      var r := MakePlan(s.instance, from, to);
      if r.Success? then s.(plans := s.plans + {r.value}) else s
    case Use(p, m, allow) =>
      if p !in s.plans then s
      else
        var r := Apply(s.instance, p, m, allow);
        if r.Success? then s.(instance := r.value.0, audit := s.audit + [r.value.1]) else s
  }

  function Run(start: Instance, steps: seq<Step>): State {
    if steps == [] then State(start, {}, [])
    else Next(Run(start, steps[..|steps| - 1]), steps[|steps| - 1])
  }

  /** A plan's direction compares the two versions it names. */
  ghost predicate PlanOk(p: Plan) {
    && Parse(p.fromVersion).Some? && Parse(p.toVersion).Some?
    && (p.direction == Downgrade <==> Less(Parse(p.toVersion).value, Parse(p.fromVersion).value))
    && (p.direction == Upgrade <==> Less(Parse(p.fromVersion).value, Parse(p.toVersion).value))
  }

  /** An audit record tells what moved from where to where, and whether that was a step down. */
  ghost predicate AuditOk(a: Audit) {
    PlanOk(a.plan) && Reviewed(a.plan, a.applied) && a.rollback == (a.plan.direction == Downgrade) &&
    (a.rollback ==> a.allowed)
  }

  /** The audit trail is an unbroken chain from the first version to the present one. */
  ghost predicate Chained(start: Instance, s: State) {
    && (forall i {:trigger LinkedAt(start, s.audit, i)} :: 0 <= i < |s.audit| ==> LinkedAt(start, s.audit, i))
    && s.instance == Instance(start.connector, VersionAfter(start, s.audit))
  }

  function VersionAfter(start: Instance, audit: seq<Audit>): string {
    if audit == [] then start.version else audit[|audit| - 1].plan.toVersion
  }

  ghost predicate LinkedAt(start: Instance, audit: seq<Audit>, i: int)
    requires 0 <= i < |audit|
  {
    AuditOk(audit[i]) && audit[i].plan.fromVersion == VersionAfter(start, audit[..i])
  }

  ghost predicate PlansOk(plans: set<Plan>) {
    forall p {:trigger PlanOk(p)} :: p in plans ==> PlanOk(p)
  }

  ghost predicate RunOk(start: Instance, s: State) {
    Chained(start, s) && PlansOk(s.plans)
  }

  lemma MadePlanOk(i: Instance, from: Manifest, to: Manifest)
    requires MakePlan(i, from, to).Success?
    ensures PlanOk(MakePlan(i, from, to).value)
  {
  }

  lemma ApplyKeepsChain(start: Instance, s: State, p: Plan, m: Manifest, allow: bool)
    requires Chained(start, s) && PlanOk(p) && Apply(s.instance, p, m, allow).Success?
    ensures var r := Apply(s.instance, p, m, allow).value;
      Chained(start, s.(instance := r.0, audit := s.audit + [r.1]))
  {
    var audit := s.audit + [Apply(s.instance, p, m, allow).value.1];
    forall i | 0 <= i < |audit| ensures LinkedAt(start, audit, i) {
      assert i < |s.audit| ==> LinkedAt(start, s.audit, i);
      assert audit[..i] == s.audit[..i];
      assert s.audit[..|s.audit|] == s.audit;
    }
  }

  lemma StepKeepsChain(start: Instance, s: State, step: Step)
    requires RunOk(start, s)
    ensures RunOk(start, Next(s, step))
  {
    match step {
      case Make(from, to) =>
        if MakePlan(s.instance, from, to).Success? {
          MadePlanOk(s.instance, from, to);
        }
      case Use(p, m, allow) =>
        if p in s.plans && Apply(s.instance, p, m, allow).Success? {
          assert PlanOk(p);
          ApplyKeepsChain(start, s, p, m, allow);
        }
    }
  }

  /** In every run the audit trail leads from the first version to the present one, step by step. */
  lemma {:induction false} AuditTrailIsAChain(start: Instance, steps: seq<Step>)
    ensures RunOk(start, Run(start, steps))
  {
    if steps != [] {
      AuditTrailIsAChain(start, steps[..|steps| - 1]);
      StepKeepsChain(start, Run(start, steps[..|steps| - 1]), steps[|steps| - 1]);
    }
  }

  lemma VersionParses(start: Instance, steps: seq<Step>)
    requires Parse(start.version).Some?
    ensures Parse(Run(start, steps).instance.version).Some?
  {
    AuditTrailIsAChain(start, steps);
    var s := Run(start, steps);
    if s.audit != [] {
      assert LinkedAt(start, s.audit, |s.audit| - 1);
    }
  }

  /** `w` is a lower version than `v`. */
  ghost predicate Lower(w: string, v: string) {
    Parse(v).Some? && Parse(w).Some? && Less(Parse(w).value, Parse(v).value)
  }

  /** One step moves the version down exactly if it adds a rollback to the trail, which only an allowed apply does. */
  lemma StepDown(start: Instance, s: State, step: Step)
    requires RunOk(start, s)
    ensures var t := Next(s, step);
      && (Lower(t.instance.version, s.instance.version) <==> |t.audit| == |s.audit| + 1 && t.audit[|s.audit|].rollback)
      && (Lower(t.instance.version, s.instance.version) ==> step.Use? && step.allowDowngrade)
  {
    if step.Use? && step.plan in s.plans {
      assert PlanOk(step.plan);
    }
  }

  lemma DecreasesAreRollbacks(start: Instance, steps: seq<Step>, step: Step)
    ensures var s, t := Run(start, steps), Next(Run(start, steps), step);
      && (Lower(t.instance.version, s.instance.version) <==> |t.audit| == |s.audit| + 1 && t.audit[|s.audit|].rollback)
      && (Lower(t.instance.version, s.instance.version) ==> step.Use? && step.allowDowngrade)
  {
    AuditTrailIsAChain(start, steps);
    StepDown(start, Run(start, steps), step);
  }

  lemma LowerThrough(u: string, v: string, w: string)
    requires Parse(v).Some? && Lower(w, u)
    ensures Lower(w, v) || Lower(v, u)
  {
  }

  lemma StepNotBelow(start: Instance, steps: seq<Step>, step: Step, u: string)
    requires Parse(start.version).Some? && !Lower(Run(start, steps).instance.version, u)
    requires step.Use? ==> !step.allowDowngrade
    ensures !Lower(Next(Run(start, steps), step).instance.version, u)
  {
    var v, w := Run(start, steps).instance.version, Next(Run(start, steps), step).instance.version;
    DecreasesAreRollbacks(start, steps, step);
    VersionParses(start, steps);
    if Lower(w, u) {
      LowerThrough(u, v, w);
    }
  }

  /**
   Over every series of plans and applies, one at a time, that never allow a downgrade, the version never
   decreases.
   */
  lemma {:induction false} NeverDecreases(start: Instance, steps: seq<Step>, k: nat)
    requires Parse(start.version).Some? && k <= |steps|
    requires forall i :: k <= i < |steps| && steps[i].Use? ==> !steps[i].allowDowngrade
    ensures Parse(Run(start, steps).instance.version).Some? && Parse(Run(start, steps[..k]).instance.version).Some?
    ensures !Lower(Run(start, steps).instance.version, Run(start, steps[..k]).instance.version)
    decreases |steps|
  {
    VersionParses(start, steps);
    VersionParses(start, steps[..k]);
    if k < |steps| {
      var front, last := steps[..|steps| - 1], steps[|steps| - 1];
      assert front[..k] == steps[..k];
      NeverDecreases(start, front, k);
      StepNotBelow(start, front, last, Run(start, steps[..k]).instance.version);
    } else {
      assert steps[..k] == steps;
    }
  }

  /** `p` came from planning a move of an instance of the connector from one manifest to another. */
  ghost predicate MadeFrom(p: Plan, connector: string, from: Manifest, to: Manifest) {
    MakePlan(Instance(connector, from.version), from, to) == Success(p)
  }

  /** Planning looks at nothing of the instance but its connector. */
  lemma PlanIgnoresVersion(i: Instance, from: Manifest, to: Manifest)
    ensures MakePlan(i, from, to) == MakePlan(Instance(i.connector, from.version), from, to)
  {
  }

  ghost predicate HasOrigin(p: Plan, connector: string) {
    exists from, to :: MadeFrom(p, connector, from, to)
  }

  /** Every plan of a run, and so every applied one, was made from two manifests. */
  lemma {:induction false} PlansHaveOrigins(start: Instance, steps: seq<Step>)
    ensures var s := Run(start, steps);
      && s.instance.connector == start.connector
      && (forall p {:trigger HasOrigin(p, start.connector)} :: p in s.plans ==> HasOrigin(p, start.connector))
      && (forall k {:trigger s.audit[k]} :: 0 <= k < |s.audit| ==>
            HasOrigin(s.audit[k].plan, start.connector) && s.audit[k].applied.connector == start.connector &&
            Reviewed(s.audit[k].plan, s.audit[k].applied))
  {
    if steps != [] {
      var n := |steps| - 1;
      var s, step := Run(start, steps[..n]), steps[n];
      PlansHaveOrigins(start, steps[..n]);
      if step.Make? && MakePlan(s.instance, step.from, step.to).Success? {
        PlanIgnoresVersion(s.instance, step.from, step.to);
        assert MadeFrom(MakePlan(s.instance, step.from, step.to).value, start.connector, step.from, step.to);
      } else if step.Use? && step.plan in s.plans {
        assert HasOrigin(step.plan, start.connector);
      }
    }
  }

  /**
   Planning again with a manifest that has the reviewed version, capabilities and permissions gives the
   same plan exactly if that manifest is compatible with the core and its configuration fields are valid.
   */
  lemma SamePlanIff(p: Plan, connector: string, from: Manifest, to: Manifest, other: Manifest)
    requires MadeFrom(p, connector, from, to) && other.connector == connector && Reviewed(p, other)
    ensures MadeFrom(p, connector, from, other) <==> Compatible(other) && ValidConfig(other.config)
  {
  }

  /**
   What was planned is what was applied, in version, capabilities and permissions, in every audit record
   of every run. The applied manifest would itself have led to that plan if and only if it is compatible
   with the core and its configuration fields are valid: applying does not look at these again.
   */
  lemma AppliedAsPlannedIff(start: Instance, steps: seq<Step>, k: nat) returns (from: Manifest, to: Manifest)
    requires k < |Run(start, steps).audit|
    ensures var a := Run(start, steps).audit[k];
      && MadeFrom(a.plan, start.connector, from, to)
      && a.applied.version == to.version && a.applied.capabilities == to.capabilities
      && a.applied.permissions == to.permissions
      && (MadeFrom(a.plan, start.connector, from, a.applied) <==>
          Compatible(a.applied) && ValidConfig(a.applied.config))
  {
    PlansHaveOrigins(start, steps);
    var a := Run(start, steps).audit[k];
    assert HasOrigin(a.plan, start.connector);
    from, to :| MadeFrom(a.plan, start.connector, from, to);
    SamePlanIff(a.plan, start.connector, from, to, a.applied);
  }

  /**
   From every run: after planning with `to`, a manifest with the same version, capabilities and permissions
   is applied, although planning with it would have been refused.
   */
  lemma SubstituteIsApplied(start: Instance, steps: seq<Step>, from: Manifest, to: Manifest, other: Manifest)
    requires from.version == Run(start, steps).instance.version &&
        MakePlan(Run(start, steps).instance, from, to).Success?
    requires other.connector == to.connector && other.version == to.version
    requires other.capabilities == to.capabilities && other.permissions == to.permissions && !Compatible(other)
    ensures var s, p := Run(start, steps), MakePlan(Run(start, steps).instance, from, to).value;
      var after := Next(Next(s, Make(from, to)), Use(p, other, true));
      && MakePlan(s.instance, from, other).Failure?
      && |after.audit| == |s.audit| + 1 && after.audit[|s.audit|].applied == other
      && after.instance.version == other.version
  {
  }

  class ConnectorInstance {
    const connector: string
    var version: string
    var audit: seq<Audit>

    constructor (connector: string, version: string)
      ensures this.connector == connector && this.version == version && audit == []
    {
      this.connector := connector;
      this.version := version;
      audit := [];
    }

    method ApplyUpgrade(p: Plan, to: Manifest, allowDowngrade: bool) returns (error: Option<Error>)
      requires PlanOk(p)
      modifies this
      ensures match Apply(Instance(connector, old(version)), p, to, allowDowngrade)
        case Success(r) => error == None && version == r.0.version && audit == old(audit) + [r.1]
        case Failure(e) => error == Some(e) && version == old(version) && audit == old(audit)
      ensures error == None <==>
        && old(version) == p.fromVersion && (p.direction == Downgrade ==> allowDowngrade)
        && p.connector == connector && to.connector == connector && to.version == p.toVersion
        && to.capabilities == p.toCapabilities && to.permissions == p.toPermissions
      ensures error == None ==>
        && version == p.toVersion && |audit| == |old(audit)| + 1
        && audit[|old(audit)|].plan == p && audit[|old(audit)|].rollback == (p.direction == Downgrade)
      ensures Parse(old(version)).Some? && !allowDowngrade ==>
        Parse(version).Some? && !Less(Parse(version).value, Parse(old(version)).value)
    {
      if version != p.fromVersion || (p.direction == Downgrade && !allowDowngrade) {
        return Some(ValueError);
      }
      if p.connector != connector || to.connector != connector {
        return Some(ValueError);
      }
      if to.version != p.toVersion || to.capabilities != p.toCapabilities || to.permissions != p.toPermissions {
        return Some(ValueError);
      }
      version := to.version;
      audit := audit + [Audit(p.direction == Downgrade, p, to, allowDowngrade)];
      error := None;
    }
  }
}
