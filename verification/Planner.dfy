/** The install planner against the validator of the plans it emits. */
module Planner {
  import opened Common
  import opened RuntimeLock

  datatype Blocker = Blocker(code: string, message: string, evidenceRefs: seq<string>)

  datatype Manifest = Manifest(candidate: Candidate, version: string, files: seq<FileDigest>)

  datatype PackageReceipt = PackageReceipt(
    receiptId: string, candidate: Option<Candidate>, built: bool, packageDigest: Option<string>,
    manifest: Option<Manifest>)
  {
    /** What `PackageReceiptV2` has checked by the time the planner reads the receipt. */
    predicate Valid() {
      && (manifest.Some? ==>
            && candidate == Some(manifest.value.candidate)
            && manifest.value.files != [] && UniquePaths(manifest.value.files))
      && (built ==>
            && candidate.Some? && packageDigest.Some? && manifest.Some?
            && candidate.value.content == Sha256(Encode(manifest.value.files)))
      && (!built ==> packageDigest.None?)
      && (packageDigest.Some? ==> IsSha256(packageDigest.value))
    }
  }

  datatype RegistryReceipt = RegistryReceipt(
    receiptId: string, candidate: Option<Candidate>, registry: Registry, packageName: string, version: string,
    inputReceiptId: string, packageDigest: Option<string>, prepared: bool, blocker: Option<Blocker>)
  {
    /** What `RegistryPreparationReceipt` has checked by then. */
    predicate Valid() {
      && (prepared ==>
            && candidate.Some? && packageDigest.Some? && packageName == candidate.value.packageId && blocker.None?)
      && (!prepared ==> blocker.Some? && packageDigest.None?)
    }
  }

  /** The regular expressions for portable and for public-safe text, kept opaque. */
  datatype Policy = Policy(safe: string -> bool, portable: string -> bool) {
    predicate SafeBlocker(b: Blocker) {
      safe(b.code) && safe(b.message) && forall ref | ref in b.evidenceRefs :: safe(ref)
    }

    /** The planner's own blockers are constants; their texts match none of the patterns. */
    predicate Sane() {
      SafeBlocker(INPUT_MISMATCH) && SafeBlocker(NOT_PORTABLE) && SafeBlocker(IDENTITY_MISMATCH) && SafeBlocker(VERSION_MISMATCH)
    }

    predicate Evidence(evidence: seq<string>) {
      && evidence != []
      && Distinct(evidence)
      && (forall e | e in evidence :: portable(e) && safe(e))
    }

    /** `RuntimeLockEntry` with all of its field rules. */
    predicate Entry(entry: LockEntry) {
      && safe(entry.packageName) && safe(entry.version)
      && safe(entry.packageReceiptId) && safe(entry.preparationReceiptId)
      && (forall f | f in entry.files :: safe(f.path))
      && ConsistentEntry(entry)
    }
  }

  const INPUT_MISMATCH := Blocker("installation_input_receipt_mismatch",
    "Registry preparation must identify the exact package receipt used for planning.", [])
  const NOT_PORTABLE := Blocker("installation_registry_blocker_not_portable",
    "Registry preparation blocker cannot be projected into a portable install plan.", [])
  const IDENTITY_MISMATCH := Blocker("installation_identity_mismatch",
    "Package and registry preparation must bind the same built candidate and digest.", [])
  const VERSION_MISMATCH := Blocker("installation_version_mismatch",
    "Package manifest and registry preparation must bind the same version.", [])

  type LockDigest = Digest<seq<LockEntry>>

  datatype Field =
    | FCandidate | FPackageName | FVersion | FPackageDigest | FPackageReceipt | FRegistry | FPreparationReceipt
    | FInputReceipt | FCurrentLock | FRollbackLock | FProposedLock | FTarget | FStatus | FOperation | FProposedEntry
    | FEvidence | FBlocker

  datatype Value =
    | Null | Text(text: string) | Texts(texts: seq<string>) | Lock(lock: LockDigest) | OfCandidate(candidate: Candidate)
    | OfRegistry(registry: Registry) | OfTarget(target: Target) | OfEntry(entry: LockEntry) | OfBlocker(blocker: Blocker)
    | OfOperation(operation: Operation) | Planned | Blocked

  /** A JSON object: canonical JSON sorts the keys, so the order of insertion is no part of it. */
  type Payload = map<Field, Value>

  datatype InstallPlan = InstallPlan(
    planId: Digest<Payload>, candidate: Option<Candidate>, packageName: string, version: string,
    packageDigest: Option<string>, packageReceiptId: string, planned: bool, operation: Option<Operation>,
    target: Target, registry: Registry, preparationReceiptId: string, inputReceiptId: string,
    currentLock: LockDigest, rollbackLock: LockDigest, proposedLock: Option<LockDigest>,
    proposedEntry: Option<LockEntry>, evidence: seq<string>, blocker: Option<Blocker>)

  function OptText(text: Option<string>): Value {
    if text.Some? then Text(text.value) else Null
  }

  function OptCandidate(candidate: Option<Candidate>): Value {
    if candidate.Some? then OfCandidate(candidate.value) else Null
  }

  // ---- The validator ----

  /** `InstallPlan._identity_payload`. */
  function IdentityPayload(plan: InstallPlan): Payload {
    var payload: Payload := map[
      FCandidate := OptCandidate(plan.candidate),
      FPackageName := Text(plan.packageName),
      FVersion := Text(plan.version),
      FPackageDigest := OptText(plan.packageDigest),
      FPackageReceipt := Text(plan.packageReceiptId),
      FRegistry := OfRegistry(plan.registry),
      FPreparationReceipt := Text(plan.preparationReceiptId),
      FInputReceipt := Text(plan.inputReceiptId),
      FCurrentLock := Lock(plan.currentLock),
      FRollbackLock := Lock(plan.rollbackLock),
      FTarget := OfTarget(plan.target),
      FStatus := if plan.planned then Planned else Blocked,
      FEvidence := Texts(plan.evidence)];
    if plan.planned then
      payload[FOperation := if plan.operation.Some? then OfOperation(plan.operation.value) else Null]
             [FProposedLock := if plan.proposedLock.Some? then Lock(plan.proposedLock.value) else Null]
             [FProposedEntry := if plan.proposedEntry.Some? then OfEntry(plan.proposedEntry.value) else Null]
    else
      payload[FBlocker := if plan.blocker.Some? then OfBlocker(plan.blocker.value) else Null]
  }

  /** `_validate_planned_state`. */
  predicate PlannedState(plan: InstallPlan) {
    && plan.candidate.Some? && plan.packageDigest.Some?
    && plan.operation.Some? && plan.proposedLock.Some? && plan.proposedEntry.Some?
    && var entry := plan.proposedEntry.value;
    && entry.candidate == plan.candidate.value && entry.target == plan.target
    && entry.packageDigest == plan.packageDigest.value
    && entry.packageName == plan.packageName == plan.candidate.value.packageId
    && entry.version == plan.version && entry.packageReceiptId == plan.packageReceiptId
    && entry.preparationReceiptId == plan.preparationReceiptId && entry.registry == plan.registry
    && plan.blocker.None?
    && (plan.operation.value.NoChange? <==> plan.currentLock == plan.proposedLock.value)
  }

  predicate BlockedState(policy: Policy, plan: InstallPlan) {
    && plan.operation.None? && plan.proposedLock.None? && plan.proposedEntry.None?
    && plan.blocker.Some?
    && (plan.candidate.Some? ==> plan.packageName == plan.candidate.value.packageId)
    && policy.SafeBlocker(plan.blocker.value)
  }

  /** `InstallPlan.status_matches_transition`: the rules that relate several fields. */
  predicate Consistent(policy: Policy, plan: InstallPlan) {
    && plan.rollbackLock == plan.currentLock
    && (if plan.planned then plan.inputReceiptId == plan.packageReceiptId && PlannedState(plan)
        else BlockedState(policy, plan))
    && plan.planId == Sha256(IdentityPayload(plan))
  }

  /** The field type of the package digest. */
  predicate TypedDigests(plan: InstallPlan) {
    plan.packageDigest.Some? ==> IsSha256(plan.packageDigest.value)
  }

  /** The rules on single text fields. */
  predicate FieldsAccepted(policy: Policy, plan: InstallPlan) {
    && policy.safe(plan.packageName) && policy.safe(plan.version)
    && policy.safe(plan.packageReceiptId) && policy.safe(plan.preparationReceiptId) && policy.safe(plan.inputReceiptId)
    && policy.Evidence(plan.evidence) && TypedDigests(plan)
    && (plan.proposedEntry.Some? ==> policy.Entry(plan.proposedEntry.value))
  }

  predicate Accepted(policy: Policy, plan: InstallPlan) {
    FieldsAccepted(policy, plan) && Consistent(policy, plan)
  }

  // ---- The planner ----

  /** `_identity_blocker`. */
  function IdentityBlocker(policy: Policy, package: PackageReceipt, registry: RegistryReceipt): Option<Blocker>
    requires package.Valid() && registry.Valid()
  {
    if registry.inputReceiptId != package.receiptId then Some(INPUT_MISMATCH)
    else if !registry.prepared then
      if !policy.SafeBlocker(registry.blocker.value) then Some(NOT_PORTABLE) else registry.blocker
    else if !package.built || package.candidate != registry.candidate || package.packageDigest != registry.packageDigest then
      Some(IDENTITY_MISMATCH)
    else if package.manifest.None? || package.manifest.value.version != registry.version then Some(VERSION_MISMATCH)
    else None
  }

  /** Constructing a model runs its validator; a refusal raises `ValidationError`. */
  datatype Refusal = EntryRefused | LockRefused | PlanRefused

  function Construct(policy: Policy, plan: InstallPlan): Result<InstallPlan, Refusal> {
    if Accepted(policy, plan) then Ok(plan) else Err(PlanRefused)
  }

  /** `_blocked_plan`. */
  function BlockedPlan(package: PackageReceipt, registry: RegistryReceipt, current: seq<LockEntry>, target: Target,
      evidence: seq<string>, blocker: Blocker): InstallPlan
  {
    var currentDigest := Sha256(current);
    var packageName := if package.candidate.Some? then package.candidate.value.packageId else registry.packageName;
    var version := if package.manifest.Some? then package.manifest.value.version else registry.version;
    var packageDigest := if package.built then package.packageDigest else None;
    var identity: Payload := map[
      FCandidate := OptCandidate(package.candidate),
      FPackageName := Text(packageName),
      FVersion := Text(version),
      FPackageDigest := OptText(packageDigest),
      FPackageReceipt := Text(package.receiptId),
      FRegistry := OfRegistry(registry.registry),
      FPreparationReceipt := Text(registry.receiptId),
      FInputReceipt := Text(registry.inputReceiptId),
      FCurrentLock := Lock(currentDigest),
      FRollbackLock := Lock(currentDigest),
      FTarget := OfTarget(target),
      FStatus := Blocked,
      FEvidence := Texts(evidence),
      FBlocker := OfBlocker(blocker)];
    InstallPlan(Sha256(identity), package.candidate, packageName, version, packageDigest, package.receiptId, false, None,
      target, registry.registry, registry.receiptId, registry.inputReceiptId, currentDigest, currentDigest, None, None,
      evidence, Some(blocker))
  }

  /** The entry `_planned_transition` builds. */
  function PlannedEntry(package: PackageReceipt, registry: RegistryReceipt, target: Target): LockEntry
    requires package.Valid() && package.built
  {
    LockEntry(registry.packageName, registry.version, package.candidate.value, package.packageDigest.value,
      registry.registry, package.receiptId, registry.receiptId, target, package.manifest.value.files)
  }

  /** The plan `_planned_transition` builds. */
  function TransitionPlan(package: PackageReceipt, registry: RegistryReceipt, current: seq<LockEntry>, target: Target,
      evidence: seq<string>): InstallPlan
    requires package.Valid() && package.built
  {
    var entry := PlannedEntry(package, registry, target);
    var operation := OperationOf(current, entry);
    var currentDigest, proposedDigest := Sha256(current), Sha256(Propose(current, entry));
    var identity: Payload := map[
      FCandidate := OfCandidate(package.candidate.value),
      FPackageName := Text(registry.packageName),
      FVersion := Text(registry.version),
      FPackageDigest := Text(package.packageDigest.value),
      FPackageReceipt := Text(package.receiptId),
      FRegistry := OfRegistry(registry.registry),
      FPreparationReceipt := Text(registry.receiptId),
      FInputReceipt := Text(registry.inputReceiptId),
      FCurrentLock := Lock(currentDigest),
      FRollbackLock := Lock(currentDigest),
      FProposedLock := Lock(proposedDigest),
      FTarget := OfTarget(target),
      FStatus := Planned,
      FOperation := OfOperation(operation),
      FProposedEntry := OfEntry(entry),
      FEvidence := Texts(evidence)];
    InstallPlan(Sha256(identity), package.candidate, registry.packageName, registry.version, package.packageDigest,
      package.receiptId, true, Some(operation), target, registry.registry, registry.receiptId, registry.inputReceiptId,
      currentDigest, currentDigest, Some(proposedDigest), Some(entry), evidence, None)
  }

  /** `_planned_transition`: the entry, the lock and the plan are each validated as they are built. */
  function PlannedTransition(policy: Policy, package: PackageReceipt, registry: RegistryReceipt,
      current: seq<LockEntry>, target: Target, evidence: seq<string>): Result<InstallPlan, Refusal>
    requires package.Valid() && package.built
  {
    var entry := PlannedEntry(package, registry, target);
    if !policy.Entry(entry) then Err(EntryRefused)
    else if !UniqueKeys(Propose(current, entry)) then Err(LockRefused)
    else Construct(policy, TransitionPlan(package, registry, current, target, evidence))
  }

  /** `plan_runtime_install`. */
  function PlanRuntimeInstall(policy: Policy, package: PackageReceipt, registry: RegistryReceipt,
      current: seq<LockEntry>, target: Target, evidence: seq<string>): Result<InstallPlan, Refusal>
    requires package.Valid() && registry.Valid()
  {
    var blocker := IdentityBlocker(policy, package, registry);
    if blocker.Some? then
      Construct(policy, BlockedPlan(package, registry, current, target, evidence, blocker.value))
    else PlannedTransition(policy, package, registry, current, target, evidence)
  }

  // ---- What is proved about them ----

  /** The two receipts describe one built package at one version. */
  predicate Agree(package: PackageReceipt, registry: RegistryReceipt) {
    && registry.inputReceiptId == package.receiptId && registry.prepared && package.built
    && package.candidate == registry.candidate && package.packageDigest == registry.packageDigest
    && package.manifest.Some? && package.manifest.value.version == registry.version
  }

  /** The text rules a caller can check on the inputs alone. */
  predicate TextAccepted(policy: Policy, package: PackageReceipt, registry: RegistryReceipt, evidence: seq<string>) {
    && policy.safe(package.receiptId) && policy.safe(registry.receiptId) && policy.safe(registry.inputReceiptId)
    && policy.safe(if package.candidate.Some? then package.candidate.value.packageId else registry.packageName)
    && policy.safe(if package.manifest.Some? then package.manifest.value.version else registry.version)
    && policy.Evidence(evidence)
    && (Agree(package, registry) ==> forall f | f in package.manifest.value.files :: policy.safe(f.path))
  }

  lemma PlannedPayload(package: PackageReceipt, registry: RegistryReceipt, current: seq<LockEntry>, target: Target,
      evidence: seq<string>)
    requires package.Valid() && package.built
    ensures var plan := TransitionPlan(package, registry, current, target, evidence);
      plan.planId == Sha256(IdentityPayload(plan))
  {
    var plan := TransitionPlan(package, registry, current, target, evidence);
    assert plan.planId.of == IdentityPayload(plan);
  }

  /** Every plan the planner assembles meets every rule of the validator that relates fields to each
      other, whether it is planned or blocked; in particular its id recomputes. */
  lemma PlansAreConsistent(policy: Policy, package: PackageReceipt, registry: RegistryReceipt,
      current: seq<LockEntry>, target: Target, evidence: seq<string>)
    requires policy.Sane() && package.Valid() && registry.Valid() && ValidLock(current)
    ensures var blocker := IdentityBlocker(policy, package, registry);
      if blocker.Some? then Consistent(policy, BlockedPlan(package, registry, current, target, evidence, blocker.value))
      else package.built && Consistent(policy, TransitionPlan(package, registry, current, target, evidence))
  {
    var blocker := IdentityBlocker(policy, package, registry);
    if blocker.Some? {
    } else {
      PlannedPayload(package, registry, current, target, evidence);
      NoChangeIffUnchanged(current, PlannedEntry(package, registry, target));
    }
  }

  /** The planner returns a plan exactly when the single-field text rules hold of its inputs: no other
      rule of the entry, the lock or the plan can refuse what it builds. The plan is a transition
      exactly when the two receipts agree. */
  lemma PlannerMeetsValidator(policy: Policy, package: PackageReceipt, registry: RegistryReceipt,
      current: seq<LockEntry>, target: Target, evidence: seq<string>)
    requires policy.Sane() && package.Valid() && registry.Valid() && ValidLock(current)
    ensures var outcome := PlanRuntimeInstall(policy, package, registry, current, target, evidence);
      && (outcome.Ok? <==> TextAccepted(policy, package, registry, evidence))
      && (outcome.Ok? ==> Accepted(policy, outcome.value) && (outcome.value.planned <==> Agree(package, registry)))
      && outcome != Err(LockRefused)
  {
    PlansAreConsistent(policy, package, registry, current, target, evidence);
    if Agree(package, registry) {
      ProposeKeepsUnique(current, PlannedEntry(package, registry, target));
    }
  }

  /** A planned transition is one update of the lock's map; `NoChange` is reported exactly when the
      lock stays as it is, and the plan always rolls back to the lock it started from. */
  lemma PlanUpdatesTheLock(policy: Policy, package: PackageReceipt, registry: RegistryReceipt,
      current: seq<LockEntry>, target: Target, evidence: seq<string>)
    requires policy.Sane() && package.Valid() && registry.Valid() && ValidLock(current)
    requires PlanRuntimeInstall(policy, package, registry, current, target, evidence).Ok?
    ensures var plan := PlanRuntimeInstall(policy, package, registry, current, target, evidence).value;
      && plan.rollbackLock == Sha256(current)
      && (plan.planned ==>
            && plan.proposedLock.Some? && plan.proposedEntry.Some? && plan.operation.Some?
            && var proposed := plan.proposedLock.value.of; var entry := plan.proposedEntry.value;
            && ValidLock(proposed) && AsMap(proposed) == AsMap(current)[KeyOf(entry) := entry]
            && KeyOf(entry) == Key(target.scope, target.targetId, package.candidate.value.packageId)
            && (plan.operation.value.NoChange? <==> proposed == current)
            && (plan.operation.value.Install? <==> KeyOf(entry) !in AsMap(current)))
  {
    PlannerMeetsValidator(policy, package, registry, current, target, evidence);
    if Agree(package, registry) {
      var entry := PlannedEntry(package, registry, target);
      ProposeRefinesUpdate(current, entry);
      ProposeKeepsValid(current, entry);
      NoChangeIffUnchanged(current, entry);
    }
  }

  /** Planning again from the proposed lock is accepted, and changes nothing. */
  lemma ReplanningChangesNothing(policy: Policy, package: PackageReceipt, registry: RegistryReceipt,
      current: seq<LockEntry>, target: Target, evidence: seq<string>)
    requires policy.Sane() && package.Valid() && registry.Valid() && ValidLock(current)
    requires Agree(package, registry) && TextAccepted(policy, package, registry, evidence)
    ensures var entry := PlannedEntry(package, registry, target);
      var again := PlanRuntimeInstall(policy, package, registry, Propose(current, entry), target, evidence);
      && again.Ok? && again.value.planned && again.value.operation == Some(NoChange)
      && again.value.proposedLock == Some(Sha256(Propose(current, entry)))
  {
    var entry := PlannedEntry(package, registry, target);
    ProposeKeepsValid(current, entry);
    ReplanIsNoChange(current, entry);
    PlannerMeetsValidator(policy, package, registry, Propose(current, entry), target, evidence);
  }

  /** The blocker of a plan, by the first thing that keeps the receipts from agreeing. */
  predicate Blames(policy: Policy, package: PackageReceipt, registry: RegistryReceipt, blocker: Blocker) {
    if registry.inputReceiptId != package.receiptId then blocker == INPUT_MISMATCH
    else if !registry.prepared then
      if registry.blocker.Some? && policy.SafeBlocker(registry.blocker.value) then blocker == registry.blocker.value
      else blocker == NOT_PORTABLE
    else if !package.built || package.candidate != registry.candidate || package.packageDigest != registry.packageDigest then
      blocker == IDENTITY_MISMATCH
    else blocker == VERSION_MISMATCH
  }

  /** The fields that a plan takes over from its inputs, blocked or not. */
  predicate Describes(plan: InstallPlan, package: PackageReceipt, registry: RegistryReceipt, current: seq<LockEntry>,
      target: Target, evidence: seq<string>)
  {
    && plan.candidate == package.candidate && plan.packageReceiptId == package.receiptId
    && plan.registry == registry.registry && plan.preparationReceiptId == registry.receiptId
    && plan.inputReceiptId == registry.inputReceiptId && plan.packageDigest == package.packageDigest
    && plan.packageName == (if package.candidate.Some? then package.candidate.value.packageId else registry.packageName)
    && plan.version == (if package.manifest.Some? then package.manifest.value.version else registry.version)
    && plan.target == target && plan.evidence == evidence
    && plan.currentLock == Sha256(current) && plan.rollbackLock == Sha256(current)
  }

  /** What a returned plan says: it describes its inputs; a blocked one names what kept the receipts from
      agreeing, and a planned one puts the prepared package in the lock, as an install, an update or no change. */
  lemma PlanMeans(policy: Policy, package: PackageReceipt, registry: RegistryReceipt,
      current: seq<LockEntry>, target: Target, evidence: seq<string>)
    requires policy.Sane() && package.Valid() && registry.Valid() && ValidLock(current)
    requires PlanRuntimeInstall(policy, package, registry, current, target, evidence).Ok?
    ensures var plan := PlanRuntimeInstall(policy, package, registry, current, target, evidence).value;
      && Describes(plan, package, registry, current, target, evidence)
      && (!Agree(package, registry) ==>
            !plan.planned && plan.blocker.Some? && Blames(policy, package, registry, plan.blocker.value))
      && (Agree(package, registry) ==>
            var entry := LockEntry(registry.packageName, registry.version, package.candidate.value,
              package.packageDigest.value, registry.registry, package.receiptId, registry.receiptId, target,
              package.manifest.value.files);
            var before := AsMap(current);
            && plan.planned && plan.blocker.None? && plan.proposedEntry == Some(entry)
            && plan.operation == Some(if KeyOf(entry) !in before then Install
                                      else if before[KeyOf(entry)] == entry then NoChange
                                      else Update))
  {
    PlannerMeetsValidator(policy, package, registry, current, target, evidence);
    if Agree(package, registry) {
      var entry := PlannedEntry(package, registry, target);
      OperationMeans(current, entry);
    }
  }

  /** A refusal comes from the entry exactly when the receipts agree and the entry's own text is refused. */
  lemma RefusalMeans(policy: Policy, package: PackageReceipt, registry: RegistryReceipt,
      current: seq<LockEntry>, target: Target, evidence: seq<string>)
    requires policy.Sane() && package.Valid() && registry.Valid() && ValidLock(current)
    ensures var outcome := PlanRuntimeInstall(policy, package, registry, current, target, evidence);
      outcome == Err(EntryRefused) <==>
      && Agree(package, registry)
      && (|| !policy.safe(registry.packageName) || !policy.safe(registry.version)
          || !policy.safe(package.receiptId) || !policy.safe(registry.receiptId)
          || exists f | f in package.manifest.value.files :: !policy.safe(f.path))
  {
    PlannerMeetsValidator(policy, package, registry, current, target, evidence);
    PlansAreConsistent(policy, package, registry, current, target, evidence);
  }

  lemma CommonIdentity(p: InstallPlan, q: InstallPlan)
    requires IdentityPayload(p) == IdentityPayload(q)
    ensures p.candidate == q.candidate && p.packageDigest == q.packageDigest
  {
    var a, b := IdentityPayload(p), IdentityPayload(q);
    assert a[FCandidate] == b[FCandidate];
    assert a[FPackageDigest] == b[FPackageDigest];
  }

  lemma CommonNames(p: InstallPlan, q: InstallPlan)
    requires IdentityPayload(p) == IdentityPayload(q)
    ensures p.packageName == q.packageName && p.version == q.version && p.packageReceiptId == q.packageReceiptId
  {
    var a, b := IdentityPayload(p), IdentityPayload(q);
    assert a[FPackageName] == b[FPackageName] && a[FVersion] == b[FVersion];
    assert a[FPackageReceipt] == b[FPackageReceipt];
  }

  lemma CommonRegistry(p: InstallPlan, q: InstallPlan)
    requires IdentityPayload(p) == IdentityPayload(q)
    ensures p.registry == q.registry && p.preparationReceiptId == q.preparationReceiptId
  {
    var a, b := IdentityPayload(p), IdentityPayload(q);
    assert a[FRegistry] == b[FRegistry] && a[FPreparationReceipt] == b[FPreparationReceipt];
  }

  lemma CommonContext(p: InstallPlan, q: InstallPlan)
    requires IdentityPayload(p) == IdentityPayload(q)
    ensures p.planned == q.planned && p.inputReceiptId == q.inputReceiptId
    ensures p.currentLock == q.currentLock && p.target == q.target && p.evidence == q.evidence
  {
    var a, b := IdentityPayload(p), IdentityPayload(q);
    assert a[FStatus] == b[FStatus];
    assert a[FInputReceipt] == b[FInputReceipt] && a[FCurrentLock] == b[FCurrentLock];
    assert a[FTarget] == b[FTarget] && a[FEvidence] == b[FEvidence];
  }

  lemma TransitionFields(p: InstallPlan, q: InstallPlan)
    requires IdentityPayload(p) == IdentityPayload(q) && p.planned == q.planned
    ensures p.planned ==>
      p.operation == q.operation && p.proposedLock == q.proposedLock && p.proposedEntry == q.proposedEntry
    ensures !p.planned ==> p.blocker == q.blocker
  {
    var a, b := IdentityPayload(p), IdentityPayload(q);
    if p.planned {
      assert a[FOperation] == b[FOperation] && a[FProposedLock] == b[FProposedLock];
      assert a[FProposedEntry] == b[FProposedEntry];
    } else {
      assert a[FBlocker] == b[FBlocker];
    }
  }

  /** The plan id binds the complete plan: two accepted plans with one id are the same plan. */
  lemma PlanIdBindsPlan(policy: Policy, p: InstallPlan, q: InstallPlan)
    requires Accepted(policy, p) && Accepted(policy, q) && p.planId == q.planId
    ensures p == q
  {
    assert IdentityPayload(p) == p.planId.of == q.planId.of == IdentityPayload(q);
    CommonIdentity(p, q);
    CommonNames(p, q);
    CommonRegistry(p, q);
    CommonContext(p, q);
    TransitionFields(p, q);
  }
}
