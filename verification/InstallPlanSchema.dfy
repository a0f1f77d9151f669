/** The generated constraints on install plans: what they mean, and that they accept whatever the model
    accepts. */
module InstallPlanSchema {
  import opened Common
  import opened JsonSchema
  import opened RuntimeLock
  import P = Planner

  /** How the nested classes and the lock digests are written, and the definitions they satisfy. */
  datatype Codec = Codec(
    candidate: Candidate -> Json, entry: LockEntry -> Json, blocker: P.Blocker -> Json, digest: P.LockDigest -> Word,
    defs: Definitions)
  {
    ghost predicate Valid() {
      && (forall c :: defs(DCandidate, candidate(c)) && candidate(c) != JNull)
      && (forall e :: defs(DEntry, entry(e)) && entry(e) != JNull)
      && (forall b :: defs(DBlocker, blocker(b)) && blocker(b) != JNull)
      && (forall d :: Matches(Sha256Regex, digest(d)))
    }

    function Fields(plan: P.InstallPlan): map<Word, Json> {
      map[
        WCandidate := if plan.candidate.Some? then candidate(plan.candidate.value) else JNull,
        WPackageDigest := OptionalText(plan.packageDigest),
        WOperation := if plan.operation.Some? then JString(OperationWord(plan.operation.value)) else JNull,
        WProposedLock := if plan.proposedLock.Some? then JString(digest(plan.proposedLock.value)) else JNull,
        WProposedEntry := if plan.proposedEntry.Some? then entry(plan.proposedEntry.value) else JNull,
        WBlocker := if plan.blocker.Some? then blocker(plan.blocker.value) else JNull]
    }
  }

  function OperationWord(operation: Operation): Word {
    match operation
    case Install => WInstall
    case Update => WUpdate
    case NoChange => WNoChange
  }

  /** A payload from which the model reads this plan: optional fields may be left out when empty. */
  predicate WritesPlan(codec: Codec, v: Json, plan: P.InstallPlan) {
    && v.JObject? && HasValue(v.members, WStatus, JString(if plan.planned then WPlanned else WBlocked))
    && HasValue(v.members, WEvidence, Texts(plan.evidence))
    && forall name | name in codec.Fields(plan) :: Writes(v.members, name, codec.Fields(plan)[name])
  }

  predicate Writes(m: map<Word, Json>, name: Word, value: Json) {
    if name in m then m[name] == value else value == JNull
  }

  // ---- The generated constraints ----

  const PLANNED_NAMES := [WCandidate, WPackageDigest, WOperation, WProposedLock, WProposedEntry]

  const OPERATIONS := [JString(WInstall), JString(WUpdate), JString(WNoChange)]

  const DIGEST := Schema([OfType(TString), Pattern(Sha256Regex)])

  const PLANNED_CLASSES := Schema([Property(WCandidate, Schema([Ref(DCandidate)]))] +
    [Property(WProposedEntry, Schema([Ref(DEntry)])), Property(WBlocker, Schema([OfType(TNull)]))])

  const PLANNED_TEXTS := Schema([Property(WPackageDigest, DIGEST)] +
    [Property(WProposedLock, DIGEST), Property(WOperation, Schema([Enum(OPERATIONS)]))])

  const PLANNED_RULE := Schema([Required(PLANNED_NAMES)] + [AllOf([PLANNED_CLASSES]), AllOf([PLANNED_TEXTS])])

  const BLOCKED_NULLS := Schema([Property(WOperation, Schema([OfType(TNull)]))] +
    [Property(WProposedLock, Schema([OfType(TNull)])), Property(WProposedEntry, Schema([OfType(TNull)]))])

  const BLOCKED_RULE := Schema([Required([WBlocker])] + [Property(WBlocker, Schema([Ref(DBlocker)])), AllOf([BLOCKED_NULLS])])

  // ---- What the constraints mean of an object ----

  predicate IsDigest(v: Json) {
    v.JString? && Matches(Sha256Regex, v.word)
  }

  predicate PlannedShape(m: map<Word, Json>, defs: Definitions) {
    && Defined(m, WCandidate, DCandidate, defs) && Defined(m, WProposedEntry, DEntry, defs) && Null(m, WBlocker)
    && WPackageDigest in m && IsDigest(m[WPackageDigest])
    && WProposedLock in m && IsDigest(m[WProposedLock])
    && WOperation in m && m[WOperation] in OPERATIONS
  }

  predicate BlockedShape(m: map<Word, Json>, defs: Definitions) {
    && Defined(m, WBlocker, DBlocker, defs)
    && Null(m, WOperation) && Null(m, WProposedLock) && Null(m, WProposedEntry)
  }

  predicate PlanShape(m: map<Word, Json>, defs: Definitions) {
    && (HasValue(m, WStatus, JString(WPlanned)) ==> PlannedShape(m, defs))
    && (HasValue(m, WStatus, JString(WBlocked)) ==> BlockedShape(m, defs))
  }

  lemma DigestProperty(name: Word, v: JsonObject, defs: Definitions)
    ensures Holds(Property(name, DIGEST), v, defs) <==> (name in v.members ==> IsDigest(v.members[name]))
  {
    PropertyMeans(name, DIGEST, v, defs);
    if name in v.members { Two(OfType(TString), Pattern(Sha256Regex), v.members[name], defs); }
  }

  lemma OperationProperty(v: JsonObject, defs: Definitions)
    ensures Holds(Property(WOperation, Schema([Enum(OPERATIONS)])), v, defs)
      <==> (WOperation in v.members ==> v.members[WOperation] in OPERATIONS)
  {
    PropertyMeans(WOperation, Schema([Enum(OPERATIONS)]), v, defs);
    if WOperation in v.members { One(Enum(OPERATIONS), v.members[WOperation], defs); }
  }

  lemma ClassesMean(v: JsonObject, defs: Definitions)
    requires WCandidate in v.members && WProposedEntry in v.members
    ensures Validates(PLANNED_CLASSES, v, defs) <==>
      && defs(DCandidate, v.members[WCandidate]) && defs(DEntry, v.members[WProposedEntry]) && Null(v.members, WBlocker)
  {
    Three(Property(WCandidate, Schema([Ref(DCandidate)])), Property(WProposedEntry, Schema([Ref(DEntry)])),
      Property(WBlocker, Schema([OfType(TNull)])), v, defs);
    RefProperty(WCandidate, DCandidate, v, defs);
    RefProperty(WProposedEntry, DEntry, v, defs);
    TypeProperty(WBlocker, TNull, v, defs);
  }

  lemma TextsMean(v: JsonObject, defs: Definitions)
    requires WPackageDigest in v.members && WProposedLock in v.members && WOperation in v.members
    ensures Validates(PLANNED_TEXTS, v, defs) <==>
      && IsDigest(v.members[WPackageDigest]) && IsDigest(v.members[WProposedLock])
      && v.members[WOperation] in OPERATIONS
  {
    Three(Property(WPackageDigest, DIGEST), Property(WProposedLock, DIGEST),
      Property(WOperation, Schema([Enum(OPERATIONS)])), v, defs);
    DigestProperty(WPackageDigest, v, defs);
    DigestProperty(WProposedLock, v, defs);
    OperationProperty(v, defs);
  }

  lemma PlannedMeans(v: JsonObject, defs: Definitions)
    ensures Validates(PLANNED_RULE, v, defs) <==> PlannedShape(v.members, defs)
  {
    Three(Required(PLANNED_NAMES), AllOf([PLANNED_CLASSES]), AllOf([PLANNED_TEXTS]), v, defs);
    SingleAllOf(PLANNED_CLASSES, v, defs);
    SingleAllOf(PLANNED_TEXTS, v, defs);
    if Holds(Required(PLANNED_NAMES), v, defs) {
      ClassesMean(v, defs);
      TextsMean(v, defs);
    }
  }

  lemma NullsMean(v: JsonObject, defs: Definitions)
    ensures Validates(BLOCKED_NULLS, v, defs)
      <==> Null(v.members, WOperation) && Null(v.members, WProposedLock) && Null(v.members, WProposedEntry)
  {
    Three(Property(WOperation, Schema([OfType(TNull)])), Property(WProposedLock, Schema([OfType(TNull)])),
      Property(WProposedEntry, Schema([OfType(TNull)])), v, defs);
    TypeProperty(WOperation, TNull, v, defs);
    TypeProperty(WProposedLock, TNull, v, defs);
    TypeProperty(WProposedEntry, TNull, v, defs);
  }

  lemma BlockedMeans(v: JsonObject, defs: Definitions)
    ensures Validates(BLOCKED_RULE, v, defs) <==> BlockedShape(v.members, defs)
  {
    Three(Required([WBlocker]), Property(WBlocker, Schema([Ref(DBlocker)])), AllOf([BLOCKED_NULLS]), v, defs);
    RefProperty(WBlocker, DBlocker, v, defs);
    SingleAllOf(BLOCKED_NULLS, v, defs);
    NullsMean(v, defs);
  }

  lemma PlanRulesMean(v: JsonObject, defs: Definitions)
    ensures Validates(Schema([AllOf([
        Conditional(When(WStatus, JString(WPlanned)), PLANNED_RULE),
        Conditional(When(WStatus, JString(WBlocked)), BLOCKED_RULE)])]), v, defs)
      <==> PlanShape(v.members, defs)
  {
    BothMean(Conditional(When(WStatus, JString(WPlanned)), PLANNED_RULE),
      Conditional(When(WStatus, JString(WBlocked)), BLOCKED_RULE), v, defs);
    WhenThen(WStatus, JString(WPlanned), PLANNED_RULE, v, defs);
    WhenThen(WStatus, JString(WBlocked), BLOCKED_RULE, v, defs);
    PlannedMeans(v, defs);
    BlockedMeans(v, defs);
  }

  /** The install-plan branch of `append_runtime_lifecycle_constraints`: the finished document accepts
      exactly the payloads of the stated shape. */
  method AppendInstallPlanConstraints(schema: Document)
    modifies schema
    ensures forall v: JsonObject, defs: Definitions ::
      schema.Accepts(v, defs) <==>
      old(schema.Fields(v, defs)) && UniqueArray(v.members, WEvidence) && PlanShape(v.members, defs)
  {
    schema.RequireUnique(WEvidence);
    schema.allOf := [
      Conditional(When(WStatus, JString(WPlanned)), PLANNED_RULE),
      Conditional(When(WStatus, JString(WBlocked)), BLOCKED_RULE)];
    forall v: JsonObject, defs: Definitions
      ensures Validates(Schema([AllOf(schema.allOf)]), v, defs) <==> PlanShape(v.members, defs)
    {
      PlanRulesMean(v, defs);
    }
  }

  // ---- What the model accepts has this shape ----

  /** A field that is set is written, and one that is not is absent or null. */
  lemma Reads(codec: Codec, v: Json, plan: P.InstallPlan, name: Word)
    requires WritesPlan(codec, v, plan) && name in codec.Fields(plan)
    ensures codec.Fields(plan)[name] != JNull ==> HasValue(v.members, name, codec.Fields(plan)[name])
    ensures codec.Fields(plan)[name] == JNull ==> Null(v.members, name)
  {
    assert Writes(v.members, name, codec.Fields(plan)[name]);
  }

  lemma PlannedHasShape(codec: Codec, v: Json, plan: P.InstallPlan)
    requires codec.Valid() && WritesPlan(codec, v, plan) && P.PlannedState(plan) && P.TypedDigests(plan)
    ensures PlannedShape(v.members, codec.defs)
  {
    Reads(codec, v, plan, WCandidate);
    Reads(codec, v, plan, WProposedEntry);
    Reads(codec, v, plan, WBlocker);
    Reads(codec, v, plan, WPackageDigest);
    Reads(codec, v, plan, WProposedLock);
    Reads(codec, v, plan, WOperation);
  }

  lemma BlockedHasShape(codec: Codec, v: Json, plan: P.InstallPlan, policy: P.Policy)
    requires codec.Valid() && WritesPlan(codec, v, plan) && P.BlockedState(policy, plan)
    ensures BlockedShape(v.members, codec.defs)
  {
    Reads(codec, v, plan, WOperation);
    Reads(codec, v, plan, WProposedLock);
    Reads(codec, v, plan, WProposedEntry);
    Reads(codec, v, plan, WBlocker);
  }

  /** Every payload of a plan that the model accepts satisfies the generated constraints. */
  lemma PlanProjectionIsSound(codec: Codec, v: Json, plan: P.InstallPlan, policy: P.Policy)
    requires codec.Valid() && WritesPlan(codec, v, plan) && P.Accepted(policy, plan)
    ensures UniqueArray(v.members, WEvidence) && PlanShape(v.members, codec.defs)
  {
    TextsDistinct(plan.evidence);
    if plan.planned { PlannedHasShape(codec, v, plan); } else { BlockedHasShape(codec, v, plan, policy); }
  }

  /** Every plan the planner returns is accepted by the generated schema as well. */
  lemma PlannerMeetsSchema(codec: Codec, v: Json, policy: P.Policy, package: P.PackageReceipt, registry: P.RegistryReceipt,
      current: seq<LockEntry>, target: Target, evidence: seq<string>)
    requires policy.Sane() && package.Valid() && registry.Valid() && ValidLock(current) && codec.Valid()
    requires var outcome := P.PlanRuntimeInstall(policy, package, registry, current, target, evidence);
      outcome.Ok? && WritesPlan(codec, v, outcome.value)
    ensures UniqueArray(v.members, WEvidence) && PlanShape(v.members, codec.defs)
  {
    P.PlannerMeetsValidator(policy, package, registry, current, target, evidence);
    PlanProjectionIsSound(codec, v, P.PlanRuntimeInstall(policy, package, registry, current, target, evidence).value, policy);
  }
}
