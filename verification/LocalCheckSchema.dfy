/** The generated local-check constraints against the local-check model. */
module LocalCheckSchema {
  import opened Common
  import opened JsonSchema
  import opened LocalCheck

  // ---- The wire form of a result ----

  function NameWord(kind: Kind): Word {
    match kind
    case Intake => WIntake
    case Validate => WValidate
    case ScenarioQuality => WScenarioQuality
    case ScorerQuality => WScorerQuality
    case ScorerCalibration => WScorerCalibration
  }

  function TypeOf(kind: Kind): Definition {
    match kind
    case Intake => DIntakeReceipt
    case Validate => DValidation
    case ScenarioQuality => DScenarioReceipt
    case ScorerQuality => DScorerReceipt
    case ScorerCalibration => DCalibrationReceipt
  }

  /** The status of a receipt that lets the run go on. */
  function ClearWord(kind: Kind): Word {
    if kind.Intake? then WNormalized else WPass
  }

  function StatusWord(r: Receipt): Word {
    if r.clear then ClearWord(r.kind) else WBlocked
  }

  function EncodeReceipt(r: Receipt): Json {
    JObject(map[
      WSchemaVersion := JString(NameWord(r.kind)),
      WCandidate := OptionalText(r.candidate),
      WStatus := JString(StatusWord(r)),
      WDecision := if r.decision.Some? then JBool(r.decision.value) else JNull,
      WDetail := JString(Text(r.detail))])
  }

  function EncodeStage(s: Stage): Json {
    JObject(map[WName := JString(NameWord(s.name)), WReceipt := EncodeReceipt(s.receipt)])
  }

  function EncodeBlocker(b: Blocker): Json {
    JObject(map[
      WCode := JString(if b.code.UnsupportedContextRead? then WUnsupportedContextRead else Text(b.code.text)),
      WDetail := if b.text.PipelineText? then JNull else JString(Text(b.text.text))])
  }

  function EncodeStages(stages: seq<Stage>): Json {
    JArray(seq(|stages|, i requires 0 <= i < |stages| => EncodeStage(stages[i])))
  }

  function EncodeBlockedStage(b: Option<BlockedStage>): Json {
    if b.None? then JNull
    else JString(if b.value.Context? then WContext else if b.value.CandidateChanged? then WCandidateChanged else NameWord(b.value.kind))
  }

  /** `model_dump(mode="json")`: every field is written, defaults included. */
  function Encode(r: LocalCheckResult): Json {
    JObject(map[
      WSchemaVersion := JString(Text("local-check/v1")),
      WWorkflow := JString(Text("local-check")),
      WStatus := JString(if r.passed then WLocalChecksPassed else WBlocked),
      WCandidate := OptionalText(r.candidate),
      WBlockedStage := EncodeBlockedStage(r.blockedStage),
      WStages := EncodeStages(r.stages),
      WBlocker := if r.blocker.Some? then EncodeBlocker(r.blocker.value) else JNull,
      WPromotionAuthorized := JBool(false),
      WMutationPerformed := JBool(false),
      WNetworkUsed := JBool(false),
      WExecutionPerformed := JBool(false)])
  }

  /** The class definitions in the document, as far as their shape goes: a receipt class is told by its
      schema version. */
  predicate Defs(d: Definition, v: Json) {
    match d
    case DCandidate => v.JString?
    case DBlocker => v.JObject? && WCode in v.members && v.members[WCode].JString?
    case DStage => v.JObject? && WName in v.members && WReceipt in v.members
    case DIntakeReceipt => ReceiptOf(Intake, v)
    case DValidation => ReceiptOf(Validate, v)
    case DScenarioReceipt => ReceiptOf(ScenarioQuality, v)
    case DScorerReceipt => ReceiptOf(ScorerQuality, v)
    case DCalibrationReceipt => ReceiptOf(ScorerCalibration, v)
    case DEntry => false
  }

  predicate ReceiptOf(kind: Kind, v: Json) {
    v.JObject? && WSchemaVersion in v.members && v.members[WSchemaVersion] == JString(NameWord(kind))
  }

  // ---- The generated constraints ----

  /** `_stage`. */
  function StageSchema(kind: Kind, status: Option<Word>): Schema {
    Schema([AllOf([Schema([Ref(DStage)]), StageFields(kind, ReceiptSchema(kind, status))])])
  }

  function StageFields(kind: Kind, receipt: Schema): Schema {
    Schema([Property(WName, Schema([Const(JString(NameWord(kind)))]))] +
      [Property(WReceipt, receipt), Required([WName, WReceipt])])
  }

  function ReceiptSchema(kind: Kind, status: Option<Word>): Schema {
    var receipt := Schema([Ref(TypeOf(kind))]);
    if status.None? then receipt else Schema([AllOf([receipt, When(WStatus, JString(status.value))])])
  }

  const COUNT: nat := 5

  /** The place of a stage, and a number of stages. */
  type Place = i: nat | i < COUNT

  type Number = n: nat | n <= COUNT

  function AnyStages(n: Number): seq<Schema> {
    seq(n, i requires 0 <= i < n => StageSchema(ORDER[i], None))
  }

  function ClearStages(n: Number): seq<Schema> {
    seq(n, i requires 0 <= i < n => StageSchema(ORDER[i], Some(ClearWord(ORDER[i]))))
  }

  const ALLOWED_STAGES := Schema([Property(WStages, Schema([Items(AnyStages(COUNT), Never), MaxItems(COUNT)]))])

  function PassedRule(clear: seq<Schema>): Schema {
    Schema([Property(WCandidate, Schema([Ref(DCandidate)]))] +
      ([Property(WBlockedStage, Schema([OfType(TNull)]))] +
        [Property(WBlocker, Schema([OfType(TNull)])),
         Property(WStages, Schema([MinItems(COUNT)] + [MaxItems(COUNT), Items(clear, ANY)]))]))
  }

  const PASSED_SHAPE := PassedRule(ClearStages(COUNT))

  const PASSED := Conditional(When(WStatus, JString(WLocalChecksPassed)), PASSED_SHAPE)

  const STATUS_BLOCKED := Property(WStatus, Schema([Const(JString(WBlocked))]))

  const CODE_SHAPE := Schema([Property(WCode, Schema([Const(JString(WUnsupportedContextRead))]))])

  const CONTEXT_BLOCKER_SHAPE := Schema([AllOf([Schema([Ref(DBlocker)]), CODE_SHAPE])])

  const CONTEXT_SHAPE := Schema([STATUS_BLOCKED] + ([Property(WCandidate, Schema([OfType(TNull)]))] +
    [Property(WStages, Schema([MaxItems(0)])), Property(WBlocker, CONTEXT_BLOCKER_SHAPE)]))

  const STAGED_SHAPE := Schema([Property(WStages, Schema([MinItems(1)])), Property(WBlocker, Schema([OfType(TNull)]))])

  const CONTEXT := Schema([If(When(WBlockedStage, JString(WContext)), CONTEXT_SHAPE, STAGED_SHAPE)])

  const CHANGED_SHAPE := Schema([STATUS_BLOCKED, Property(WStages, Schema([MinItems(2)]))])

  const CHANGED := Conditional(When(WBlockedStage, JString(WCandidateChanged)), CHANGED_SHAPE)

  const BLOCKED_SHAPE := Schema([Property(WBlockedStage, Schema([OfType(TString)]))])

  const BLOCKED := Conditional(When(WStatus, JString(WBlocked)), BLOCKED_SHAPE)

  /** The constraint for a run blocked at the stage with index `i`. */
  function BlockedAt(i: Place): Schema {
    Conditional(When(WBlockedStage, JString(NameWord(ORDER[i]))), BlockedAtShape(i))
  }

  function BlockedAtShape(i: Place): Schema {
    Schema([STATUS_BLOCKED, Property(WStages, StopSchema(i))])
  }

  function StopSchema(i: Place): Schema {
    Schema([MinItems(i + 1)] + [MaxItems(i + 1), Items(StagesUpTo(i), ANY)])
  }

  function StagesUpTo(i: Place): seq<Schema> {
    ClearStages(i) + [StageSchema(ORDER[i], if i > 0 then Some(WBlocked) else None)]
  }

  const REQUIRED: seq<Word> := [
    WSchemaVersion, WWorkflow, WStatus, WCandidate, WBlockedStage, WStages, WBlocker, WPromotionAuthorized,
    WMutationPerformed, WNetworkUsed, WExecutionPerformed]

  function BlockedStages(n: Number): seq<Schema> {
    seq(n, i requires 0 <= i < n => BlockedAt(i))
  }

  const FIXED: seq<Schema> := [ALLOWED_STAGES, PASSED, CONTEXT, CHANGED, BLOCKED]

  function Constraints(): seq<Schema> {
    FIXED + BlockedStages(COUNT)
  }

  /** The generated document accepts a value. */
  predicate SchemaAccepts(v: Json) {
    Validates(Schema([Required(REQUIRED), AllOf(Constraints())]), v, Defs)
  }

  // ---- What each constraint means of a result ----

  predicate StageIs(s: Stage, kind: Kind) {
    s.name == kind && s.receipt.kind == kind
  }

  lemma NameMeans(kind: Kind, s: Stage)
    ensures Holds(Property(WName, Schema([Const(JString(NameWord(kind)))])), EncodeStage(s), Defs) <==> s.name == kind
  {
    PropertyMeans(WName, Schema([Const(JString(NameWord(kind)))]), EncodeStage(s), Defs);
    ConstMeans(JString(NameWord(kind)), JString(NameWord(s.name)), Defs);
  }

  lemma FieldsMean(kind: Kind, receipt: Schema, s: Stage)
    ensures Validates(StageFields(kind, receipt), EncodeStage(s), Defs)
      <==> s.name == kind && Validates(receipt, EncodeReceipt(s.receipt), Defs)
  {
    var v := EncodeStage(s);
    var name := Property(WName, Schema([Const(JString(NameWord(kind)))]));
    var rest := [Property(WReceipt, receipt), Required([WName, WReceipt])];
    More(name, rest, v, Defs);
    Two(rest[0], rest[1], v, Defs);
    NameMeans(kind, s);
    PropertyMeans(WReceipt, receipt, v, Defs);
  }

  lemma WrappedFields(fields: Schema, s: Stage)
    ensures Validates(Schema([AllOf([Schema([Ref(DStage)]), fields])]), EncodeStage(s), Defs)
      <==> Validates(fields, EncodeStage(s), Defs)
  {
    BothMean(Schema([Ref(DStage)]), fields, EncodeStage(s), Defs);
  }

  lemma StageMeans(kind: Kind, status: Option<Word>, s: Stage)
    ensures Validates(StageSchema(kind, status), EncodeStage(s), Defs)
      <==> StageIs(s, kind) && (status.Some? ==> StatusWord(s.receipt) == status.value)
  {
    WrappedFields(StageFields(kind, ReceiptSchema(kind, status)), s);
    FieldsMean(kind, ReceiptSchema(kind, status), s);
    ReceiptMeans(kind, status, s.receipt);
  }

  lemma ReceiptMeans(kind: Kind, status: Option<Word>, r: Receipt)
    ensures Validates(ReceiptSchema(kind, status), EncodeReceipt(r), Defs)
      <==> r.kind == kind && (status.Some? ==> StatusWord(r) == status.value)
  {
    TypeMeans(kind, r);
    if status.Some? { WithStatus(Schema([Ref(TypeOf(kind))]), status.value, EncodeReceipt(r)); }
  }

  lemma WithStatus(receipt: Schema, status: Word, v: Json)
    requires v.JObject?
    ensures Validates(Schema([AllOf([receipt, When(WStatus, JString(status))])]), v, Defs)
      <==> Validates(receipt, v, Defs) && HasValue(v.members, WStatus, JString(status))
  {
    BothMean(receipt, When(WStatus, JString(status)), v, Defs);
    WhenMeans(WStatus, JString(status), v, Defs);
  }

  lemma TypeMeans(kind: Kind, r: Receipt)
    ensures Validates(Schema([Ref(TypeOf(kind))]), EncodeReceipt(r), Defs) <==> r.kind == kind
  {
    One(Ref(TypeOf(kind)), EncodeReceipt(r), Defs);
  }

  lemma ClearMeans(kind: Kind, s: Stage)
    ensures Validates(StageSchema(kind, Some(ClearWord(kind))), EncodeStage(s), Defs) <==> StageIs(s, kind) && s.receipt.clear
    ensures Validates(StageSchema(kind, Some(WBlocked)), EncodeStage(s), Defs) <==> StageIs(s, kind) && !s.receipt.clear
    ensures Validates(StageSchema(kind, None), EncodeStage(s), Defs) <==> StageIs(s, kind)
  {
    StageMeans(kind, Some(ClearWord(kind)), s);
    StageMeans(kind, Some(WBlocked), s);
    StageMeans(kind, None, s);
  }

  // ---- Stage lists ----

  predicate Ordered(stages: seq<Stage>) {
    |stages| <= COUNT && forall i | 0 <= i < |stages| :: StageIs(stages[i], ORDER[i])
  }

  predicate ClearUpTo(stages: seq<Stage>, n: Number) {
    forall i | 0 <= i < n && i < |stages| :: StageIs(stages[i], ORDER[i]) && stages[i].receipt.clear
  }

  lemma AnyItems(stages: seq<Stage>)
    requires |stages| <= COUNT
    ensures Holds(Items(AnyStages(COUNT), Never), EncodeStages(stages), Defs) <==> Ordered(stages)
  {
    var v := EncodeStages(stages);
    forall i | 0 <= i < |stages|
      ensures Validates(AnyStages(COUNT)[i], v.items[i], Defs) <==> StageIs(stages[i], ORDER[i])
    {
      ClearMeans(ORDER[i], stages[i]);
    }
  }

  lemma ClearItems(n: Number, stages: seq<Stage>)
    ensures Holds(Items(ClearStages(n), ANY), EncodeStages(stages), Defs) <==> ClearUpTo(stages, n)
  {
    var v := EncodeStages(stages);
    forall i | 0 <= i < |stages| && i < n
      ensures Validates(ClearStages(n)[i], v.items[i], Defs) <==> StageIs(stages[i], ORDER[i]) && stages[i].receipt.clear
    {
      ClearMeans(ORDER[i], stages[i]);
    }
    forall i | 0 <= i < |stages| ensures Validates(ANY, v.items[i], Defs) { AnyValidates(v.items[i], Defs); }
  }

  /** The stages up to `i`: all clear but the last, which is blocked unless it is the intake. */
  predicate StopsAt(stages: seq<Stage>, i: Place) {
    ClearUpTo(stages, i) && (i < |stages| ==> StageIs(stages[i], ORDER[i]) && (i > 0 ==> !stages[i].receipt.clear))
  }

  lemma StopItems(i: Place, stages: seq<Stage>)
    ensures Holds(Items(StagesUpTo(i), ANY), EncodeStages(stages), Defs) <==> StopsAt(stages, i)
  {
    var v := EncodeStages(stages);
    forall j | 0 <= j < |stages| && j <= i
      ensures Validates(StagesUpTo(i)[j], v.items[j], Defs) <==>
        && StageIs(stages[j], ORDER[j])
        && (j < i ==> stages[j].receipt.clear) && (j == i > 0 ==> !stages[j].receipt.clear)
    {
      ClearMeans(ORDER[j], stages[j]);
    }
    forall j | 0 <= j < |stages| ensures Validates(ANY, v.items[j], Defs) { AnyValidates(v.items[j], Defs); }
  }

  // ---- The constraints ----

  lemma TypeOfMeans(t: Type, v: Json)
    ensures Validates(Schema([OfType(t)]), v, Defs) <==> HasType(v, t)
  {
    One(OfType(t), v, Defs);
  }

  /** The fields of a payload that the constraints look at are those of this result. */
  predicate Writes(v: Json, r: LocalCheckResult) {
    && v.JObject?
    && HasValue(v.members, WStatus, JString(if r.passed then WLocalChecksPassed else WBlocked))
    && HasValue(v.members, WCandidate, OptionalText(r.candidate))
    && HasValue(v.members, WBlockedStage, EncodeBlockedStage(r.blockedStage))
    && HasValue(v.members, WStages, EncodeStages(r.stages))
    && HasValue(v.members, WBlocker, if r.blocker.Some? then EncodeBlocker(r.blocker.value) else JNull)
  }

  lemma AllowedMeans(v: Json, r: LocalCheckResult)
    requires Writes(v, r)
    ensures Validates(ALLOWED_STAGES, v, Defs) <==> Ordered(r.stages)
  {
    var stages := EncodeStages(r.stages);
    var items := Schema([Items(AnyStages(COUNT), Never), MaxItems(COUNT)]);
    One(Property(WStages, items), v, Defs);
    PropertyMeans(WStages, items, v, Defs);
    Two(Items(AnyStages(COUNT), Never), MaxItems(COUNT), stages, Defs);
    if |r.stages| <= COUNT { AnyItems(r.stages); }
  }

  predicate PassedShape(r: LocalCheckResult) {
    && r.candidate.Some? && r.blockedStage.None? && r.blocker.None?
    && |r.stages| == COUNT && ClearUpTo(r.stages, COUNT)
  }

  lemma FullStages(v: Json, r: LocalCheckResult)
    requires Writes(v, r)
    ensures Holds(Property(WStages, Schema([MinItems(COUNT)] + [MaxItems(COUNT), Items(ClearStages(COUNT), ANY)])), v, Defs)
      <==> |r.stages| == COUNT && ClearUpTo(r.stages, COUNT)
  {
    var stages := EncodeStages(r.stages);
    var items := Schema([MinItems(COUNT)] + [MaxItems(COUNT), Items(ClearStages(COUNT), ANY)]);
    PropertyMeans(WStages, items, v, Defs);
    More(MinItems(COUNT), [MaxItems(COUNT), Items(ClearStages(COUNT), ANY)], stages, Defs);
    Two(MaxItems(COUNT), Items(ClearStages(COUNT), ANY), stages, Defs);
    ClearItems(COUNT, r.stages);
  }

  lemma CandidateProperty(v: Json, r: LocalCheckResult)
    requires Writes(v, r)
    ensures Holds(Property(WCandidate, Schema([Ref(DCandidate)])), v, Defs) <==> r.candidate.Some?
  {
    PropertyMeans(WCandidate, Schema([Ref(DCandidate)]), v, Defs);
    One(Ref(DCandidate), OptionalText(r.candidate), Defs);
  }

  lemma PassedShapeMeans(v: Json, r: LocalCheckResult)
    requires Writes(v, r)
    ensures Validates(PASSED_SHAPE, v, Defs) <==> PassedShape(r)
  {
    Four(Property(WCandidate, Schema([Ref(DCandidate)])), Property(WBlockedStage, Schema([OfType(TNull)])),
      Property(WBlocker, Schema([OfType(TNull)])),
      Property(WStages, Schema([MinItems(COUNT)] + [MaxItems(COUNT), Items(ClearStages(COUNT), ANY)])), v, Defs);
    CandidateProperty(v, r);
    TypeProperty(WBlockedStage, TNull, v, Defs);
    TypeProperty(WBlocker, TNull, v, Defs);
    FullStages(v, r);
  }

  lemma PassedMeans(v: Json, r: LocalCheckResult)
    requires Writes(v, r)
    ensures Validates(PASSED, v, Defs) <==> (r.passed ==> PassedShape(r))
  {
    WhenThen(WStatus, JString(WLocalChecksPassed), PASSED_SHAPE, v, Defs);
    PassedShapeMeans(v, r);
  }

  predicate ContextShape(r: LocalCheckResult) {
    !r.passed && r.candidate.None? && r.stages == [] && r.blocker.Some? && r.blocker.value.code.UnsupportedContextRead?
  }

  lemma ContextBlockerMeans(v: Json, r: LocalCheckResult)
    requires Writes(v, r)
    ensures Holds(Property(WBlocker, CONTEXT_BLOCKER_SHAPE), v, Defs)
      <==> r.blocker.Some? && r.blocker.value.code.UnsupportedContextRead?
  {
    var b := v.members[WBlocker];
    PropertyMeans(WBlocker, CONTEXT_BLOCKER_SHAPE, v, Defs);
    BothMean(Schema([Ref(DBlocker)]), CODE_SHAPE, b, Defs);
    One(Ref(DBlocker), b, Defs);
    if r.blocker.Some? {
      One(Property(WCode, Schema([Const(JString(WUnsupportedContextRead))])), b, Defs);
      PropertyMeans(WCode, Schema([Const(JString(WUnsupportedContextRead))]), b, Defs);
      ConstMeans(JString(WUnsupportedContextRead), b.members[WCode], Defs);
    }
  }

  lemma StageCount(v: Json, r: LocalCheckResult, n: nat)
    requires Writes(v, r)
    ensures Holds(Property(WStages, Schema([MinItems(n)])), v, Defs) <==> |r.stages| >= n
    ensures Holds(Property(WStages, Schema([MaxItems(n)])), v, Defs) <==> |r.stages| <= n
  {
    PropertyMeans(WStages, Schema([MinItems(n)]), v, Defs);
    PropertyMeans(WStages, Schema([MaxItems(n)]), v, Defs);
    One(MinItems(n), EncodeStages(r.stages), Defs);
    One(MaxItems(n), EncodeStages(r.stages), Defs);
  }

  lemma BlockedStatus(v: Json, r: LocalCheckResult)
    requires Writes(v, r)
    ensures Holds(STATUS_BLOCKED, v, Defs) <==> !r.passed
  {
    PropertyMeans(WStatus, Schema([Const(JString(WBlocked))]), v, Defs);
    ConstMeans(JString(WBlocked), v.members[WStatus], Defs);
  }

  lemma ContextShapeMeans(v: Json, r: LocalCheckResult)
    requires Writes(v, r)
    ensures Validates(CONTEXT_SHAPE, v, Defs) <==> ContextShape(r)
  {
    Four(STATUS_BLOCKED, Property(WCandidate, Schema([OfType(TNull)])), Property(WStages, Schema([MaxItems(0)])),
      Property(WBlocker, CONTEXT_BLOCKER_SHAPE), v, Defs);
    BlockedStatus(v, r);
    TypeProperty(WCandidate, TNull, v, Defs);
    StageCount(v, r, 0);
    ContextBlockerMeans(v, r);
  }

  lemma StagedShapeMeans(v: Json, r: LocalCheckResult)
    requires Writes(v, r)
    ensures Validates(STAGED_SHAPE, v, Defs) <==> r.stages != [] && r.blocker.None?
  {
    Two(Property(WStages, Schema([MinItems(1)])), Property(WBlocker, Schema([OfType(TNull)])), v, Defs);
    StageCount(v, r, 1);
    TypeProperty(WBlocker, TNull, v, Defs);
  }

  lemma ContextMeans(v: Json, r: LocalCheckResult)
    requires Writes(v, r)
    ensures Validates(CONTEXT, v, Defs)
      <==> if r.blockedStage == Some(Context) then ContextShape(r) else r.stages != [] && r.blocker.None?
  {
    One(If(When(WBlockedStage, JString(WContext)), CONTEXT_SHAPE, STAGED_SHAPE), v, Defs);
    WhenMeans(WBlockedStage, JString(WContext), v, Defs);
    ContextShapeMeans(v, r);
    StagedShapeMeans(v, r);
  }

  lemma ChangedMeans(v: Json, r: LocalCheckResult)
    requires Writes(v, r)
    ensures Validates(CHANGED, v, Defs)
      <==> (r.blockedStage == Some(CandidateChanged) ==> !r.passed && |r.stages| >= 2)
  {
    WhenThen(WBlockedStage, JString(WCandidateChanged), CHANGED_SHAPE, v, Defs);
    Two(STATUS_BLOCKED, Property(WStages, Schema([MinItems(2)])), v, Defs);
    BlockedStatus(v, r);
    StageCount(v, r, 2);
  }

  lemma BlockedMeans(v: Json, r: LocalCheckResult)
    requires Writes(v, r)
    ensures Validates(BLOCKED, v, Defs) <==> (!r.passed ==> r.blockedStage.Some?)
  {
    WhenThen(WStatus, JString(WBlocked), BLOCKED_SHAPE, v, Defs);
    One(Property(WBlockedStage, Schema([OfType(TString)])), v, Defs);
    PropertyMeans(WBlockedStage, Schema([OfType(TString)]), v, Defs);
    TypeOfMeans(TString, EncodeBlockedStage(r.blockedStage));
  }

  lemma StopSchemaMeans(stages: seq<Stage>, i: Place)
    ensures Validates(StopSchema(i), EncodeStages(stages), Defs) <==> |stages| == i + 1 && StopsAt(stages, i)
  {
    Three(MinItems(i + 1), MaxItems(i + 1), Items(StagesUpTo(i), ANY), EncodeStages(stages), Defs);
    StopItems(i, stages);
  }

  lemma StopStages(v: Json, r: LocalCheckResult, i: Place)
    requires Writes(v, r)
    ensures Holds(Property(WStages, StopSchema(i)), v, Defs) <==> |r.stages| == i + 1 && StopsAt(r.stages, i)
  {
    PropertyMeans(WStages, StopSchema(i), v, Defs);
    StopSchemaMeans(r.stages, i);
  }

  lemma BlockedAtMeans(v: Json, r: LocalCheckResult, i: Place)
    requires Writes(v, r)
    ensures Validates(BlockedAt(i), v, Defs) <==>
      (r.blockedStage == Some(Check(ORDER[i])) ==> !r.passed && |r.stages| == i + 1 && StopsAt(r.stages, i))
  {
    WhenThen(WBlockedStage, JString(NameWord(ORDER[i])), BlockedAtShape(i), v, Defs);
    Two(STATUS_BLOCKED, Property(WStages, StopSchema(i)), v, Defs);
    BlockedStatus(v, r);
    StopStages(v, r, i);
    StageWord(r, i);
  }

  lemma StageWord(r: LocalCheckResult, i: Place)
    ensures EncodeBlockedStage(r.blockedStage) == JString(NameWord(ORDER[i])) <==> r.blockedStage == Some(Check(ORDER[i]))
  {
  }

  // ---- The projection ----

  /** What the schema says of a result, constraint by constraint. */
  predicate ShapeOk(r: LocalCheckResult) {
    && Ordered(r.stages)
    && (r.passed ==> PassedShape(r))
    && (if r.blockedStage == Some(Context) then ContextShape(r) else r.stages != [] && r.blocker.None?)
    && (r.blockedStage == Some(CandidateChanged) ==> !r.passed && |r.stages| >= 2)
    && (!r.passed ==> r.blockedStage.Some?)
    && (forall i | 0 <= i < COUNT ::
          r.blockedStage == Some(Check(ORDER[i])) ==> !r.passed && |r.stages| == i + 1 && StopsAt(r.stages, i))
  }

  lemma BlockedStagesMean(v: Json, r: LocalCheckResult)
    requires Writes(v, r)
    ensures (forall i | 0 <= i < COUNT :: Validates(BlockedStages(COUNT)[i], v, Defs)) <==>
      forall i | 0 <= i < COUNT ::
        r.blockedStage == Some(Check(ORDER[i])) ==> !r.passed && |r.stages| == i + 1 && StopsAt(r.stages, i)
  {
    forall i | 0 <= i < COUNT
      ensures Validates(BlockedStages(COUNT)[i], v, Defs) <==>
        (r.blockedStage == Some(Check(ORDER[i])) ==> !r.passed && |r.stages| == i + 1 && StopsAt(r.stages, i))
    {
      BlockedAtMeans(v, r, i);
    }
  }

  lemma AllConstraints(all: seq<Schema>, last: seq<Schema>, v: Json)
    requires |all| == 5
    ensures Validates(Schema([AllOf(all + last)]), v, Defs) <==>
      && Validates(all[0], v, Defs) && Validates(all[1], v, Defs) && Validates(all[2], v, Defs)
      && Validates(all[3], v, Defs) && Validates(all[4], v, Defs)
      && forall i | 0 <= i < |last| :: Validates(last[i], v, Defs)
  {
    var whole := all + last;
    AllOfMeans(whole, v, Defs);
    if forall i | 0 <= i < |whole| :: Validates(whole[i], v, Defs) {
      forall i | 0 <= i < |last| ensures Validates(last[i], v, Defs) { assert whole[5 + i] == last[i]; }
      forall i | 0 <= i < 5 ensures Validates(all[i], v, Defs) { assert whole[i] == all[i]; }
    }
  }

  /** The document accepts the wire form of a result exactly when the result has the stated shape. */
  lemma SchemaMeansShape(r: LocalCheckResult)
    ensures SchemaAccepts(Encode(r)) <==> ShapeOk(r)
  {
    Two(Required(REQUIRED), AllOf(Constraints()), Encode(r), Defs);
    One(AllOf(Constraints()), Encode(r), Defs);
    EncodeWrites(r);
    ConstraintsMean(Encode(r), r);
  }

  lemma EncodeWrites(r: LocalCheckResult)
    ensures Writes(Encode(r), r)
  {
  }

  lemma ConstraintsMean(v: Json, r: LocalCheckResult)
    requires Writes(v, r)
    ensures Validates(Schema([AllOf(Constraints())]), v, Defs) <==> ShapeOk(r)
  {
    AllConstraints(FIXED, BlockedStages(COUNT), v);
    AllowedMeans(v, r);
    PassedMeans(v, r);
    ContextMeans(v, r);
    ChangedMeans(v, r);
    BlockedMeans(v, r);
    BlockedStagesMean(v, r);
  }

  /** The stage schemas of the first stages, built one by one. */
  method StageList(n: Number, clear: bool) returns (stages: seq<Schema>)
    ensures stages == if clear then ClearStages(n) else AnyStages(n)
  {
    stages := [];
    for i := 0 to n
      invariant stages == if clear then ClearStages(i) else AnyStages(i)
    {
      stages := stages + [StageSchema(ORDER[i], if clear then Some(ClearWord(ORDER[i])) else None)];
    }
  }

  /** `append_local_check_constraints`: the finished document accepts the wire form of a result exactly
      when the result has the stated shape. */
  method AppendLocalCheckConstraints(schema: Document)
    modifies schema
    ensures forall r: LocalCheckResult ::
      schema.Accepts(Encode(r), Defs) <==> old(Validates(Schema(schema.properties), Encode(r), Defs)) && ShapeOk(r)
  {
    schema.required := REQUIRED;
    var any := StageList(COUNT, false);
    var clear := StageList(COUNT, true);
    schema.allOf := [
      Schema([Property(WStages, Schema([Items(any, Never), MaxItems(COUNT)]))]),
      Conditional(When(WStatus, JString(WLocalChecksPassed)), PassedRule(clear)),
      CONTEXT, CHANGED, BLOCKED];
    for i := 0 to COUNT
      invariant schema.required == REQUIRED && schema.properties == old(schema.properties)
      invariant schema.allOf == FIXED + BlockedStages(i)
    {
      var stages := StageList(i, true);
      stages := stages + [StageSchema(ORDER[i], if i > 0 then Some(WBlocked) else None)];
      var stop := Schema([MinItems(i + 1)] + [MaxItems(i + 1), Items(stages, ANY)]);
      assert BlockedStages(i + 1) == BlockedStages(i) + [BlockedAt(i)];
      schema.allOf := schema.allOf +
        [Conditional(When(WBlockedStage, JString(NameWord(ORDER[i]))), Schema([STATUS_BLOCKED, Property(WStages, stop)]))];
    }
    forall r: LocalCheckResult
      ensures schema.Accepts(Encode(r), Defs) <==> Validates(Schema(schema.properties), Encode(r), Defs) && ShapeOk(r)
    {
      Two(Required(REQUIRED), AllOf(Constraints()), Encode(r), Defs);
      One(AllOf(Constraints()), Encode(r), Defs);
      SchemaMeansShape(r);
    }
  }

  /** The checks that the document leaves to the model, as its `required_for` lists them: candidates
      match the intake's, admission and first-blocker order hold, nested receipts are valid. */
  predicate Semantic(r: LocalCheckResult) {
    && (forall s | s in r.stages :: s.receipt.Valid())
    && (r.stages != [] ==>
          var n := |r.stages|; var intake := r.stages[0].receipt;
          && r.candidate == intake.candidate
          && (forall i | 1 <= i < n ::
                r.stages[i].receipt.candidate == intake.candidate
                <==> !(r.blockedStage == Some(CandidateChanged) && i == n - 1))
          && (if n > 1 || r.passed then intake.Admitted()
              else r.blockedStage == Some(Check(Intake)) ==> !intake.Admitted())
          && (forall i | 1 <= i < n - 1 :: r.stages[i].receipt.clear))
  }

  lemma ShapeOfAccepted(r: LocalCheckResult)
    requires Accepts(r)
    ensures ShapeOk(r)
  {
    assert forall i | 0 <= i < |r.stages| :: r.stages[i] in r.stages;
  }

  lemma SemanticOfAccepted(r: LocalCheckResult)
    requires Accepts(r)
    ensures Semantic(r)
  {
    assert forall i | 0 <= i < |r.stages| :: r.stages[i] in r.stages;
  }

  lemma ShapeAndSemantic(r: LocalCheckResult)
    requires ShapeOk(r) && Semantic(r)
    ensures Accepts(r)
  {
    forall s | s in r.stages ensures s.name == s.receipt.kind {
      var i :| 0 <= i < |r.stages| && r.stages[i] == s;
      assert StageIs(r.stages[i], ORDER[i]);
    }
    if r.stages != [] && !r.passed && r.blockedStage.value.Check? {
      var i :| 0 <= i < COUNT && ORDER[i] == r.blockedStage.value.kind by { KindInOrder(r.blockedStage.value.kind); }
      assert StopsAt(r.stages, i) && |r.stages| == i + 1;
    }
  }

  lemma KindInOrder(kind: Kind)
    ensures exists i | 0 <= i < COUNT :: ORDER[i] == kind
  {
    assert ORDER[0].Intake? && ORDER[1].Validate? && ORDER[2].ScenarioQuality? && ORDER[3].ScorerQuality?;
    assert ORDER[4].ScorerCalibration?;
  }

  /** The generated document and the checks it names are together the model's validator: the document
      refuses no accepted result, and what both accept, the model accepts. */
  lemma ProjectionIsExact(r: LocalCheckResult)
    ensures Accepts(r) <==> SchemaAccepts(Encode(r)) && Semantic(r)
  {
    SchemaMeansShape(r);
    if Accepts(r) {
      ShapeOfAccepted(r);
      SemanticOfAccepted(r);
    } else if ShapeOk(r) && Semantic(r) {
      ShapeAndSemantic(r);
    }
  }
}
