/** The generated constraints on case results and evaluation receipts: what they mean, and that they
    accept whatever the models accept. */
module EvaluationSchema {
  import opened Common
  import opened JsonSchema
  import opened Scoring

  /** A payload leaves a field out or writes it; a field left out has its default. */
  predicate Field(m: map<Word, Json>, name: Word, value: Json, default: Json) {
    if name in m then m[name] == value else value == default
  }

  function StatusWord(s: Status): Word {
    match s
    case Pass => WPass
    case Fail => WFail
    case Blocked => WBlocked
  }

  /** How blockers are written, and the definition they satisfy. */
  datatype Codec = Codec(blocker: Blocker -> Json, defs: Definitions) {
    ghost predicate Valid() {
      forall b :: defs(DBlocker, blocker(b)) && blocker(b) != JNull
    }

    function OptionalBlocker(b: Option<Blocker>): Json {
      if b.Some? then blocker(b.value) else JNull
    }
  }

  // ---- The generated constraints ----

  const NULL_BLOCKER := Property(WBlocker, Schema([OfType(TNull)]))

  const OUTPUT_TEXT := Property(WObservationSha256, Schema([OfType(TString)]))

  const BLOCKER_DEFINED := Property(WBlocker, Schema([Ref(DBlocker)]))

  function NonEmpty(name: Word): Schema {
    Schema([Property(name, Schema([MinItems(1)])), Required([name])])
  }

  function NoItems(name: Word): Keyword {
    Property(name, Schema([MaxItems(0)]))
  }

  const PASS_SHAPE := Schema([Required([WObservationSha256])] + ([NULL_BLOCKER] +
    ([NoItems(WForbiddenCommandsObserved)] + [NoItems(WMissingSignals), OUTPUT_TEXT])))

  const BLOCKED_SHAPE := Schema([Required([WBlocker])] + [BLOCKER_DEFINED, Property(WObservationSha256, Schema([OfType(TNull)]))])

  const COMPLETED_SHAPE := Schema([Required([WScore, WCaseResults])] + ([NULL_BLOCKER] +
    [Property(WCaseResults, Schema([MinItems(1)])), Property(WScore, Schema([OfType(TNumber)]))]))

  const IS_BLOCKED := When(WStatus, JString(WBlocked))

  const BLOCKED_CASE := Schema([Property(WCaseResults, Schema([Contains(IS_BLOCKED)])), Required([WCaseResults])])

  const HAS_BLOCKER := Schema([BLOCKER_DEFINED, Required([WBlocker])])

  const BLOCKED_RECEIPT_SHAPE := Schema([Property(WScore, Schema([OfType(TNull)])), AnyOf([HAS_BLOCKER, BLOCKED_CASE])])

  const NOT_NULL := Schema([Not(Schema([OfType(TNull)]))])

  const PROVIDER_SHAPE := Schema([Property(WProvider, NOT_NULL), Required([WProvider])])

  // ---- What the constraints mean of an object ----

  lemma NonEmptyMeans(name: Word, v: JsonObject, defs: Definitions)
    ensures Validates(NonEmpty(name), v, defs) <==> Filled(v.members, name)
  {
    Two(Property(name, Schema([MinItems(1)])), Required([name]), v, defs);
    PropertyMeans(name, Schema([MinItems(1)]), v, defs);
    if name in v.members { One(MinItems(1), v.members[name], defs); }
  }

  lemma NoItemsMeans(name: Word, v: JsonObject, defs: Definitions)
    ensures Holds(NoItems(name), v, defs) <==> Empty(v.members, name)
  {
    PropertyMeans(name, Schema([MaxItems(0)]), v, defs);
    if name in v.members { One(MaxItems(0), v.members[name], defs); }
  }

  predicate PassShape(m: map<Word, Json>) {
    && Typed(m, WObservationSha256, TString) && Null(m, WBlocker)
    && Empty(m, WForbiddenCommandsObserved) && Empty(m, WMissingSignals)
  }

  predicate FailShape(m: map<Word, Json>) {
    && Typed(m, WObservationSha256, TString) && Null(m, WBlocker)
    && (Filled(m, WMissingSignals) || Filled(m, WForbiddenCommandsObserved) || HasValue(m, WOutputDigestMismatch, JBool(true)))
  }

  predicate BlockedShape(m: map<Word, Json>, defs: Definitions) {
    Defined(m, WBlocker, DBlocker, defs) && Null(m, WObservationSha256)
  }

  predicate ResultShape(m: map<Word, Json>, defs: Definitions) {
    && (HasValue(m, WStatus, JString(WPass)) ==> PassShape(m))
    && (HasValue(m, WStatus, JString(WFail)) ==> FailShape(m))
    && (HasValue(m, WStatus, JString(WBlocked)) ==> BlockedShape(m, defs))
  }

  lemma PassMeans(v: JsonObject, defs: Definitions)
    ensures Validates(PASS_SHAPE, v, defs) <==> PassShape(v.members)
  {
    var forbidden, missing := NoItems(WForbiddenCommandsObserved), NoItems(WMissingSignals);
    More(Required([WObservationSha256]), [NULL_BLOCKER] + ([forbidden] + [missing, OUTPUT_TEXT]), v, defs);
    Four(NULL_BLOCKER, forbidden, missing, OUTPUT_TEXT, v, defs);
    TypeProperty(WObservationSha256, TString, v, defs);
    TypeProperty(WBlocker, TNull, v, defs);
    NoItemsMeans(WForbiddenCommandsObserved, v, defs);
    NoItemsMeans(WMissingSignals, v, defs);
  }

  lemma AnyOfThree(any: seq<Schema>, v: Json, defs: Definitions)
    requires |any| == 3
    ensures Holds(AnyOf(any), v, defs) <==>
      Validates(any[0], v, defs) || Validates(any[1], v, defs) || Validates(any[2], v, defs)
  {
  }

  lemma FailMeans(alternatives: seq<Schema>, v: JsonObject, defs: Definitions)
    requires alternatives
      == [NonEmpty(WMissingSignals), NonEmpty(WForbiddenCommandsObserved), When(WOutputDigestMismatch, JBool(true))]
    ensures Validates(Schema([Required([WObservationSha256])] + ([NULL_BLOCKER] + [OUTPUT_TEXT, AnyOf(alternatives)])), v, defs)
      <==> FailShape(v.members)
  {
    Four(Required([WObservationSha256]), NULL_BLOCKER, OUTPUT_TEXT, AnyOf(alternatives), v, defs);
    TypeProperty(WObservationSha256, TString, v, defs);
    TypeProperty(WBlocker, TNull, v, defs);
    AnyOfThree(alternatives, v, defs);
    NonEmptyMeans(WMissingSignals, v, defs);
    NonEmptyMeans(WForbiddenCommandsObserved, v, defs);
    WhenMeans(WOutputDigestMismatch, JBool(true), v, defs);
  }

  lemma BlockedMeans(v: JsonObject, defs: Definitions)
    ensures Validates(BLOCKED_SHAPE, v, defs) <==> BlockedShape(v.members, defs)
  {
    Three(Required([WBlocker]), BLOCKER_DEFINED, Property(WObservationSha256, Schema([OfType(TNull)])), v, defs);
    RefProperty(WBlocker, DBlocker, v, defs);
    TypeProperty(WObservationSha256, TNull, v, defs);
  }

  lemma ThreeRules(a: Schema, b: Schema, c: Schema, v: Json, defs: Definitions)
    ensures Validates(Schema([AllOf([a, b, c])]), v, defs)
      <==> Validates(a, v, defs) && Validates(b, v, defs) && Validates(c, v, defs)
  {
    var all := [a, b, c];
    assert all[0] == a && all[1] == b && all[2] == c;
    AllOfMeans(all, v, defs);
  }

  lemma ResultRulesMean(failed: Schema, v: JsonObject, defs: Definitions)
    requires (Validates(failed, v, defs) <==> FailShape(v.members))
    ensures Validates(Schema([AllOf([
        Conditional(When(WStatus, JString(WPass)), PASS_SHAPE),
        Conditional(When(WStatus, JString(WFail)), failed),
        Conditional(IS_BLOCKED, BLOCKED_SHAPE)])]), v, defs)
      <==> ResultShape(v.members, defs)
  {
    ThreeRules(Conditional(When(WStatus, JString(WPass)), PASS_SHAPE), Conditional(When(WStatus, JString(WFail)), failed),
      Conditional(IS_BLOCKED, BLOCKED_SHAPE), v, defs);
    WhenThen(WStatus, JString(WPass), PASS_SHAPE, v, defs);
    WhenThen(WStatus, JString(WFail), failed, v, defs);
    WhenThen(WStatus, JString(WBlocked), BLOCKED_SHAPE, v, defs);
    PassMeans(v, defs);
    BlockedMeans(v, defs);
  }

  predicate CompletedShape(m: map<Word, Json>) {
    Typed(m, WScore, TNumber) && Filled(m, WCaseResults) && Null(m, WBlocker)
  }

  predicate IsBlockedCase(v: Json) {
    v.JObject? ==> HasValue(v.members, WStatus, JString(WBlocked))
  }

  /** The list of case results is there, and where it is an array it has a blocked one. */
  predicate BlockedCase(m: map<Word, Json>) {
    && WCaseResults in m
    && (m[WCaseResults].JArray? ==> exists c | c in m[WCaseResults].items :: IsBlockedCase(c))
  }

  predicate BlockedReceiptShape(m: map<Word, Json>, defs: Definitions) {
    Null(m, WScore) && (Defined(m, WBlocker, DBlocker, defs) || BlockedCase(m))
  }

  predicate ProviderShape(m: map<Word, Json>) {
    Filled(m, WCaseResults) ==> WProvider in m && !m[WProvider].JNull?
  }

  predicate ReceiptShape(m: map<Word, Json>, defs: Definitions) {
    && (HasValue(m, WStatus, JString(WPass)) || HasValue(m, WStatus, JString(WFail)) ==> CompletedShape(m))
    && (HasValue(m, WStatus, JString(WBlocked)) ==> BlockedReceiptShape(m, defs))
    && ProviderShape(m)
  }

  lemma CompletedMeans(v: JsonObject, defs: Definitions)
    ensures Validates(COMPLETED_SHAPE, v, defs) <==> CompletedShape(v.members)
  {
    var results := Property(WCaseResults, Schema([MinItems(1)]));
    Four(Required([WScore, WCaseResults]), NULL_BLOCKER, results, Property(WScore, Schema([OfType(TNumber)])), v, defs);
    TypeProperty(WBlocker, TNull, v, defs);
    TypeProperty(WScore, TNumber, v, defs);
    FilledMeans(WCaseResults, v, defs);
  }

  lemma FilledMeans(name: Word, v: JsonObject, defs: Definitions)
    ensures Holds(Property(name, Schema([MinItems(1)])), v, defs) && name in v.members <==> Filled(v.members, name)
  {
    PropertyMeans(name, Schema([MinItems(1)]), v, defs);
    if name in v.members { One(MinItems(1), v.members[name], defs); }
  }

  lemma ContainsMeans(items: Json, defs: Definitions)
    ensures Validates(Schema([Contains(IS_BLOCKED)]), items, defs)
      <==> (items.JArray? ==> exists c | c in items.items :: IsBlockedCase(c))
  {
    One(Contains(IS_BLOCKED), items, defs);
    if items.JArray? {
      forall i | 0 <= i < |items.items|
        ensures Validates(IS_BLOCKED, items.items[i], defs) <==> IsBlockedCase(items.items[i])
      {
        WhenMeans(WStatus, JString(WBlocked), items.items[i], defs);
      }
    }
  }

  lemma BlockedCaseMeans(v: JsonObject, defs: Definitions)
    ensures Validates(BLOCKED_CASE, v, defs) <==> BlockedCase(v.members)
  {
    Two(Property(WCaseResults, Schema([Contains(IS_BLOCKED)])), Required([WCaseResults]), v, defs);
    PropertyMeans(WCaseResults, Schema([Contains(IS_BLOCKED)]), v, defs);
    if WCaseResults in v.members { ContainsMeans(v.members[WCaseResults], defs); }
  }

  lemma BlockedReceiptMeans(v: JsonObject, defs: Definitions)
    ensures Validates(BLOCKED_RECEIPT_SHAPE, v, defs) <==> BlockedReceiptShape(v.members, defs)
  {
    Two(Property(WScore, Schema([OfType(TNull)])), AnyOf([HAS_BLOCKER, BLOCKED_CASE]), v, defs);
    TypeProperty(WScore, TNull, v, defs);
    EitherHolds(HAS_BLOCKER, BLOCKED_CASE, v, defs);
    Two(BLOCKER_DEFINED, Required([WBlocker]), v, defs);
    RefProperty(WBlocker, DBlocker, v, defs);
    BlockedCaseMeans(v, defs);
  }

  lemma ProviderMeans(v: JsonObject, defs: Definitions)
    ensures Validates(Conditional(NonEmpty(WCaseResults), PROVIDER_SHAPE), v, defs) <==> ProviderShape(v.members)
  {
    ConditionalMeans(NonEmpty(WCaseResults), PROVIDER_SHAPE, v, defs);
    NonEmptyMeans(WCaseResults, v, defs);
    Two(Property(WProvider, NOT_NULL), Required([WProvider]), v, defs);
    PropertyMeans(WProvider, NOT_NULL, v, defs);
    if WProvider in v.members {
      One(Not(Schema([OfType(TNull)])), v.members[WProvider], defs);
      One(OfType(TNull), v.members[WProvider], defs);
    }
  }

  lemma FourRules(a: Schema, b: Schema, c: Schema, d: Schema, v: Json, defs: Definitions)
    ensures Validates(Schema([AllOf([a, b, c] + [d])]), v, defs)
      <==> Validates(a, v, defs) && Validates(b, v, defs) && Validates(c, v, defs) && Validates(d, v, defs)
  {
    var all := [a, b, c] + [d];
    assert all[0] == a && all[1] == b && all[2] == c && all[3] == d;
    AllOfMeans(all, v, defs);
  }

  lemma ReceiptRulesMean(v: JsonObject, defs: Definitions)
    ensures Validates(Schema([AllOf([
        Conditional(When(WStatus, JString(WPass)), COMPLETED_SHAPE),
        Conditional(When(WStatus, JString(WFail)), COMPLETED_SHAPE),
        Conditional(IS_BLOCKED, BLOCKED_RECEIPT_SHAPE)] + [Conditional(NonEmpty(WCaseResults), PROVIDER_SHAPE)])]), v, defs)
      <==> ReceiptShape(v.members, defs)
  {
    FourRules(Conditional(When(WStatus, JString(WPass)), COMPLETED_SHAPE),
      Conditional(When(WStatus, JString(WFail)), COMPLETED_SHAPE), Conditional(IS_BLOCKED, BLOCKED_RECEIPT_SHAPE),
      Conditional(NonEmpty(WCaseResults), PROVIDER_SHAPE), v, defs);
    WhenThen(WStatus, JString(WPass), COMPLETED_SHAPE, v, defs);
    WhenThen(WStatus, JString(WFail), COMPLETED_SHAPE, v, defs);
    WhenThen(WStatus, JString(WBlocked), BLOCKED_RECEIPT_SHAPE, v, defs);
    CompletedMeans(v, defs);
    BlockedReceiptMeans(v, defs);
    ProviderMeans(v, defs);
  }

  // ---- The generators ----

  /** `_append_evaluation_result_constraints` for case results v2: the finished document accepts
      exactly the payloads of the stated shape. */
  method AppendResultConstraints(schema: Document)
    modifies schema
    ensures forall v: JsonObject, defs: Definitions ::
      schema.Accepts(v, defs) <==>
      old(schema.Fields(v, defs)) && UniqueArray(v.members, WEvidenceRefs) && ResultShape(v.members, defs)
  {
    schema.RequireUnique(WEvidenceRefs);
    var alternatives := [NonEmpty(WMissingSignals), NonEmpty(WForbiddenCommandsObserved)];
    alternatives := alternatives + [When(WOutputDigestMismatch, JBool(true))];
    var failed := Schema([Required([WObservationSha256])] + ([NULL_BLOCKER] + [OUTPUT_TEXT, AnyOf(alternatives)]));
    schema.allOf := [
      Conditional(When(WStatus, JString(WPass)), PASS_SHAPE),
      Conditional(When(WStatus, JString(WFail)), failed),
      Conditional(IS_BLOCKED, BLOCKED_SHAPE)];
    forall v: JsonObject, defs: Definitions
      ensures Validates(Schema([AllOf(schema.allOf)]), v, defs) <==> ResultShape(v.members, defs)
    {
      FailMeans(alternatives, v, defs);
      ResultRulesMean(failed, v, defs);
    }
  }

  /** `_append_evaluation_receipt_constraints` for receipts v2: the finished document accepts exactly
      the payloads of the stated shape. */
  method AppendReceiptConstraints(schema: Document)
    modifies schema
    ensures forall v: JsonObject, defs: Definitions ::
      schema.Accepts(v, defs) <==>
      && old(schema.Fields(v, defs))
      && UniqueArray(v.members, WCaseResults) && UniqueArray(v.members, WProbes) && ReceiptShape(v.members, defs)
  {
    schema.RequireUnique(WCaseResults);
    schema.RequireUnique(WProbes);
    schema.allOf := [
      Conditional(When(WStatus, JString(WPass)), COMPLETED_SHAPE),
      Conditional(When(WStatus, JString(WFail)), COMPLETED_SHAPE),
      Conditional(IS_BLOCKED, BLOCKED_RECEIPT_SHAPE)];
    schema.allOf := schema.allOf + [Conditional(NonEmpty(WCaseResults), PROVIDER_SHAPE)];
    forall v: JsonObject, defs: Definitions
      ensures Validates(Schema([AllOf(schema.allOf)]), v, defs) <==> ReceiptShape(v.members, defs)
    {
      ReceiptRulesMean(v, defs);
    }
  }

  // ---- What the models accept has these shapes ----

  /** A payload from which the model reads this case result. */
  predicate WritesResult(codec: Codec, v: Json, r: CaseResult) {
    && v.JObject? && HasValue(v.members, WStatus, JString(StatusWord(r.status)))
    && HasValue(v.members, WCaseId, JString(Text(r.caseId)))
    && Field(v.members, WMissingSignals, Texts(r.missing), JArray([]))
    && Field(v.members, WForbiddenCommandsObserved, Texts(r.forbidden), JArray([]))
    && Field(v.members, WEvidenceRefs, Texts(r.refs), JArray([]))
    && Field(v.members, WObservationSha256, OptionalText(r.output), JNull)
    && Field(v.members, WOutputDigestMismatch, JBool(r.mismatch), JBool(false))
    && Field(v.members, WBlocker, codec.OptionalBlocker(r.blocker), JNull)
  }

  /** Every payload of a case result that the model accepts satisfies the generated constraints. */
  lemma ResultProjectionIsSound(codec: Codec, v: Json, r: CaseResult)
    requires codec.Valid() && WritesResult(codec, v, r) && r.Valid()
    ensures UniqueArray(v.members, WEvidenceRefs) && ResultShape(v.members, codec.defs)
  {
    TextsDistinct(r.refs);
  }

  /** A payload from which the model reads this receipt. */
  predicate WritesReceipt(codec: Codec, v: Json, r: Receipt) {
    && v.JObject? && HasValue(v.members, WStatus, JString(StatusWord(r.status)))
    && Field(v.members, WProvider, OptionalText(r.provider), JNull)
    && Field(v.members, WScore, if r.score.Some? then JNumber(r.score.value) else JNull, JNull)
    && Field(v.members, WProbes, Texts(r.probes), JArray([]))
    && Field(v.members, WBlocker, codec.OptionalBlocker(r.blocker), JNull)
    && (if WCaseResults in v.members then WritesResults(codec, v.members[WCaseResults], r.results) else r.results == [])
  }

  predicate WritesResults(codec: Codec, v: Json, results: seq<CaseResult>) {
    && v.JArray? && |v.items| == |results|
    && forall i | 0 <= i < |results| :: WritesResult(codec, v.items[i], results[i])
  }

  lemma BlockedResultIsCase(codec: Codec, v: Json, results: seq<CaseResult>, i: nat)
    requires WritesResults(codec, v, results) && i < |results| && results[i].status.Blocked?
    ensures v.items[i] in v.items && IsBlockedCase(v.items[i])
  {
    assert WritesResult(codec, v.items[i], results[i]);
  }

  lemma ReceiptIsUnique(codec: Codec, v: Json, r: Receipt)
    requires WritesReceipt(codec, v, r) && r.Valid()
    ensures UniqueArray(v.members, WCaseResults) && UniqueArray(v.members, WProbes)
  {
    TextsDistinct(r.probes);
    if WCaseResults in v.members {
      var results := v.members[WCaseResults];
      assert forall i, j | 0 <= i < j < |results.items| :: results.items[i] != results.items[j];
    }
  }

  lemma CompletedReceiptHasShape(codec: Codec, v: Json, r: Receipt)
    requires WritesReceipt(codec, v, r) && r.Valid() && !r.status.Blocked?
    ensures CompletedShape(v.members)
  {
  }

  lemma BlockedReceiptHasShape(codec: Codec, v: Json, r: Receipt)
    requires codec.Valid() && WritesReceipt(codec, v, r) && r.Valid() && r.status.Blocked?
    ensures BlockedReceiptShape(v.members, codec.defs)
  {
    if r.blocker.None? {
      var i :| 0 <= i < |r.results| && r.results[i].status.Blocked?;
      BlockedResultIsCase(codec, v.members[WCaseResults], r.results, i);
    }
  }

  /** Every payload of a receipt that the model accepts satisfies the generated constraints. */
  lemma ReceiptProjectionIsSound(codec: Codec, v: Json, r: Receipt)
    requires codec.Valid() && WritesReceipt(codec, v, r) && r.Valid()
    ensures UniqueArray(v.members, WCaseResults) && UniqueArray(v.members, WProbes)
    ensures ReceiptShape(v.members, codec.defs)
  {
    ReceiptIsUnique(codec, v, r);
    if r.status.Blocked? { BlockedReceiptHasShape(codec, v, r); } else { CompletedReceiptHasShape(codec, v, r); }
  }
}
