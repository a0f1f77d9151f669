/** A small evaluator for the JSON Schema keywords the generated constraints use (JSON Schema Draft
    2020-12: Core sections 10.2 and 10.3, Validation section 6). */
module JsonSchema {
  import opened Common

  /** Property names, and the strings that schemas compare with; `Text` is any other string. */
  datatype Word =
    | WSchemaVersion | WWorkflow | WStatus | WCandidate | WBlockedStage | WStages | WBlocker | WPromotionAuthorized
    | WMutationPerformed | WNetworkUsed | WExecutionPerformed | WName | WReceipt | WCode | WDecision | WDetail
    | WMissingSignals | WForbiddenCommandsObserved | WObservationSha256 | WOutputDigestMismatch | WScore | WCaseResults
    | WProvider | WProbes | WEvidenceRefs | WPackageDigest | WOperation | WProposedLock | WProposedEntry | WEvidence
    | WLocalChecksPassed | WBlocked | WNormalized | WPass | WFail | WPlanned | WContext | WCandidateChanged
    | WIntake | WValidate | WScenarioQuality | WScorerQuality | WScorerCalibration | WUnsupportedContextRead
    | WInstall | WUpdate | WNoChange | WCaseId
    | Text(text: string)

  datatype Json =
    | JNull | JBool(flag: bool) | JNumber(number: real) | JString(word: Word)
    | JArray(items: seq<Json>) | JObject(members: map<Word, Json>)

  type JsonObject = v: Json | v.JObject? witness JObject(map[])

  datatype Type = TNull | TString | TNumber | TArray | TObject

  /** A schema is a conjunction of keywords, or `false`. `Property` is one entry of `properties`; `Items`
      is `prefixItems` with the `items` beside it; a `$ref` names a definition. */
  datatype Schema = Schema(keywords: seq<Keyword>) | Never

  datatype Keyword =
    | OfType(type_: Type) | Const(value: Json) | Enum(values: seq<Json>) | Required(names: seq<Word>)
    | Property(name: Word, schema: Schema) | AllOf(all: seq<Schema>) | AnyOf(any: seq<Schema>) | Not(schema: Schema)
    | If(condition: Schema, then_: Schema, else_: Schema) | Items(prefix: seq<Schema>, rest: Schema)
    | Contains(schema: Schema) | MinItems(n: nat) | MaxItems(n: nat) | UniqueItems | Ref(definition: Definition)
    | Pattern(regex: Regex)

  /** The regular expressions of `pattern` keywords: `^[a-f0-9]{64}$`. */
  datatype Regex = Sha256Regex

  predicate Matches(regex: Regex, word: Word) {
    word.Text? && IsSha256(word.text)
  }

  datatype Definition =
    | DCandidate | DBlocker | DStage | DEntry
    | DIntakeReceipt | DValidation | DScenarioReceipt | DScorerReceipt | DCalibrationReceipt

  /** The definitions of a document. */
  type Definitions = (Definition, Json) -> bool

  const ANY := Schema([])

  predicate HasType(v: Json, t: Type) {
    match t
    case TNull => v.JNull?
    case TString => v.JString?
    case TNumber => v.JNumber?
    case TArray => v.JArray?
    case TObject => v.JObject?
  }

  /** Assertion keywords that do not apply to the type of the value hold of it. */
  predicate Validates(s: Schema, v: Json, defs: Definitions)
    decreases s
  {
    s.Schema? && forall i | 0 <= i < |s.keywords| :: Holds(s.keywords[i], v, defs)
  }

  predicate Holds(k: Keyword, v: Json, defs: Definitions)
    decreases k
  {
    match k
    case OfType(t) => HasType(v, t)
    case Const(value) => v == value
    case Enum(values) => v in values
    case Required(names) => v.JObject? ==> forall n | n in names :: n in v.members
    case Property(name, schema) => v.JObject? && name in v.members ==> Validates(schema, v.members[name], defs)
    case AllOf(all) => forall i | 0 <= i < |all| :: Validates(all[i], v, defs)
    case AnyOf(any) => exists i | 0 <= i < |any| :: Validates(any[i], v, defs)
    case Not(schema) => !Validates(schema, v, defs)
    case If(condition, then_, else_) => if Validates(condition, v, defs) then Validates(then_, v, defs) else Validates(else_, v, defs)
    case Items(prefix, rest) => v.JArray? ==> forall i | 0 <= i < |v.items| ::
        if i < |prefix| then Validates(prefix[i], v.items[i], defs) else Validates(rest, v.items[i], defs)
    case Contains(schema) => v.JArray? ==> exists i | 0 <= i < |v.items| :: Validates(schema, v.items[i], defs)
    case MinItems(n) => v.JArray? ==> |v.items| >= n
    case MaxItems(n) => v.JArray? ==> |v.items| <= n
    case UniqueItems => v.JArray? ==> Distinct(v.items)
    case Ref(name) => defs(name, v)
    case Pattern(regex) => v.JString? ==> Matches(regex, v.word)
  }

  // ---- Payloads ----

  function Texts(items: seq<string>): Json {
    JArray(seq(|items|, i requires 0 <= i < |items| => JString(Text(items[i]))))
  }

  lemma TextsDistinct(items: seq<string>)
    ensures Distinct(Texts(items).items) <==> Distinct(items)
  {
    var words := Texts(items).items;
    assert forall i, j | 0 <= i < j < |items| :: words[i] == words[j] <==> items[i] == items[j];
  }

  function OptionalText(text: Option<string>): Json {
    if text.Some? then JString(Text(text.value)) else JNull
  }

  /** The property is there and of this type. */
  predicate Typed(m: map<Word, Json>, name: Word, t: Type) {
    name in m && HasType(m[name], t)
  }

  predicate Null(m: map<Word, Json>, name: Word) {
    name in m ==> m[name].JNull?
  }

  /** The property, where it is an array, has no items. */
  predicate Empty(m: map<Word, Json>, name: Word) {
    name in m && m[name].JArray? ==> m[name].items == []
  }

  /** The property is there, and where it is an array it has items. */
  predicate Filled(m: map<Word, Json>, name: Word) {
    name in m && (m[name].JArray? ==> m[name].items != [])
  }

  predicate UniqueArray(m: map<Word, Json>, name: Word) {
    name in m && m[name].JArray? ==> Distinct(m[name].items)
  }

  predicate Defined(m: map<Word, Json>, name: Word, d: Definition, defs: Definitions) {
    name in m && defs(d, m[name])
  }

  // ---- Evaluation rules ----

  lemma AnyValidates(v: Json, defs: Definitions)
    ensures Validates(ANY, v, defs)
  {
  }

  lemma One(a: Keyword, v: Json, defs: Definitions)
    ensures Validates(Schema([a]), v, defs) <==> Holds(a, v, defs)
  {
    assert Schema([a]).keywords[0] == a;
  }

  lemma Two(a: Keyword, b: Keyword, v: Json, defs: Definitions)
    ensures Validates(Schema([a, b]), v, defs) <==> Holds(a, v, defs) && Holds(b, v, defs)
  {
    var ks := Schema([a, b]).keywords;
    assert ks[0] == a && ks[1] == b;
  }

  /** A longer schema is its first keyword and the schema of the others. */
  lemma More(a: Keyword, ks: seq<Keyword>, v: Json, defs: Definitions)
    ensures Validates(Schema([a] + ks), v, defs) <==> Holds(a, v, defs) && Validates(Schema(ks), v, defs)
  {
    var all := Schema([a] + ks).keywords;
    assert all[0] == a && forall i | 0 <= i < |ks| :: all[i + 1] == ks[i];
    if Validates(Schema([a] + ks), v, defs) {
      forall i | 0 <= i < |ks| ensures Holds(ks[i], v, defs) { assert Holds(all[i + 1], v, defs); }
    }
    if Holds(a, v, defs) && Validates(Schema(ks), v, defs) {
      forall i | 0 <= i < |all| ensures Holds(all[i], v, defs) {
        if i > 0 { assert all[i] == ks[i - 1]; }
      }
    }
  }

  /** A property constraint on an object. */
  lemma PropertyMeans(name: Word, schema: Schema, v: JsonObject, defs: Definitions)
    ensures Holds(Property(name, schema), v, defs) <==> (name in v.members ==> Validates(schema, v.members[name], defs))
  {
  }

  lemma TypeProperty(name: Word, t: Type, v: JsonObject, defs: Definitions)
    ensures Holds(Property(name, Schema([OfType(t)])), v, defs) <==> (name in v.members ==> HasType(v.members[name], t))
  {
    PropertyMeans(name, Schema([OfType(t)]), v, defs);
    if name in v.members { One(OfType(t), v.members[name], defs); }
  }

  lemma RefProperty(name: Word, d: Definition, v: JsonObject, defs: Definitions)
    ensures Holds(Property(name, Schema([Ref(d)])), v, defs) <==> (name in v.members ==> defs(d, v.members[name]))
  {
    PropertyMeans(name, Schema([Ref(d)]), v, defs);
    if name in v.members { One(Ref(d), v.members[name], defs); }
  }

  lemma UniqueProperty(name: Word, v: JsonObject, defs: Definitions)
    ensures Holds(Property(name, Schema([UniqueItems])), v, defs)
      <==> UniqueArray(v.members, name)
  {
    PropertyMeans(name, Schema([UniqueItems]), v, defs);
    if name in v.members { One(UniqueItems, v.members[name], defs); }
  }

  lemma ConstMeans(value: Json, v: Json, defs: Definitions)
    ensures Validates(Schema([Const(value)]), v, defs) <==> v == value
  {
    One(Const(value), v, defs);
  }

  lemma BothMean(a: Schema, b: Schema, v: Json, defs: Definitions)
    ensures Validates(Schema([AllOf([a, b])]), v, defs) <==> Validates(a, v, defs) && Validates(b, v, defs)
  {
    One(AllOf([a, b]), v, defs);
    var both := [a, b];
    assert both[0] == a && both[1] == b;
  }

  lemma EitherHolds(a: Schema, b: Schema, v: Json, defs: Definitions)
    ensures Holds(AnyOf([a, b]), v, defs) <==> Validates(a, v, defs) || Validates(b, v, defs)
  {
    var both := [a, b];
    assert both[0] == a && both[1] == b;
    if Validates(a, v, defs) { assert Validates(both[0], v, defs); }
    if Validates(b, v, defs) { assert Validates(both[1], v, defs); }
  }

  lemma SingleAllOf(s: Schema, v: Json, defs: Definitions)
    ensures Holds(AllOf([s]), v, defs) <==> Validates(s, v, defs)
  {
    assert [s][0] == s;
  }

  /** The usual condition of an `if`: the property is there and has the given value. */
  function When(name: Word, value: Json): Schema {
    Schema([Property(name, Schema([Const(value)])), Required([name])])
  }

  /** The object has this property, with this value. */
  predicate HasValue(m: map<Word, Json>, name: Word, value: Json) {
    name in m && m[name] == value
  }

  lemma WhenMeans(name: Word, value: Json, v: Json, defs: Definitions)
    ensures Validates(When(name, value), v, defs) <==> (v.JObject? ==> HasValue(v.members, name, value))
  {
    Two(Property(name, Schema([Const(value)])), Required([name]), v, defs);
    if v.JObject? {
      if name in v.members { One(Const(value), v.members[name], defs); }
    }
  }

  /** A conditional constraint without `else`. */
  function Conditional(condition: Schema, consequence: Schema): Schema {
    Schema([If(condition, consequence, ANY)])
  }

  lemma ConditionalMeans(condition: Schema, consequence: Schema, v: Json, defs: Definitions)
    ensures Validates(Conditional(condition, consequence), v, defs)
      <==> (Validates(condition, v, defs) ==> Validates(consequence, v, defs))
  {
    One(If(condition, consequence, ANY), v, defs);
    AnyValidates(v, defs);
  }

  lemma AllOfMeans(all: seq<Schema>, v: Json, defs: Definitions)
    ensures Validates(Schema([AllOf(all)]), v, defs) <==> forall i | 0 <= i < |all| :: Validates(all[i], v, defs)
  {
    One(AllOf(all), v, defs);
  }

  lemma Three(a: Keyword, b: Keyword, c: Keyword, v: Json, defs: Definitions)
    ensures Validates(Schema([a] + [b, c]), v, defs) <==> Holds(a, v, defs) && Holds(b, v, defs) && Holds(c, v, defs)
  {
    More(a, [b, c], v, defs);
    Two(b, c, v, defs);
  }

  lemma Four(a: Keyword, b: Keyword, c: Keyword, d: Keyword, v: Json, defs: Definitions)
    ensures Validates(Schema([a] + ([b] + [c, d])), v, defs)
      <==> Holds(a, v, defs) && Holds(b, v, defs) && Holds(c, v, defs) && Holds(d, v, defs)
  {
    More(a, [b] + [c, d], v, defs);
    Three(b, c, d, v, defs);
  }

  /** A constraint that applies when a property has a given value. */
  lemma WhenThen(name: Word, value: Json, consequence: Schema, v: JsonObject, defs: Definitions)
    ensures Validates(Conditional(When(name, value), consequence), v, defs)
      <==> (HasValue(v.members, name, value) ==> Validates(consequence, v, defs))
  {
    ConditionalMeans(When(name, value), consequence, v, defs);
    WhenMeans(name, value, v, defs);
  }

  lemma AddedKeyword(ks: seq<Keyword>, k: Keyword, v: Json, defs: Definitions)
    ensures Validates(Schema(ks + [k]), v, defs) <==> Validates(Schema(ks), v, defs) && Holds(k, v, defs)
  {
    var all := ks + [k];
    assert all[|ks|] == k && forall i | 0 <= i < |ks| :: all[i] == ks[i];
    if Validates(Schema(all), v, defs) {
      forall i | 0 <= i < |ks| ensures Holds(ks[i], v, defs) { assert Holds(all[i], v, defs); }
      assert Holds(all[|ks|], v, defs);
    }
  }

  // ---- The dictionary of a generated schema ----

  /** The entries of a schema dictionary that the generators change in place. */
  class Document {
    var required: seq<Word>
    var properties: seq<Keyword>
    var allOf: seq<Schema>

    constructor ()
      ensures required == [] && properties == [] && allOf == []
    {
      required, properties, allOf := [], [], [];
    }

    /** The required names and the property constraints hold. */
    ghost predicate Fields(v: Json, defs: Definitions)
      reads this
    {
      Holds(Required(required), v, defs) && Validates(Schema(properties), v, defs)
    }

    ghost predicate Accepts(v: Json, defs: Definitions)
      reads this
    {
      Fields(v, defs) && Validates(Schema([AllOf(allOf)]), v, defs)
    }

    /** `schema["properties"][name]["uniqueItems"] = True`. */
    method RequireUnique(name: Word)
      modifies this`properties
      ensures forall v: JsonObject, defs: Definitions ::
        Fields(v, defs) <==> old(Fields(v, defs)) && UniqueArray(v.members, name)
    {
      var keyword := Property(name, Schema([UniqueItems]));
      forall v: JsonObject, defs: Definitions
        ensures Validates(Schema(properties + [keyword]), v, defs)
          <==> Validates(Schema(properties), v, defs) && UniqueArray(v.members, name)
      {
        AddedKeyword(properties, keyword, v, defs);
        UniqueProperty(name, v, defs);
      }
      properties := properties + [keyword];
    }
  }
}
