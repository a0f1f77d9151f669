/** One selected case: how acceptance assertions become signals, and what a pass means. */
module SelectedCase {
  import opened Common
  import opened Text
  import opened Scoring

  // ---- Acceptance assertions ----

  /** A requirement as loaded; `Malformed` is anything that is no mapping with the known fields and types. */
  datatype RawRequirement = Requirement(id: string, allOf: Option<seq<string>>, anyOf: Option<seq<string>>) | Malformed

  datatype Kind = SemanticRequirements | DiscoveryQuestion | ExpectedBehaviour | Contains | MustNot | NotContains

  datatype RawAssertion = Requirements(items: seq<RawRequirement>) | Valued(kind: Kind, value: string) | Unsupported

  datatype Semantic = Semantic(id: string, kind: Kind, allOf: seq<string>, anyOf: seq<string>)

  datatype Deterministic = Deterministic(id: string, kind: Kind, expected: string)

  datatype Signals = Signals(semantic: seq<Semantic>, deterministic: seq<Deterministic>)

  /** Text predicates and functions that stay opaque: blank text, public requirement ids, case folding, SHA-256. */
  datatype Policy = Policy(blank: string -> bool, publicId: string -> bool, fold: string -> string, hash: string -> string)

  const PREFIX: string := "acceptance-"

  /** The id of an assertion, or of a requirement inside one. */
  function ProjectedId(index: nat, requirement: Option<string>): string {
    PREFIX + (Decimal(index) + if requirement.Some? then ['-'] + requirement.value else [])
  }

  /** `_semantic_requirement`. */
  function SemanticRequirement(policy: Policy, index: nat, raw: RawRequirement): Option<Semantic> {
    if raw.Malformed? || !policy.publicId(raw.id) || policy.blank(raw.id) then None
    else if raw.allOf == Some([]) || raw.anyOf == Some([]) then None
    else
      var allOf, anyOf := Terms(raw.allOf), Terms(raw.anyOf);
      if allOf + anyOf == [] || exists t | t in allOf + anyOf :: policy.blank(t) then None
      else Some(Semantic(ProjectedId(index, Some(raw.id)), SemanticRequirements, allOf, anyOf))
  }

  function Terms(terms: Option<seq<string>>): seq<string> {
    if terms.Some? then terms.value else []
  }

  function RequirementsOf(policy: Policy, index: nat, items: seq<RawRequirement>): Option<seq<Semantic>> {
    if items == [] then Some([])
    else
      var last := SemanticRequirement(policy, index, items[|items| - 1]);
      var front := RequirementsOf(policy, index, items[..|items| - 1]);
      if front.None? || last.None? then None else Some(front.value + [last.value])
  }

  function SemanticIds(items: seq<Semantic>): seq<string> {
    seq(|items|, i requires 0 <= i < |items| => items[i].id)
  }

  function DeterministicIds(items: seq<Deterministic>): seq<string> {
    seq(|items|, i requires 0 <= i < |items| => items[i].id)
  }

  /** `_assertion_signal`. */
  function AssertionSignal(policy: Policy, raw: RawAssertion, index: nat): Option<Signals> {
    if raw.Requirements? then
      var items := RequirementsOf(policy, index, raw.items);
      if raw.items == [] || items.None? || !Distinct(SemanticIds(items.value)) then None
      else Some(Signals(items.value, []))
    else if raw.Unsupported? || raw.kind.SemanticRequirements? || policy.blank(raw.value) then None
    else if raw.kind.DiscoveryQuestion? || raw.kind.ExpectedBehaviour? then
      Some(Signals([Semantic(ProjectedId(index, None), raw.kind, [raw.value], [])], []))
    else Some(Signals([], [Deterministic(ProjectedId(index, None), raw.kind, raw.value)]))
  }

  /** The signals of the first `n` assertions, numbered from one. */
  function Projection(policy: Policy, acceptance: seq<RawAssertion>, n: nat): Option<Signals>
    requires n <= |acceptance|
  {
    if n == 0 then Some(Signals([], []))
    else
      var front := Projection(policy, acceptance, n - 1);
      var last := AssertionSignal(policy, acceptance[n - 1], n);
      if front.None? || last.None? then None
      else Some(Joined(front.value, last.value))
  }

  /** The first `n` assertions are acceptable. */
  predicate AllAcceptable(policy: Policy, acceptance: seq<RawAssertion>, n: nat)
    requires n <= |acceptance|
  {
    forall k | 0 <= k < n :: Acceptable(policy, acceptance[k])
  }

  /** The next assertion decides: without its signals not all are acceptable. */
  lemma AcceptableStep(policy: Policy, acceptance: seq<RawAssertion>, n: nat)
    requires n < |acceptance| && AllAcceptable(policy, acceptance, n)
    ensures var item := AssertionSignal(policy, acceptance[n], n + 1);
      if item.Some? then AllAcceptable(policy, acceptance, n + 1) else !AllAcceptable(policy, acceptance, |acceptance|)
  {
    AssertionMeans(policy, acceptance[n], n + 1);
  }

  function Joined(a: Signals, b: Signals): Signals {
    Signals(a.semantic + b.semantic, a.deterministic + b.deterministic)
  }

  /** `_assertion_signals`: appends in a loop and stops at the first assertion it cannot accept. */
  method AssertionSignals(policy: Policy, acceptance: seq<RawAssertion>) returns (signals: Option<Signals>)
    ensures signals.Some? <==> acceptance != [] && AllAcceptable(policy, acceptance, |acceptance|)
    ensures signals.Some? ==> SplitsInto(acceptance, signals.value) && Numbered(Ids(signals.value), |acceptance|)
  {
    if acceptance == [] { return None; }
    var semantic: seq<Semantic> := [];
    var deterministic: seq<Deterministic> := [];
    for i := 0 to |acceptance|
      invariant Projection(policy, acceptance, i) == Some(Signals(semantic, deterministic))
      invariant AllAcceptable(policy, acceptance, i)
    {
      AcceptableStep(policy, acceptance, i);
      var item := AssertionSignal(policy, acceptance[i], i + 1);
      if item.None? { return None; }
      semantic := semantic + item.value.semantic;
      deterministic := deterministic + item.value.deterministic;
    }
    signals := Some(Signals(semantic, deterministic));
    ghost var parts := ProjectionSplits(policy, acceptance, |acceptance|);
    assert SplitsInto(acceptance, signals.value);
    ProjectedIdsAreUnique(policy, acceptance, |acceptance|);
  }

  // ---- What is accepted, and what it becomes ----

  /** A requirement with a public id, at least one term, and no empty list or blank term. */
  predicate GoodRequirement(policy: Policy, r: RawRequirement) {
    && r.Requirement? && policy.publicId(r.id) && !policy.blank(r.id)
    && (r.allOf.Some? || r.anyOf.Some?)
    && (r.allOf.Some? ==> r.allOf.value != [] && forall t | t in r.allOf.value :: !policy.blank(t))
    && (r.anyOf.Some? ==> r.anyOf.value != [] && forall t | t in r.anyOf.value :: !policy.blank(t))
  }

  predicate DifferentIds(items: seq<RawRequirement>) {
    forall j, k | 0 <= j < k < |items| ::
      items[j].Requirement? && items[k].Requirement? ==> items[j].id != items[k].id
  }

  /** A value of a known kind that is not blank, or good requirements with different ids. */
  predicate Acceptable(policy: Policy, raw: RawAssertion) {
    if raw.Requirements? then
      raw.items != [] && DifferentIds(raw.items) && forall r | r in raw.items :: GoodRequirement(policy, r)
    else raw.Valued? && !raw.kind.SemanticRequirements? && !policy.blank(raw.value)
  }

  /** A requirement becomes a semantic signal with its own terms. */
  predicate Becomes(index: nat, r: RawRequirement, signal: Semantic) {
    && r.Requirement? && signal.id == ProjectedId(index, Some(r.id)) && signal.kind.SemanticRequirements?
    && signal.allOf == (if r.allOf.Some? then r.allOf.value else [])
    && signal.anyOf == (if r.anyOf.Some? then r.anyOf.value else [])
  }

  /** What one assertion becomes: a semantic signal for each requirement in order, one semantic signal for a
      question or an expected behaviour, one deterministic signal for a text check. */
  predicate Gives(raw: RawAssertion, index: nat, s: Signals) {
    if raw.Requirements? then
      && s.deterministic == [] && |s.semantic| == |raw.items|
      && forall k | 0 <= k < |raw.items| :: Becomes(index, raw.items[k], s.semantic[k])
    else
      && raw.Valued?
      && (if raw.kind.DiscoveryQuestion? || raw.kind.ExpectedBehaviour? then
            s.deterministic == [] && s.semantic == [Semantic(ProjectedId(index, None), raw.kind, [raw.value], [])]
          else
            s.semantic == [] && s.deterministic == [Deterministic(ProjectedId(index, None), raw.kind, raw.value)])
  }

  lemma RequirementMeans(policy: Policy, index: nat, r: RawRequirement)
    ensures var signal := SemanticRequirement(policy, index, r);
      (signal.Some? <==> GoodRequirement(policy, r)) && (signal.Some? ==> Becomes(index, r, signal.value))
  {
    if r.Requirement? {
      var terms := Terms(r.allOf) + Terms(r.anyOf);
      assert forall t :: t in terms <==> t in Terms(r.allOf) || t in Terms(r.anyOf);
    }
  }

  lemma {:induction false} RequirementsMean(policy: Policy, index: nat, items: seq<RawRequirement>)
    ensures var signals := RequirementsOf(policy, index, items);
      && (signals.Some? <==> forall r | r in items :: GoodRequirement(policy, r))
      && (signals.Some? ==>
            |signals.value| == |items| && forall k | 0 <= k < |items| :: Becomes(index, items[k], signals.value[k]))
  {
    if items == [] {
    } else {
      var front, last := items[..|items| - 1], items[|items| - 1];
      RequirementsMean(policy, index, front);
      RequirementMeans(policy, index, last);
      assert items == front + [last];
    }
  }

  /** One assertion is accepted exactly when it is acceptable. */
  lemma AssertionMeans(policy: Policy, raw: RawAssertion, index: nat)
    ensures var s := AssertionSignal(policy, raw, index);
      (s.Some? <==> Acceptable(policy, raw)) && (s.Some? ==> Gives(raw, index, s.value))
  {
    if raw.Requirements? {
      RequirementsMean(policy, index, raw.items);
      var signals := RequirementsOf(policy, index, raw.items);
      if signals.Some? { SameIdsRepeat(policy, index, raw.items, signals.value); }
    }
  }

  /** Projected ids repeat exactly when requirement ids do. */
  lemma SameIdsRepeat(policy: Policy, index: nat, items: seq<RawRequirement>, signals: seq<Semantic>)
    requires |signals| == |items| && forall k | 0 <= k < |items| :: Becomes(index, items[k], signals[k])
    ensures Distinct(SemanticIds(signals)) <==> DifferentIds(items)
  {
    var ids := SemanticIds(signals);
    assert forall k | 0 <= k < |items| :: Becomes(index, items[k], signals[k]) && items[k].Requirement?;
    forall j, k | 0 <= j < k < |items| ensures ids[j] == ids[k] <==> items[j].id == items[k].id {
      if ids[j] == ids[k] { ProjectedIdInjective(index, Some(items[j].id), index, Some(items[k].id)); }
    }
  }

  /** The signals of the assertions, each list in order: `parts[i]` are those of assertion `i + 1`. */
  ghost predicate Split(acceptance: seq<RawAssertion>, n: nat, parts: seq<Signals>, whole: Signals)
    requires n <= |acceptance|
  {
    && |parts| == n && (forall i | 0 <= i < n :: Gives(acceptance[i], i + 1, parts[i]))
    && whole == AllJoined(parts)
  }

  ghost predicate SplitsInto(acceptance: seq<RawAssertion>, whole: Signals) {
    exists parts :: Split(acceptance, |acceptance|, parts, whole)
  }

  function AllJoined(parts: seq<Signals>): Signals {
    if parts == [] then Signals([], []) else Joined(AllJoined(parts[..|parts| - 1]), parts[|parts| - 1])
  }

  /** One assertion more. */
  lemma ProjectionGrows(policy: Policy, acceptance: seq<RawAssertion>, n: nat)
    requires 0 < n <= |acceptance|
    ensures var front, whole := Projection(policy, acceptance, n - 1), Projection(policy, acceptance, n);
      && (whole.Some? <==> front.Some? && Acceptable(policy, acceptance[n - 1]))
      && (whole.Some? ==> Grown(acceptance[n - 1], n, front.value, whole.value))
  {
    AssertionMeans(policy, acceptance[n - 1], n);
    if Projection(policy, acceptance, n).Some? {
      var last := AssertionSignal(policy, acceptance[n - 1], n).value;
      assert Gives(acceptance[n - 1], n, last);
      assert Projection(policy, acceptance, n).value == Joined(Projection(policy, acceptance, n - 1).value, last);
    }
  }

  ghost predicate Grown(raw: RawAssertion, index: nat, front: Signals, whole: Signals) {
    exists last :: Gives(raw, index, last) && whole == Joined(front, last)
  }

  /** One assertion more at the end. */
  lemma SplitMore(acceptance: seq<RawAssertion>, n: nat, front: seq<Signals>, before: Signals, whole: Signals)
      returns (parts: seq<Signals>)
    requires 0 < n <= |acceptance| && Split(acceptance, n - 1, front, before)
    requires Grown(acceptance[n - 1], n, before, whole)
    ensures Split(acceptance, n, parts, whole)
  {
    var last :| Gives(acceptance[n - 1], n, last) && whole == Joined(before, last);
    parts := front + [last];
    assert parts[..n - 1] == front;
  }

  /** An accepted list gives the signals of each assertion, in order. */
  lemma {:induction false} ProjectionSplits(policy: Policy, acceptance: seq<RawAssertion>, n: nat) returns (parts: seq<Signals>)
    requires n <= |acceptance| && Projection(policy, acceptance, n).Some?
    ensures Split(acceptance, n, parts, Projection(policy, acceptance, n).value)
    decreases n
  {
    parts := [];
    if n > 0 {
      ProjectionGrows(policy, acceptance, n);
      parts := ProjectionSplits(policy, acceptance, n - 1);
      parts := SplitMore(acceptance, n, parts,
        Projection(policy, acceptance, n - 1).value, Projection(policy, acceptance, n).value);
    }
  }

  // ---- Projected ids are unique by construction ----

  lemma CancelPrefix(prefix: string, a: string, b: string)
    requires prefix + a == prefix + b
    ensures a == b
  {
    assert a == (prefix + a)[|prefix|..] && b == (prefix + b)[|prefix|..];
  }

  function Tail(requirement: Option<string>): string {
    if requirement.Some? then ['-'] + requirement.value else []
  }

  lemma Reassociate(x: string, mark: char, y: string)
    ensures x + [mark] + y == x + ([mark] + y)
  {
  }

  /** A part without hyphens and what its requirement adds can be told apart. */
  lemma TailSplits(x: string, a: Option<string>, y: string, b: Option<string>)
    requires '-' !in x && '-' !in y && x + Tail(a) == y + Tail(b)
    ensures x == y && a == b
  {
    HyphenMeansRequirement(x, a);
    HyphenMeansRequirement(y, b);
    if a.Some? {
      Reassociate(x, '-', a.value);
      Reassociate(y, '-', b.value);
      SplitUnique(x, a.value, y, b.value, '-');
    } else {
      assert x + [] == x && y + [] == y;
    }
  }

  /** A decimal index holds no hyphen, so the index and the requirement id can be read back. */
  lemma ProjectedIdInjective(i: nat, a: Option<string>, j: nat, b: Option<string>)
    requires ProjectedId(i, a) == ProjectedId(j, b)
    ensures i == j && a == b
  {
    var x, y := Decimal(i), Decimal(j);
    CancelPrefix(PREFIX, x + Tail(a), y + Tail(b));
    assert '-' !in x && '-' !in y;
    TailSplits(x, a, y, b);
    DecimalInjective(i, j);
  }

  lemma HyphenMeansRequirement(x: string, a: Option<string>)
    requires '-' !in x
    ensures '-' in x + Tail(a) <==> a.Some?
  {
    if a.Some? { assert (x + Tail(a))[|x|] == '-'; }
  }

  ghost predicate From(id: string, index: nat) {
    exists r :: id == ProjectedId(index, r)
  }

  ghost predicate UpTo(id: string, n: nat) {
    exists i: nat :: i <= n && From(id, i)
  }

  lemma {:induction false} RequirementIds(policy: Policy, index: nat, items: seq<RawRequirement>, k: nat)
    requires RequirementsOf(policy, index, items).Some? && k < |items|
    ensures |RequirementsOf(policy, index, items).value| == |items|
    ensures From(RequirementsOf(policy, index, items).value[k].id, index)
    decreases |items|
  {
    var front := items[..|items| - 1];
    if front == [] {
      assert RequirementsOf(policy, index, front) == Some([]);
    } else {
      RequirementIds(policy, index, front, if k < |front| then k else 0);
    }
  }

  function Ids(s: Signals): seq<string> {
    SemanticIds(s.semantic) + DeterministicIds(s.deterministic)
  }

  /** Different ids of the assertions up to `n`; every assertion has one. */
  ghost predicate Numbered(ids: seq<string>, n: nat) {
    Distinct(ids) && (n > 0 ==> ids != []) && forall id | id in ids :: UpTo(id, n)
  }

  /** Different ids of one assertion, at least one. */
  ghost predicate OfOne(ids: seq<string>, index: nat) {
    Distinct(ids) && ids != [] && forall id | id in ids :: From(id, index)
  }

  lemma SignalIds(policy: Policy, raw: RawAssertion, index: nat)
    requires AssertionSignal(policy, raw, index).Some?
    ensures var s := AssertionSignal(policy, raw, index).value;
      OfOne(Ids(s), index) && (s.semantic == [] || s.deterministic == [])
  {
    var s := AssertionSignal(policy, raw, index).value;
    if raw.Requirements? {
      forall k | 0 <= k < |s.semantic| ensures From(s.semantic[k].id, index) {
        RequirementCount(policy, index, raw.items);
        RequirementIds(policy, index, raw.items, k);
      }
      RequirementCount(policy, index, raw.items);
      assert SemanticIds(s.semantic) + DeterministicIds(s.deterministic) == SemanticIds(s.semantic);
    } else {
      assert From(ProjectedId(index, None), index);
    }
  }

  lemma {:induction false} RequirementCount(policy: Policy, index: nat, items: seq<RawRequirement>)
    requires RequirementsOf(policy, index, items).Some?
    ensures |RequirementsOf(policy, index, items).value| == |items|
    decreases |items|
  {
    if items == [] {
    } else {
      RequirementCount(policy, index, items[..|items| - 1]);
    }
  }

  lemma OlderIdsDiffer(a: string, n: nat, b: string, index: nat)
    requires UpTo(a, n) && From(b, index) && n < index
    ensures a != b
  {
    var i: nat :| i <= n && From(a, i);
    var r :| a == ProjectedId(i, r);
    var s :| b == ProjectedId(index, s);
    if a == b { ProjectedIdInjective(i, r, index, s); }
  }

  /** Whatever the acceptance list holds, no two projected ids are equal: neither two semantic ones,
      nor two deterministic ones, nor one of each. */
  lemma {:induction false} ProjectedIdsAreUnique(policy: Policy, acceptance: seq<RawAssertion>, n: nat)
    requires n <= |acceptance| && Projection(policy, acceptance, n).Some?
    ensures Numbered(Ids(Projection(policy, acceptance, n).value), n)
    decreases n
  {
    if n == 0 {
    } else {
      var front, last := ProjectionStep(policy, acceptance, n);
      ProjectedIdsAreUnique(policy, acceptance, n - 1);
      AppendSignals(front, last, n);
    }
  }

  /** The last assertion joins its own signals to those before. */
  lemma ProjectionStep(policy: Policy, acceptance: seq<RawAssertion>, n: nat) returns (front: Signals, last: Signals)
    requires 0 < n <= |acceptance| && Projection(policy, acceptance, n).Some?
    ensures Projection(policy, acceptance, n - 1) == Some(front)
    ensures Projection(policy, acceptance, n) == Some(Joined(front, last))
    ensures OfOne(Ids(last), n) && (last.semantic == [] || last.deterministic == [])
  {
    SignalIds(policy, acceptance[n - 1], n);
    front := Projection(policy, acceptance, n - 1).value;
    last := AssertionSignal(policy, acceptance[n - 1], n).value;
  }

  lemma AppendSignals(front: Signals, last: Signals, n: nat)
    requires n > 0
    requires Numbered(Ids(front), n - 1) && OfOne(Ids(last), n)
    requires last.semantic == [] || last.deterministic == []
    ensures Numbered(Ids(Joined(front, last)), n)
  {
    var a, b := SemanticIds(front.semantic), DeterministicIds(front.deterministic);
    var c, d := SemanticIds(last.semantic), DeterministicIds(last.deterministic);
    assert SemanticIds(front.semantic + last.semantic) == a + c;
    assert DeterministicIds(front.deterministic + last.deterministic) == b + d;
    forall x, y | x in a + b && y in c + d ensures x != y { OlderIdsDiffer(x, n - 1, y, n); }
    forall x | x in a + b ensures UpTo(x, n) {
      var i: nat :| i <= n - 1 && From(x, i);
    }
    forall x | x in c + d ensures UpTo(x, n) { assert From(x, n); }
    UniqueJoin(a, b, c, d);
  }

  /** Two duplicate-free lists without common members stay so when joined piecewise. */
  lemma UniqueJoin(a: seq<string>, b: seq<string>, c: seq<string>, d: seq<string>)
    requires Distinct(a + b) && Distinct(c + d) && (c == [] || d == [])
    requires forall x, y | x in a + b && y in c + d :: x != y
    ensures Distinct((a + c) + (b + d)) && (c + d != [] ==> (a + c) + (b + d) != [])
    ensures forall x :: x in (a + c) + (b + d) <==> x in a + b || x in c + d
  {
    DistinctAppend(a, b);
    DistinctAppend(c, d);
    assert forall x :: x in a + b <==> x in a || x in b;
    assert forall x :: x in c + d <==> x in c || x in d;
    DistinctAppend(a, c);
    DistinctAppend(b, d);
    assert Apart(a + c, b + d);
    DistinctAppend(a + c, b + d);
  }

  // ---- The definition, the judge's evidence and the observation ----

  datatype Runner = Runner(provider: string, adapterId: string, adapterVersion: string)

  datatype Definition = Definition(
    cases: ScenarioSet, scorer: Scorer, semantic: seq<Semantic>, deterministic: seq<Deterministic>)

  /** The part of `load_selected_case` that projects the case. */
  method Load(policy: Policy, candidate: string, setId: string, caseId: string, acceptance: seq<RawAssertion>,
      forbidden: seq<string>) returns (definition: Option<Definition>)
    ensures definition.Some? <==> acceptance != [] && AllAcceptable(policy, acceptance, |acceptance|)
    ensures definition.Some? ==>
      && Loaded(definition.value)
      && SplitsInto(acceptance, Signals(definition.value.semantic, definition.value.deterministic))
      && definition.value.cases.candidate == candidate && definition.value.cases.setId == setId
      && definition.value.cases.cases[0].caseId == caseId
      && definition.value.cases.cases[0].forbiddenCommands == forbidden
  {
    var signals := AssertionSignals(policy, acceptance);
    if signals.None? { return None; }
    var semantic, deterministic := signals.value.semantic, signals.value.deterministic;
    var ids := SemanticIds(semantic) + DeterministicIds(deterministic);
    var selected := Case(caseId, ids, forbidden, ExpectedSignal, None);
    definition := Some(Definition(ScenarioSet(candidate, setId, [selected]), Scorer(candidate, true, 1.0, false, []),
      semantic, deterministic));
  }

  /** What `_revalidate_definition` checks of a loaded definition. */
  predicate Loaded(d: Definition) {
    && |d.cases.cases| == 1 && d.cases.Valid() && d.scorer == Scorer(d.cases.candidate, true, 1.0, false, [])
    && d.cases.cases[0].oracle.ExpectedSignal?
    && d.cases.cases[0].expectedSignals == SemanticIds(d.semantic) + DeterministicIds(d.deterministic)
    && Distinct(d.cases.cases[0].expectedSignals)
  }

  datatype JudgeEvidence = JudgeEvidence(
    candidate: string, setId: string, caseId: string, provider: string, output: string, contract: Digest<seq<Semantic>>,
    judge: Runner, satisfied: seq<string>, refs: seq<string>, judgeResult: string)

  predicate Occurs(policy: Policy, needle: string, text: string) {
    Within(policy.fold(needle), policy.fold(text))
  }

  predicate Within(needle: string, text: string) {
    exists i | 0 <= i <= |text| - |needle| :: MatchesAt(needle, text, i)
  }

  predicate MatchesAt(needle: string, text: string, i: nat)
    requires i <= |text| - |needle|
  {
    text[i..i + |needle|] == needle
  }

  predicate Holds(policy: Policy, d: Deterministic, text: string) {
    if d.kind.Contains? then Occurs(policy, d.expected, text) else !Occurs(policy, d.expected, text)
  }

  function HoldingIds(policy: Policy, text: string, assertions: seq<Deterministic>): seq<string> {
    if assertions == [] then []
    else
      var last := assertions[|assertions| - 1];
      HoldingIds(policy, text, assertions[..|assertions| - 1]) + if Holds(policy, last, text) then [last.id] else []
  }

  /** `_deterministic_signals`: appends in a loop. */
  method DeterministicSignals(policy: Policy, text: string, assertions: seq<Deterministic>) returns (signals: seq<string>)
    ensures signals == HoldingIds(policy, text, assertions)
    ensures forall id :: id in signals <==>
      exists d | d in assertions :: d.id == id && (d.kind.Contains? <==> Occurs(policy, d.expected, text))
  {
    signals := [];
    for i := 0 to |assertions|
      invariant signals == HoldingIds(policy, text, assertions[..i])
    {
      assert assertions[..i + 1][..i] == assertions[..i];
      var present := Occurs(policy, assertions[i].expected, text);
      var passed := if assertions[i].kind.Contains? then present else !present;
      if passed { signals := signals + [assertions[i].id]; }
    }
    assert assertions[..|assertions|] == assertions;
    forall id ensures id in signals <==> exists d | d in assertions :: d.id == id && Holds(policy, d, text) {
      HoldingMembers(policy, text, assertions, id);
    }
  }

  lemma {:induction false} HoldingMembers(policy: Policy, text: string, assertions: seq<Deterministic>, id: string)
    ensures id in HoldingIds(policy, text, assertions) <==> exists d | d in assertions :: d.id == id && Holds(policy, d, text)
  {
    if assertions == [] {
    } else {
      var front, last := assertions[..|assertions| - 1], assertions[|assertions| - 1];
      HoldingMembers(policy, text, front, id);
      assert assertions == front + [last];
    }
  }

  /** `_observed_forbidden_commands`. */
  function ObservedForbidden(policy: Policy, text: string, commands: seq<string>): seq<string> {
    if commands == [] then []
    else (if Occurs(policy, commands[0], text) then [commands[0]] else []) + ObservedForbidden(policy, text, commands[1..])
  }

  lemma {:induction false} ObservedForbiddenMembers(policy: Policy, text: string, commands: seq<string>, c: string)
    ensures c in ObservedForbidden(policy, text, commands) <==> c in commands && Occurs(policy, c, text)
  {
    if commands == [] {
    } else {
      ObservedForbiddenMembers(policy, text, commands[1..], c);
    }
  }

  /** `dict.fromkeys`: first occurrences, in order. */
  function Dedupe(items: seq<string>): (r: seq<string>)
    ensures Distinct(r) && forall x :: x in r <==> x in items
  {
    if items == [] then []
    else
      var front, last := Dedupe(items[..|items| - 1]), items[|items| - 1];
      assert forall x :: x in items <==> x in items[..|items| - 1] || x == last;
      if last in front then front else front + [last]
  }

  function BlockedObservation(d: Definition, provider: string, runner: Runner, code: Code, refs: seq<string>): Observation
    requires Loaded(d)
  {
    Observation(d.cases.candidate, d.cases.setId, d.cases.cases[0].caseId, provider, false, [], [], [], None,
      runner.adapterId, runner.adapterVersion, Some(Blocker(code, refs)))
  }

  predicate Bound(d: Definition, request: Runner, supplied: JudgeEvidence, output: string)
    requires Loaded(d)
  {
    && supplied.candidate == d.cases.candidate && supplied.setId == d.cases.setId
    && supplied.caseId == d.cases.cases[0].caseId && supplied.provider == request.provider
    && supplied.output == output && supplied.contract == Sha256(d.semantic)
  }

  const JUDGE_RESULTS: string := "judge-results/"

  /** Why evidence is refused, by the first thing that is wrong with it: the digest of the text, the identity of
      the evidence, an id that is no semantic one, or the missing reference to the judge's result. */
  predicate RefusedFor(policy: Policy, d: Definition, request: Runner, supplied: JudgeEvidence, text: string,
      output: string, code: Code)
    requires Loaded(d)
  {
    if policy.hash(text) != output then code.InvalidProviderOutput?
    else if
      || supplied.candidate != d.cases.candidate || supplied.setId != d.cases.setId
      || supplied.caseId != d.cases.cases[0].caseId || supplied.provider != request.provider
      || supplied.output != output || supplied.contract != Sha256(d.semantic)
    then code.SelectedCaseIdentityMismatch?
    else if exists id | id in supplied.satisfied :: forall a | a in d.semantic :: a.id != id then
      code.MissingSemanticEvidence?
    else JUDGE_RESULTS + supplied.judgeResult !in supplied.refs && code.JudgeResultRefRequired?
  }

  lemma SemanticIdsMean(items: seq<Semantic>, id: string)
    ensures id in SemanticIds(items) <==> exists a | a in items :: a.id == id
  {
    if a :| a in items && a.id == id {
      var k :| 0 <= k < |items| && items[k] == a;
      assert SemanticIds(items)[k] == id;
    }
    if id in SemanticIds(items) {
      var k :| 0 <= k < |items| && SemanticIds(items)[k] == id;
      assert items[k] in items;
    }
  }

  /** `_validated_observation`. */
  method ValidatedObservation(policy: Policy, d: Definition, request: Runner, supplied: JudgeEvidence, text: string,
      output: string, providerRefs: seq<string>) returns (o: Observation)
    requires Loaded(d)
    ensures o.Valid() && o.caseId == d.cases.cases[0].caseId && o.candidate == d.cases.candidate && o.setId == d.cases.setId
    ensures o.completed <==> Evidenced(policy, d, request, supplied, text, output)
    ensures o.completed ==> o.output == Some(output)
    ensures o.completed ==> o.signals == supplied.satisfied + HoldingIds(policy, text, d.deterministic)
    ensures o.completed ==> o.runnerId == supplied.judge.adapterId && o.runnerVersion == supplied.judge.adapterVersion
    ensures o.completed ==> forall ref :: ref in o.refs <==> ref in providerRefs || ref in supplied.refs
    ensures !o.completed ==>
      && o.blocker == Some(Blocker(o.blocker.value.code, providerRefs))
      && RefusedFor(policy, d, request, supplied, text, output, o.blocker.value.code)
    ensures o.completed ==> o.commands == ObservedForbidden(policy, text, d.cases.cases[0].forbiddenCommands)
  {
    forall id ensures id in SemanticIds(d.semantic) <==> exists a | a in d.semantic :: a.id == id {
      SemanticIdsMean(d.semantic, id);
    }
    if policy.hash(text) != output {
      return BlockedObservation(d, request.provider, supplied.judge, InvalidProviderOutput, providerRefs);
    }
    if !Bound(d, request, supplied, output) {
      return BlockedObservation(d, request.provider, supplied.judge, SelectedCaseIdentityMismatch, providerRefs);
    }
    if exists id | id in supplied.satisfied :: id !in SemanticIds(d.semantic) {
      return BlockedObservation(d, request.provider, supplied.judge, MissingSemanticEvidence, providerRefs);
    }
    var deterministic := DeterministicSignals(policy, text, d.deterministic);
    if JUDGE_RESULTS + supplied.judgeResult !in supplied.refs {
      return BlockedObservation(d, request.provider, supplied.judge, JudgeResultRefRequired, providerRefs);
    }
    o := Observation(supplied.candidate, supplied.setId, supplied.caseId, supplied.provider, true,
      supplied.satisfied + deterministic, ObservedForbidden(policy, text, d.cases.cases[0].forbiddenCommands),
      Dedupe(providerRefs + supplied.refs), Some(supplied.output), supplied.judge.adapterId, supplied.judge.adapterVersion, None);
  }

  /** The evidence is bound to the executed output and claims semantic ids only. */
  predicate Evidenced(policy: Policy, d: Definition, request: Runner, supplied: JudgeEvidence, text: string, output: string)
    requires Loaded(d)
  {
    && policy.hash(text) == output && supplied.output == output
    && supplied.candidate == d.cases.candidate && supplied.setId == d.cases.setId
    && supplied.caseId == d.cases.cases[0].caseId && supplied.provider == request.provider
    && supplied.contract == Sha256(d.semantic)
    && (forall id | id in supplied.satisfied :: id in SemanticIds(d.semantic))
    && JUDGE_RESULTS + supplied.judgeResult in supplied.refs
  }

  /** Every semantic id is claimed, every deterministic assertion holds of the text, and no forbidden
      command occurs in it. */
  predicate Satisfied(policy: Policy, d: Definition, supplied: JudgeEvidence, text: string)
    requires Loaded(d)
  {
    && (forall id | id in SemanticIds(d.semantic) :: id in supplied.satisfied)
    && (forall a | a in d.deterministic :: a.kind.Contains? <==> Occurs(policy, a.expected, text))
    && (forall c | c in d.cases.cases[0].forbiddenCommands :: !Occurs(policy, c, text))
  }

  lemma SingleCase(d: Definition, o: Observation, blank: string -> bool)
    requires Loaded(d) && o.Valid()
    requires o.caseId == d.cases.cases[0].caseId && o.candidate == d.cases.candidate && o.setId == d.cases.setId
    ensures var r, result := Evaluate(d.cases, [o], d.scorer, [], blank), EvaluateCase(d.cases.cases[0], o);
      && r.status == result.status && r.results == [result]
      && r.score == (if r.status.Blocked? then None else if r.status.Pass? then Some(1.0) else Some(0.0))
      && r.blocker == (if r.status.Blocked? then Some(Blocker(ScenarioBlocked, [])) else None)
  {
    var c := d.cases.cases[0];
    assert Observed([o], c.caseId) by { assert o in [o]; }
    assert Declared(d.cases.cases, o.caseId) by { assert c in d.cases.cases; }
    assert Covers([o], d.cases.cases);
    assert Find([o], c.caseId) == o;
    var results := EvaluateCases(d.cases.cases, [o]);
    assert results == [EvaluateCase(c, o)];
    assert results[1..] == [] && Passes([]) == 0;
    assert EvaluateCase(c, o) in results;
  }

  lemma SameIdSamePlace(ids: seq<string>, i: nat, j: nat)
    requires Distinct(ids) && i < |ids| && j < |ids| && ids[i] == ids[j]
    ensures i == j
  {
  }

  /** A deterministic id is signalled exactly when its own assertion holds: the judge's ids are
      semantic ones, and no semantic id equals a deterministic one. */
  lemma DeterministicIdsAreTheirOwn(policy: Policy, d: Definition, satisfied: seq<string>, text: string, a: Deterministic)
    requires Loaded(d) && a in d.deterministic
    requires forall id | id in satisfied :: id in SemanticIds(d.semantic)
    ensures a.id in satisfied + HoldingIds(policy, text, d.deterministic) <==> Holds(policy, a, text)
  {
    var s, t := SemanticIds(d.semantic), DeterministicIds(d.deterministic);
    var ids := s + t;
    var k :| 0 <= k < |d.deterministic| && d.deterministic[k] == a;
    assert ids[|s| + k] == a.id;
    assert a.id !in s by {
      forall i | 0 <= i < |s| ensures s[i] != a.id { assert ids[i] != ids[|s| + k]; }
    }
    HoldingMembers(policy, text, d.deterministic, a.id);
    forall b | b in d.deterministic && b.id == a.id ensures b == a {
      var j :| 0 <= j < |d.deterministic| && d.deterministic[j] == b;
      SameIdSamePlace(ids, |s| + j, |s| + k);
    }
  }

  lemma SignalsMeanSatisfied(policy: Policy, d: Definition, supplied: JudgeEvidence, text: string)
    requires Loaded(d) && forall id | id in supplied.satisfied :: id in SemanticIds(d.semantic)
    ensures var signals := supplied.satisfied + HoldingIds(policy, text, d.deterministic);
      (forall id | id in d.cases.cases[0].expectedSignals :: id in signals)
      <==> (forall id | id in SemanticIds(d.semantic) :: id in supplied.satisfied)
           && (forall a | a in d.deterministic :: Holds(policy, a, text))
  {
    var signals := supplied.satisfied + HoldingIds(policy, text, d.deterministic);
    var s, t := SemanticIds(d.semantic), DeterministicIds(d.deterministic);
    forall a | a in d.deterministic ensures (a.id in signals <==> Holds(policy, a, text)) && a.id in t {
      DeterministicIdsAreTheirOwn(policy, d, supplied.satisfied, text, a);
      var k :| 0 <= k < |d.deterministic| && d.deterministic[k] == a;
      assert t[k] == a.id;
    }
    forall id | id in s ensures id in signals <==> id in supplied.satisfied {
      SemanticIsNotDeterministic(policy, d, text, id);
    }
    forall id | id in t ensures exists a | a in d.deterministic :: a.id == id {
      var k :| 0 <= k < |t| && t[k] == id;
      assert d.deterministic[k] in d.deterministic;
    }
    assert forall id :: id in d.cases.cases[0].expectedSignals <==> id in s || id in t;
  }

  lemma SemanticIsNotDeterministic(policy: Policy, d: Definition, text: string, id: string)
    requires Loaded(d) && id in SemanticIds(d.semantic)
    ensures id !in HoldingIds(policy, text, d.deterministic)
  {
    var s, t := SemanticIds(d.semantic), DeterministicIds(d.deterministic);
    var ids := s + t;
    HoldingMembers(policy, text, d.deterministic, id);
    var i :| 0 <= i < |s| && s[i] == id;
    forall a | a in d.deterministic ensures a.id != id {
      var k :| 0 <= k < |d.deterministic| && d.deterministic[k] == a;
      assert ids[i] != ids[|s| + k];
    }
  }

  /** What the evaluator asks of the observation is what the definition asserts of the text. */
  lemma MeetsIsSatisfied(policy: Policy, d: Definition, supplied: JudgeEvidence, text: string, o: Observation)
    requires Loaded(d) && forall id | id in supplied.satisfied :: id in SemanticIds(d.semantic)
    requires o.signals == supplied.satisfied + HoldingIds(policy, text, d.deterministic)
    requires o.commands == ObservedForbidden(policy, text, d.cases.cases[0].forbiddenCommands)
    ensures Meets(d.cases.cases[0], o) <==> Satisfied(policy, d, supplied, text)
  {
    var commands := d.cases.cases[0].forbiddenCommands;
    SignalsMeanSatisfied(policy, d, supplied, text);
    forall k ensures k in o.commands <==> k in commands && Occurs(policy, k, text) {
      ObservedForbiddenMembers(policy, text, commands, k);
    }
  }

  /** A selected case passes exactly when its evidence is bound and accepted and everything it asserts
      holds; bound evidence that falls short fails, and unbound evidence blocks. */
  method EvaluateSelected(policy: Policy, d: Definition, request: Runner, supplied: JudgeEvidence, text: string,
      output: string, providerRefs: seq<string>) returns (receipt: Receipt)
    requires Loaded(d)
    ensures receipt.Valid()
    ensures receipt.status.Blocked? <==> !Evidenced(policy, d, request, supplied, text, output)
    ensures receipt.status.Pass?
      <==> Evidenced(policy, d, request, supplied, text, output) && Satisfied(policy, d, supplied, text)
    ensures !receipt.status.Blocked? ==> receipt.score == Some(if receipt.status.Pass? then 1.0 else 0.0)
    ensures receipt.status.Blocked? ==>
      && receipt.blocker == Some(Blocker(ScenarioBlocked, [])) && |receipt.results| == 1
      && receipt.results[0].blocker.Some? && receipt.results[0].blocker.value.refs == providerRefs
      && RefusedFor(policy, d, request, supplied, text, output, receipt.results[0].blocker.value.code)
  {
    var o := ValidatedObservation(policy, d, request, supplied, text, output, providerRefs);
    receipt := Evaluate(d.cases, [o], d.scorer, [], policy.blank);
    ReceiptAccepted(d.cases, [o], d.scorer, [], policy.blank);
    SingleCase(d, o, policy.blank);
    assert d.cases.cases[0] in d.cases.cases;
    PassMeans(d.cases.cases[0], o);
    if o.completed { MeetsIsSatisfied(policy, d, supplied, text, o); }
  }
}
