/** The deterministic evaluator against the validators of the results and receipts it emits. */
module Scoring {
  import opened Common

  /** The blocker codes of the evaluator and of the selected-case projection, each with its constant
      message; `Given` came in with an observation. */
  datatype Code =
    | ScorerCandidateMismatch | ProviderAdapterRequired | InvalidCalibrationProbe | DuplicateCalibrationProbe
    | UnknownCalibrationProbe | CalibrationIncomplete | DuplicateObservation | ObservationSetMismatch
    | ObservationIdentityMismatch | ProviderIdentityMismatch | ScenarioBlocked | UnsupportedOracle
    | ExactMatchDigestRequired | InvalidProviderOutput | SelectedCaseIdentityMismatch | MissingSemanticEvidence
    | JudgeResultRefRequired | Given(text: string)

  datatype Blocker = Blocker(code: Code, refs: seq<string>)

  datatype Oracle = ExactMatch | ExpectedSignal | Structured

  datatype Case = Case(
    caseId: string, expectedSignals: seq<string>, forbiddenCommands: seq<string>, oracle: Oracle, expectedOutput: Option<string>)
  {
    predicate Valid() {
      expectedSignals != [] && (!oracle.ExactMatch? ==> expectedOutput.None?)
    }
  }

  datatype ScenarioSet = ScenarioSet(candidate: string, setId: string, cases: seq<Case>) {
    predicate Valid() {
      && cases != [] && (forall c | c in cases :: c.Valid())
      && (forall i, j | 0 <= i < j < |cases| :: cases[i].caseId != cases[j].caseId)
    }
  }

  datatype Observation = Observation(
    candidate: string, setId: string, caseId: string, provider: string, completed: bool,
    signals: seq<string>, commands: seq<string>, refs: seq<string>, output: Option<string>,
    runnerId: string, runnerVersion: string, blocker: Option<Blocker>)
  {
    predicate Valid() {
      && Distinct(refs)
      && (if completed then blocker.None? && output.Some?
          else blocker.Some? && output.None? && signals == [] && commands == [])
    }
  }

  datatype Scorer = Scorer(
    candidate: string, deterministic: bool, threshold: real, calibrationRequired: bool, probes: seq<string>)
  {
    predicate Valid() {
      0.0 <= threshold <= 1.0 && Distinct(probes) && (calibrationRequired ==> probes != [])
    }
  }

  datatype Status = Pass | Fail | Blocked

  datatype CaseResult = CaseResult(
    candidate: string, setId: string, caseId: string, provider: string, status: Status,
    missing: seq<string>, forbidden: seq<string>, refs: seq<string>, output: Option<string>,
    expectedOutput: Option<string>, mismatch: bool, runnerId: string, runnerVersion: string, blocker: Option<Blocker>)
  {
    predicate Failing() {
      missing != [] || forbidden != [] || mismatch
    }

    /** `status_matches_findings`. */
    predicate Valid() {
      && Distinct(refs)
      && (status.Pass? ==> !Failing() && blocker.None?)
      && (status.Fail? ==> Failing() && blocker.None?)
      && (status.Blocked? ==> blocker.Some? && !Failing() && output.None?)
      && (!status.Blocked? ==> output.Some?)
      && (mismatch ==> expectedOutput.Some?)
      && (expectedOutput.Some? && output.Some? ==> (mismatch <==> expectedOutput != output))
    }
  }

  /** What a receipt id digests. */
  datatype Content = Content(
    candidate: string, setId: string, provider: Option<string>, scorer: Scorer, status: Status,
    results: seq<CaseResult>, blocker: Option<Blocker>, probes: seq<string>)

  datatype Receipt = Receipt(
    receiptId: Digest<Content>, candidate: string, setId: string, provider: Option<string>, scorer: Scorer, status: Status,
    score: Option<real>, results: seq<CaseResult>, probes: seq<string>, blocker: Option<Blocker>)
  {
    predicate BindsResults() {
      && (scorer.candidate != candidate ==>
            status.Blocked? && blocker.Some? && blocker.value.code.ScorerCandidateMismatch?)
      && (forall i, j | 0 <= i < j < |results| :: results[i].caseId != results[j].caseId)
      && (forall r | r in results :: r.candidate == candidate && r.setId == setId)
      && (results != [] ==> provider.Some?)
      && (provider.Some? ==> forall r | r in results :: r.provider == provider.value)
    }

    predicate BindsProbes() {
      Distinct(probes) && (forall p | p in probes :: p in scorer.probes) && probes == Chosen(scorer.probes, probes)
    }

    predicate StatusMatches() {
      if status.Blocked? then
        (blocker.Some? || exists r | r in results :: r.status.Blocked?) && score.None?
      else
        && provider.Some? && blocker.None? && (forall r | r in results :: !r.status.Blocked?)
        && score.Some? && results != [] && scorer.deterministic
        && (scorer.calibrationRequired ==> forall p | p in scorer.probes :: p in probes)
        && score.value == Ratio(results)
        && (status.Pass? <==> score.value >= scorer.threshold)
    }

    /** `receipt_is_bound`. */
    predicate Valid() {
      BindsResults() && BindsProbes() && StatusMatches()
    }
  }

  /** The declared items that were supplied, in declared order. */
  function Chosen(declared: seq<string>, supplied: seq<string>): seq<string> {
    if declared == [] then []
    else (if declared[0] in supplied then [declared[0]] else []) + Chosen(declared[1..], supplied)
  }

  function Passes(results: seq<CaseResult>): nat {
    if results == [] then 0 else (if results[0].status.Pass? then 1 else 0) + Passes(results[1..])
  }

  /** The pass ratio, as a rational. */
  function Ratio(results: seq<CaseResult>): real
    requires results != []
  {
    Passes(results) as real / |results| as real
  }

  // ---- The evaluator ----

  function BlockedReceipt(cases: ScenarioSet, scorer: Scorer, blocker: Blocker, provider: Option<string>,
      results: seq<CaseResult>, probes: seq<string>): Receipt
  {
    var id := Sha256(Content(cases.candidate, cases.setId, provider, scorer, Blocked, results, Some(blocker), probes));
    Receipt(id, cases.candidate, cases.setId, provider, scorer, Blocked, None, results, probes, Some(blocker))
  }

  function Missing(expected: seq<string>, observed: seq<string>): seq<string> {
    if expected == [] then []
    else (if expected[0] !in observed then [expected[0]] else []) + Missing(expected[1..], observed)
  }

  function Forbidden(observed: seq<string>, commands: seq<string>): seq<string> {
    if observed == [] then []
    else (if observed[0] in commands then [observed[0]] else []) + Forbidden(observed[1..], commands)
  }

  function BlockedResult(c: Case, o: Observation, blocker: Option<Blocker>): CaseResult {
    CaseResult(o.candidate, o.setId, c.caseId, o.provider, Blocked, [], [], o.refs, None, None, false,
      o.runnerId, o.runnerVersion, blocker)
  }

  /** `_evaluate_case`. */
  function EvaluateCase(c: Case, o: Observation): CaseResult
    requires o.Valid()
  {
    if !o.completed then BlockedResult(c, o, o.blocker)
    else if c.oracle.Structured? then
      BlockedResult(c, o, Some(Blocker(UnsupportedOracle, o.refs)))
    else if c.oracle.ExactMatch? && c.expectedOutput.None? then
      BlockedResult(c, o, Some(Blocker(ExactMatchDigestRequired, o.refs)))
    else
      var missing := if c.oracle.ExpectedSignal? then Missing(c.expectedSignals, o.signals) else [];
      var forbidden := Forbidden(o.commands, c.forbiddenCommands);
      var mismatch := c.oracle.ExactMatch? && o.output != c.expectedOutput;
      var status := if missing != [] || forbidden != [] || mismatch then Fail else Pass;
      CaseResult(o.candidate, o.setId, c.caseId, o.provider, status, missing, forbidden, o.refs, o.output,
        c.expectedOutput, mismatch, o.runnerId, o.runnerVersion, None)
  }

  predicate UniqueIds(items: seq<Observation>) {
    forall i, j | 0 <= i < j < |items| :: items[i].caseId != items[j].caseId
  }

  predicate Observed(items: seq<Observation>, id: string) {
    exists o | o in items :: o.caseId == id
  }

  predicate Declared(cases: seq<Case>, id: string) {
    exists c | c in cases :: c.caseId == id
  }

  /** Every case has an observation. */
  predicate Covered(items: seq<Observation>, cases: seq<Case>) {
    forall c | c in cases :: Observed(items, c.caseId)
  }

  predicate Covers(items: seq<Observation>, cases: seq<Case>) {
    && (forall o | o in items :: Declared(cases, o.caseId))
    && Covered(items, cases)
  }

  predicate BindAll(items: seq<Observation>, cases: ScenarioSet) {
    forall o | o in items :: o.candidate == cases.candidate && o.setId == cases.setId
  }

  predicate OneProvider(items: seq<Observation>) {
    items != [] && forall o | o in items :: o.provider == items[0].provider
  }

  function Find(items: seq<Observation>, id: string): (o: Observation)
    requires Observed(items, id)
    ensures o in items && o.caseId == id
  {
    if items[0].caseId == id then items[0] else Find(items[1..], id)
  }

  function EvaluateCases(cases: seq<Case>, items: seq<Observation>): (results: seq<CaseResult>)
    requires forall o | o in items :: o.Valid()
    requires Covered(items, cases)
    ensures |results| == |cases|
  {
    seq(|cases|, i requires 0 <= i < |cases| => EvaluateCase(cases[i], Find(items, cases[i].caseId)))
  }

  /** The checks on the supplied calibration probes, in order. */
  function ProbeBlocker(scorer: Scorer, supplied: seq<string>, blank: string -> bool): Option<Blocker> {
    if exists p | p in supplied :: blank(p) then
      Some(Blocker(InvalidCalibrationProbe, []))
    else if !Distinct(supplied) then
      Some(Blocker(DuplicateCalibrationProbe, []))
    else if exists p | p in supplied :: p !in scorer.probes then
      Some(Blocker(UnknownCalibrationProbe, []))
    else None
  }

  /** The checks on the observations, in order. */
  function ObservationBlocker(cases: ScenarioSet, items: seq<Observation>): Option<Blocker> {
    if !UniqueIds(items) then Some(Blocker(DuplicateObservation, []))
    else if !Covers(items, cases.cases) then
      Some(Blocker(ObservationSetMismatch, []))
    else if !BindAll(items, cases) then
      Some(Blocker(ObservationIdentityMismatch, []))
    else if !OneProvider(items) then
      Some(Blocker(ProviderIdentityMismatch, []))
    else None
  }

  /** A blocker found before any case is evaluated, with the probes the receipt then reports. */
  datatype Early = Early(blocker: Blocker, probes: seq<string>)

  function EarlyBlocker(cases: ScenarioSet, items: seq<Observation>, scorer: Scorer, supplied: seq<string>,
      blank: string -> bool): Option<Early>
  {
    if scorer.candidate != cases.candidate then Some(Early(Blocker(ScorerCandidateMismatch, []), []))
    else if !scorer.deterministic then Some(Early(Blocker(ProviderAdapterRequired, []), []))
    else
      var probeBlocker := ProbeBlocker(scorer, supplied, blank);
      if probeBlocker.Some? then Some(Early(probeBlocker.value, []))
      else
        var completed := Chosen(scorer.probes, supplied);
        if scorer.calibrationRequired && exists p | p in scorer.probes :: p !in supplied then
          Some(Early(Blocker(CalibrationIncomplete, []), completed))
        else
          var blocker := ObservationBlocker(cases, items);
          if blocker.Some? then Some(Early(blocker.value, completed)) else None
  }

  /** The receipt over evaluated cases. */
  function Conclude(cases: ScenarioSet, scorer: Scorer, provider: string, results: seq<CaseResult>, completed: seq<string>): Receipt
    requires results != []
  {
    if exists r | r in results :: r.status.Blocked? then
      BlockedReceipt(cases, scorer, Blocker(ScenarioBlocked, []), Some(provider), results, completed)
    else
      var score := Ratio(results);
      var status := if score >= scorer.threshold then Pass else Fail;
      var id := Sha256(Content(cases.candidate, cases.setId, Some(provider), scorer, status, results, None, completed));
      Receipt(id, cases.candidate, cases.setId, Some(provider), scorer, status, Some(score), results, completed, None)
  }

  /** `evaluate_scenario_set_v2`. */
  function Evaluate(cases: ScenarioSet, items: seq<Observation>, scorer: Scorer, supplied: seq<string>, blank: string -> bool): Receipt
    requires cases.Valid() && forall o | o in items :: o.Valid()
  {
    var early := EarlyBlocker(cases, items, scorer, supplied, blank);
    if early.Some? then BlockedReceipt(cases, scorer, early.value.blocker, None, [], early.value.probes)
    else
      Conclude(cases, scorer, items[0].provider, EvaluateCases(cases.cases, items), Chosen(scorer.probes, supplied))
  }

  // ---- Every receipt is accepted by its own validator ----

  lemma CaseResultAccepted(c: Case, o: Observation)
    requires c.Valid() && o.Valid()
    ensures EvaluateCase(c, o).Valid()
  {
  }

  lemma {:induction false} ChosenMembers(declared: seq<string>, supplied: seq<string>, p: string)
    ensures p in Chosen(declared, supplied) <==> p in declared && p in supplied
  {
    if declared == [] {
    } else {
      ChosenMembers(declared[1..], supplied, p);
    }
  }

  lemma {:induction false} ChosenUnique(declared: seq<string>, supplied: seq<string>)
    requires Distinct(declared)
    ensures Distinct(Chosen(declared, supplied))
  {
    if declared == [] {
    } else {
      ChosenUnique(declared[1..], supplied);
      ChosenMembers(declared[1..], supplied, declared[0]);
      assert declared[0] !in declared[1..];
    }
  }

  /** Only membership matters for what is chosen. */
  lemma {:induction false} ChosenAgree(declared: seq<string>, a: seq<string>, b: seq<string>)
    requires forall p | p in declared :: p in a <==> p in b
    ensures Chosen(declared, a) == Chosen(declared, b)
  {
    if declared == [] {
    } else {
      assert declared[0] in declared;
      ChosenAgree(declared[1..], a, b);
    }
  }

  lemma CompletedProbes(declared: seq<string>, supplied: seq<string>)
    requires Distinct(declared)
    ensures var probes := Chosen(declared, supplied);
      Distinct(probes) && (forall p | p in probes :: p in declared) && probes == Chosen(declared, probes)
    ensures (forall p | p in declared :: p in supplied) ==> forall p | p in declared :: p in Chosen(declared, supplied)
  {
    var probes := Chosen(declared, supplied);
    ChosenUnique(declared, supplied);
    forall p ensures p in probes <==> p in declared && p in supplied { ChosenMembers(declared, supplied, p); }
    ChosenAgree(declared, supplied, probes);
  }

  lemma ResultsBind(cases: ScenarioSet, items: seq<Observation>)
    requires cases.Valid() && (forall o | o in items :: o.Valid()) && ObservationBlocker(cases, items).None?
    ensures var results := EvaluateCases(cases.cases, items);
      && (forall i | 0 <= i < |results| :: results[i].caseId == cases.cases[i].caseId)
      && (forall r | r in results ::
            r.candidate == cases.candidate && r.setId == cases.setId && r.provider == items[0].provider && r.Valid())
  {
    var results := EvaluateCases(cases.cases, items);
    forall i | 0 <= i < |results|
      ensures results[i].candidate == cases.candidate && results[i].setId == cases.setId
      ensures results[i].provider == items[0].provider && results[i].caseId == cases.cases[i].caseId
      ensures results[i].Valid()
    {
      var c := cases.cases[i];
      assert c in cases.cases;
      CaseResultAccepted(c, Find(items, c.caseId));
    }
  }

  lemma ConclusionAccepted(cases: ScenarioSet, scorer: Scorer, provider: string, results: seq<CaseResult>, completed: seq<string>)
    requires cases.Valid() && scorer.candidate == cases.candidate && scorer.deterministic && |results| == |cases.cases|
    requires forall i | 0 <= i < |results| :: results[i].caseId == cases.cases[i].caseId
    requires forall r | r in results :: r.candidate == cases.candidate && r.setId == cases.setId && r.provider == provider
    requires Distinct(completed) && (forall p | p in completed :: p in scorer.probes) && completed == Chosen(scorer.probes, completed)
    requires scorer.calibrationRequired ==> forall p | p in scorer.probes :: p in completed
    ensures Conclude(cases, scorer, provider, results, completed).Valid()
  {
  }

  lemma EarlyProbes(cases: ScenarioSet, items: seq<Observation>, scorer: Scorer, supplied: seq<string>, blank: string -> bool)
    requires scorer.Valid() && EarlyBlocker(cases, items, scorer, supplied, blank).Some?
    ensures var probes := EarlyBlocker(cases, items, scorer, supplied, blank).value.probes;
      Distinct(probes) && (forall p | p in probes :: p in scorer.probes) && probes == Chosen(scorer.probes, probes)
  {
    CompletedProbes(scorer.probes, supplied);
    CompletedProbes(scorer.probes, []);
    ChosenNone(scorer.probes);
  }

  lemma {:induction false} ChosenNone(declared: seq<string>)
    ensures Chosen(declared, []) == []
  {
    if declared == [] {
    } else {
      ChosenNone(declared[1..]);
    }
  }

  /** For all valid inputs, the receipt and every case result in it pass their own validators. */
  lemma ReceiptAccepted(cases: ScenarioSet, items: seq<Observation>, scorer: Scorer, supplied: seq<string>, blank: string -> bool)
    requires cases.Valid() && scorer.Valid() && (forall o | o in items :: o.Valid())
    ensures Evaluate(cases, items, scorer, supplied, blank).Valid()
    ensures forall r | r in Evaluate(cases, items, scorer, supplied, blank).results :: r.Valid()
    ensures var r := Evaluate(cases, items, scorer, supplied, blank);
      && r.candidate == cases.candidate && r.setId == cases.setId && r.scorer == scorer
      && r.receiptId == Sha256(Content(cases.candidate, cases.setId, r.provider, scorer, r.status, r.results, r.blocker, r.probes))
  {
    if EarlyBlocker(cases, items, scorer, supplied, blank).Some? {
      EarlyProbes(cases, items, scorer, supplied, blank);
    } else {
      ResultsBind(cases, items);
      CompletedProbes(scorer.probes, supplied);
      ConclusionAccepted(cases, scorer, items[0].provider, EvaluateCases(cases.cases, items), Chosen(scorer.probes, supplied));
    }
  }

  // ---- The receipt does not depend on the order of its inputs ----

  /** `b` is `a` rearranged by the bijection `p`, whose inverse is `q`. */
  predicate Rearranged<T(==)>(a: seq<T>, b: seq<T>, p: seq<nat>, q: seq<nat>) {
    && |a| == |b| == |p| == |q|
    && (forall i | 0 <= i < |p| :: p[i] < |a| && q[p[i]] == i && b[i] == a[p[i]])
    && (forall i | 0 <= i < |q| :: q[i] < |a| && p[q[i]] == i)
  }

  lemma RearrangedMembers<T>(a: seq<T>, b: seq<T>, p: seq<nat>, q: seq<nat>)
    requires Rearranged(a, b, p, q)
    ensures forall x :: x in a <==> x in b
    ensures Rearranged(b, a, q, p)
  {
    forall x | x in a ensures x in b {
      var i :| 0 <= i < |a| && a[i] == x;
      assert b[q[i]] == a[p[q[i]]] == x;
    }
  }

  lemma ProbeOrder(scorer: Scorer, s: seq<string>, t: seq<string>, p: seq<nat>, q: seq<nat>, blank: string -> bool)
    requires Rearranged(s, t, p, q)
    ensures ProbeBlocker(scorer, s, blank) == ProbeBlocker(scorer, t, blank)
    ensures Chosen(scorer.probes, s) == Chosen(scorer.probes, t)
  {
    RearrangedMembers(s, t, p, q);
    ChosenAgree(scorer.probes, s, t);
  }

  lemma ObservationOrder(cases: ScenarioSet, a: seq<Observation>, b: seq<Observation>, p: seq<nat>, q: seq<nat>)
    requires Rearranged(a, b, p, q)
    ensures ObservationBlocker(cases, a) == ObservationBlocker(cases, b)
  {
    RearrangedMembers(a, b, p, q);
    if a != [] { assert a[0] in b && b[0] in a; }
  }

  lemma EarlyOrder(cases: ScenarioSet, a: seq<Observation>, b: seq<Observation>, p: seq<nat>, q: seq<nat>,
      scorer: Scorer, s: seq<string>, t: seq<string>, m: seq<nat>, n: seq<nat>, blank: string -> bool)
    requires Rearranged(a, b, p, q) && Rearranged(s, t, m, n)
    ensures EarlyBlocker(cases, a, scorer, s, blank) == EarlyBlocker(cases, b, scorer, t, blank)
  {
    RearrangedMembers(s, t, m, n);
    ProbeOrder(scorer, s, t, m, n, blank);
    ObservationOrder(cases, a, b, p, q);
  }

  lemma ResultsOrder(cases: seq<Case>, a: seq<Observation>, b: seq<Observation>)
    requires (forall o | o in a :: o.Valid()) && UniqueIds(a) && (forall x :: x in a <==> x in b)
    requires Covered(a, cases)
    ensures Covered(b, cases)
    ensures EvaluateCases(cases, a) == EvaluateCases(cases, b)
  {
    assert forall c | c in cases :: Observed(b, c.caseId) && Find(a, c.caseId) == Find(b, c.caseId);
    forall i | 0 <= i < |cases| ensures EvaluateCases(cases, a)[i] == EvaluateCases(cases, b)[i] {
      assert cases[i] in cases;
    }
  }

  lemma ConclusionOrder(cases: ScenarioSet, a: seq<Observation>, b: seq<Observation>, scorer: Scorer, completed: seq<string>)
    requires cases.Valid() && (forall o | o in a :: o.Valid()) && (forall x :: x in a <==> x in b)
    requires ObservationBlocker(cases, a).None? && ObservationBlocker(cases, b).None?
    ensures Conclude(cases, scorer, a[0].provider, EvaluateCases(cases.cases, a), completed)
      == Conclude(cases, scorer, b[0].provider, EvaluateCases(cases.cases, b), completed)
  {
    ResultsOrder(cases.cases, a, b);
    assert a[0] in b;
  }

  /** Permuting the observations or the completed probes leaves the receipt, and its id, the same. */
  lemma OrderDoesNotMatter(cases: ScenarioSet, a: seq<Observation>, b: seq<Observation>, p: seq<nat>, q: seq<nat>,
      scorer: Scorer, s: seq<string>, t: seq<string>, m: seq<nat>, n: seq<nat>, blank: string -> bool)
    requires cases.Valid() && (forall o | o in a :: o.Valid())
    requires Rearranged(a, b, p, q) && Rearranged(s, t, m, n)
    ensures forall o | o in b :: o.Valid()
    ensures Evaluate(cases, a, scorer, s, blank) == Evaluate(cases, b, scorer, t, blank)
  {
    RearrangedMembers(a, b, p, q);
    EarlyOrder(cases, a, b, p, q, scorer, s, t, m, n, blank);
    ProbeOrder(scorer, s, t, m, n, blank);
    if EarlyBlocker(cases, a, scorer, s, blank).None? {
      ConclusionOrder(cases, a, b, scorer, Chosen(scorer.probes, s));
    }
  }

  // ---- More signals and fewer commands never lower the score ----

  /** The same observation with at least the signals and at most the commands. */
  predicate Improves(worse: Observation, better: Observation) {
    && better == worse.(signals := better.signals, commands := better.commands)
    && (forall s | s in worse.signals :: s in better.signals)
    && (forall c | c in better.commands :: c in worse.commands)
  }

  lemma {:induction false} MissingNone(expected: seq<string>, observed: seq<string>)
    ensures Missing(expected, observed) == [] <==> forall s | s in expected :: s in observed
  {
    if expected == [] {
    } else {
      MissingNone(expected[1..], observed);
    }
  }

  lemma {:induction false} ForbiddenNone(observed: seq<string>, commands: seq<string>)
    ensures Forbidden(observed, commands) == [] <==> forall c | c in observed :: c !in commands
  {
    if observed == [] {
    } else {
      ForbiddenNone(observed[1..], commands);
    }
  }

  // ---- What a receipt means, said of the inputs ----

  /** `picked` is `from` with only the items that are among these, or only the others: in their order, and
      each as often. */
  ghost predicate Filters(from: seq<string>, picked: seq<string>, among: seq<string>, wanted: bool) {
    exists places: seq<nat> :: PickedAt(from, picked, places, among, wanted)
  }

  predicate PickedAt(from: seq<string>, picked: seq<string>, places: seq<nat>, among: seq<string>, wanted: bool) {
    && |places| == |picked|
    && (forall k | 0 <= k < |places| :: places[k] < |from| && from[places[k]] == picked[k])
    && (forall j, k | 0 <= j < k < |places| :: places[j] < places[k])
    && (forall i: nat | i < |from| :: (from[i] in among) == wanted <==> i in places)
  }

  /** One item more at the end. */
  lemma FiltersStep(from: seq<string>, picked: seq<string>, among: seq<string>, wanted: bool, item: string)
    requires Filters(from, picked, among, wanted)
    ensures Filters(from + [item], picked + if (item in among) == wanted then [item] else [], among, wanted)
  {
    var places :| PickedAt(from, picked, places, among, wanted);
    if (item in among) == wanted {
      PickedOneMore(from, picked, places, among, wanted, item);
    } else {
      assert picked + [] == picked && PickedAt(from + [item], picked, places, among, wanted);
    }
  }

  lemma PickedOneMore(from: seq<string>, picked: seq<string>, places: seq<nat>, among: seq<string>, wanted: bool, item: string)
    requires PickedAt(from, picked, places, among, wanted) && (item in among) == wanted
    ensures Filters(from + [item], picked + [item], among, wanted)
  {
    var all, n := places + [|from|], |from|;
    forall i: nat | i <= n ensures i in all <==> i in places || i == n { assert all[|places|] == n; }
    assert PickedAt(from + [item], picked + [item], all, among, wanted);
  }

  lemma {:induction false} MissingAppend(expected: seq<string>, item: string, observed: seq<string>)
    ensures Missing(expected + [item], observed)
      == Missing(expected, observed) + (if item !in observed then [item] else [])
  {
    if expected == [] {
    } else {
      assert (expected + [item])[1..] == expected[1..] + [item];
      MissingAppend(expected[1..], item, observed);
    }
  }

  lemma {:induction false} ForbiddenAppend(observed: seq<string>, item: string, commands: seq<string>)
    ensures Forbidden(observed + [item], commands)
      == Forbidden(observed, commands) + (if item in commands then [item] else [])
  {
    if observed == [] {
    } else {
      assert (observed + [item])[1..] == observed[1..] + [item];
      ForbiddenAppend(observed[1..], item, commands);
    }
  }

  lemma {:induction false} ChosenAppend(declared: seq<string>, item: string, supplied: seq<string>)
    ensures Chosen(declared + [item], supplied)
      == Chosen(declared, supplied) + (if item in supplied then [item] else [])
  {
    if declared == [] {
    } else {
      assert (declared + [item])[1..] == declared[1..] + [item];
      ChosenAppend(declared[1..], item, supplied);
    }
  }

  lemma FiltersNothing(among: seq<string>, wanted: bool)
    ensures Filters([], [], among, wanted)
  {
    assert PickedAt([], [], [], among, wanted);
  }

  lemma {:induction false} MissingFilters(expected: seq<string>, observed: seq<string>)
    ensures Filters(expected, Missing(expected, observed), observed, false)
  {
    if expected == [] {
      FiltersNothing(observed, false);
    } else {
      var front, last := expected[..|expected| - 1], expected[|expected| - 1];
      assert expected == front + [last];
      MissingFilters(front, observed);
      FiltersStep(front, Missing(front, observed), observed, false, last);
      MissingAppend(front, last, observed);
    }
  }

  lemma {:induction false} ForbiddenFilters(observed: seq<string>, commands: seq<string>)
    ensures Filters(observed, Forbidden(observed, commands), commands, true)
  {
    if observed == [] {
      FiltersNothing(commands, true);
    } else {
      var front, last := observed[..|observed| - 1], observed[|observed| - 1];
      assert observed == front + [last];
      ForbiddenFilters(front, commands);
      FiltersStep(front, Forbidden(front, commands), commands, true, last);
      ForbiddenAppend(front, last, commands);
    }
  }

  lemma {:induction false} ChosenFilters(declared: seq<string>, supplied: seq<string>)
    ensures Filters(declared, Chosen(declared, supplied), supplied, true)
  {
    if declared == [] {
      FiltersNothing(supplied, true);
    } else {
      var front, last := declared[..|declared| - 1], declared[|declared| - 1];
      assert declared == front + [last];
      ChosenFilters(front, supplied);
      FiltersStep(front, Chosen(front, supplied), supplied, true, last);
      ChosenAppend(front, last, supplied);
    }
  }

  /** The case cannot be evaluated from this observation. */
  predicate Unevaluable(c: Case, o: Observation) {
    !o.completed || c.oracle.Structured? || (c.oracle.ExactMatch? && c.expectedOutput.None?)
  }

  /** The observation shows what the case asks for, and no forbidden command. */
  predicate Meets(c: Case, o: Observation) {
    && (c.oracle.ExpectedSignal? ==> forall s | s in c.expectedSignals :: s in o.signals)
    && (c.oracle.ExactMatch? ==> o.output == c.expectedOutput)
    && (forall k | k in o.commands :: k !in c.forbiddenCommands)
  }

  /** What a case result holds, without the lists the code builds. */
  lemma PassMeans(c: Case, o: Observation)
    requires c.Valid() && o.Valid()
    ensures var r := EvaluateCase(c, o);
      && (r.status.Blocked? <==> Unevaluable(c, o))
      && (r.status.Pass? <==> !Unevaluable(c, o) && Meets(c, o))
      && r.candidate == o.candidate && r.setId == o.setId && r.caseId == c.caseId && r.provider == o.provider
      && r.refs == o.refs && r.runnerId == o.runnerId && r.runnerVersion == o.runnerVersion
  {
    MissingNone(c.expectedSignals, o.signals);
    ForbiddenNone(o.commands, c.forbiddenCommands);
  }

  /** Why a case is blocked: for the observation's own reason, or else for its oracle. */
  lemma BlockedCaseMeans(c: Case, o: Observation)
    requires c.Valid() && o.Valid() && Unevaluable(c, o)
    ensures var r := EvaluateCase(c, o);
      && r.missing == [] && r.forbidden == [] && !r.mismatch && r.output.None? && r.expectedOutput.None?
      && (!o.completed ==> r.blocker == o.blocker)
      && (o.completed && c.oracle.Structured? ==> r.blocker == Some(Blocker(UnsupportedOracle, o.refs)))
      && (o.completed && c.oracle.ExactMatch? ==> r.blocker == Some(Blocker(ExactMatchDigestRequired, o.refs)))
  {
  }

  /** What an evaluated case lists: the expected signals that were not observed, the observed commands that
      are forbidden, each in its own order, and whether an exact output differs. */
  lemma EvaluatedCaseMeans(c: Case, o: Observation)
    requires c.Valid() && o.Valid() && !Unevaluable(c, o)
    ensures var r := EvaluateCase(c, o);
      && (if c.oracle.ExpectedSignal? then Filters(c.expectedSignals, r.missing, o.signals, false) else r.missing == [])
      && Filters(o.commands, r.forbidden, c.forbiddenCommands, true)
      && (r.mismatch <==> c.oracle.ExactMatch? && o.output != c.expectedOutput)
      && r.output == o.output && r.expectedOutput == c.expectedOutput && r.blocker.None?
  {
    MissingFilters(c.expectedSignals, o.signals);
    ForbiddenFilters(o.commands, c.forbiddenCommands);
  }

  /** The checks that come before any case, in order. */
  const CHECKS: seq<Code> := [
    ScorerCandidateMismatch, ProviderAdapterRequired, InvalidCalibrationProbe, DuplicateCalibrationProbe,
    UnknownCalibrationProbe, CalibrationIncomplete, DuplicateObservation, ObservationSetMismatch,
    ObservationIdentityMismatch, ProviderIdentityMismatch]

  /** Two observations have one id. */
  predicate RepeatedIds(items: seq<Observation>) {
    exists i, j | 0 <= i < j < |items| :: items[i].caseId == items[j].caseId
  }

  /** An observation without its case, or a case without its observation. */
  predicate Unmatched(cases: ScenarioSet, items: seq<Observation>) {
    || (exists o | o in items :: forall c | c in cases.cases :: c.caseId != o.caseId)
    || (exists c | c in cases.cases :: forall o | o in items :: o.caseId != c.caseId)
  }

  predicate OtherIdentity(cases: ScenarioSet, items: seq<Observation>) {
    exists o | o in items :: o.candidate != cases.candidate || o.setId != cases.setId
  }

  predicate TwoProviders(items: seq<Observation>) {
    exists o, q | o in items && q in items :: o.provider != q.provider
  }

  predicate RepeatedProbe(supplied: seq<string>) {
    exists i, j | 0 <= i < j < |supplied| :: supplied[i] == supplied[j]
  }

  /** The condition that each check answers, by its place. */
  predicate Wrong(k: nat, cases: ScenarioSet, items: seq<Observation>, scorer: Scorer, supplied: seq<string>,
      blank: string -> bool)
  {
    if k == 0 then scorer.candidate != cases.candidate
    else if k == 1 then !scorer.deterministic
    else if k == 2 then exists p | p in supplied :: blank(p)
    else if k == 3 then RepeatedProbe(supplied)
    else if k == 4 then exists p | p in supplied :: p !in scorer.probes
    else if k == 5 then scorer.calibrationRequired && exists p | p in scorer.probes :: p !in supplied
    else if k == 6 then RepeatedIds(items)
    else if k == 7 then Unmatched(cases, items)
    else if k == 8 then OtherIdentity(cases, items)
    else k == 9 && TwoProviders(items)
  }

  ghost predicate AllRight(n: nat, cases: ScenarioSet, items: seq<Observation>, scorer: Scorer, supplied: seq<string>,
      blank: string -> bool)
  {
    forall k: nat | k < n :: !Wrong(k, cases, items, scorer, supplied, blank)
  }

  lemma UnmatchedMeans(cases: ScenarioSet, items: seq<Observation>)
    ensures Unmatched(cases, items) <==> !Covers(items, cases.cases)
  {
  }

  /** A set of cases that has its observations has some. */
  lemma SomeObservation(cases: ScenarioSet, items: seq<Observation>)
    requires cases.Valid() && Covers(items, cases.cases)
    ensures items != []
  {
    assert cases.cases[0] in cases.cases;
    assert Observed(items, cases.cases[0].caseId);
  }

  lemma ProvidersAgree(items: seq<Observation>)
    requires items != []
    ensures TwoProviders(items) <==> !OneProvider(items)
  {
    if !OneProvider(items) {
      var o :| o in items && o.provider != items[0].provider;
      assert items[0] in items;
    }
  }

  /** The observations' blocker, from the first condition that holds. */
  lemma ObservationFirst(cases: ScenarioSet, items: seq<Observation>)
    requires cases.Valid()
    ensures var blocker := ObservationBlocker(cases, items);
      if RepeatedIds(items) then blocker == Some(Blocker(DuplicateObservation, []))
      else if Unmatched(cases, items) then blocker == Some(Blocker(ObservationSetMismatch, []))
      else if OtherIdentity(cases, items) then blocker == Some(Blocker(ObservationIdentityMismatch, []))
      else if TwoProviders(items) then blocker == Some(Blocker(ProviderIdentityMismatch, []))
      else blocker == None
  {
    UnmatchedMeans(cases, items);
    if !Unmatched(cases, items) {
      SomeObservation(cases, items);
      ProvidersAgree(items);
    }
  }

  /** The first check that fails is the early blocker, and without one there is none. */
  lemma EarlyIsFirst(k: nat, cases: ScenarioSet, items: seq<Observation>, scorer: Scorer, supplied: seq<string>,
      blank: string -> bool)
    requires cases.Valid() && k <= |CHECKS| && AllRight(k, cases, items, scorer, supplied, blank)
    requires k < |CHECKS| ==> Wrong(k, cases, items, scorer, supplied, blank)
    ensures EarlyBlocker(cases, items, scorer, supplied, blank)
      == if k == |CHECKS| then None
         else Some(Early(Blocker(CHECKS[k], []), if k < 5 then [] else Chosen(scorer.probes, supplied)))
  {
    ObservationFirst(cases, items);
    assert forall i: nat | i < k :: !Wrong(i, cases, items, scorer, supplied, blank);
    assert k > 0 ==> !Wrong(0, cases, items, scorer, supplied, blank);
    assert k > 1 ==> !Wrong(1, cases, items, scorer, supplied, blank);
    assert k > 2 ==> !Wrong(2, cases, items, scorer, supplied, blank);
    assert k > 3 ==> !Wrong(3, cases, items, scorer, supplied, blank);
    assert k > 4 ==> !Wrong(4, cases, items, scorer, supplied, blank);
    assert k > 5 ==> !Wrong(5, cases, items, scorer, supplied, blank);
    assert k > 6 ==> !Wrong(6, cases, items, scorer, supplied, blank);
    assert k > 7 ==> !Wrong(7, cases, items, scorer, supplied, blank);
    assert k > 8 ==> !Wrong(8, cases, items, scorer, supplied, blank);
    assert k > 9 ==> !Wrong(9, cases, items, scorer, supplied, blank);
  }

  /** The first check that fails gives the receipt's blocker; nothing is evaluated, and the completed probes
      are reported once they have been checked. */
  lemma FirstWrongBlocks(k: nat, cases: ScenarioSet, items: seq<Observation>, scorer: Scorer, supplied: seq<string>,
      blank: string -> bool)
    requires cases.Valid() && forall o | o in items :: o.Valid()
    requires k < |CHECKS| && Wrong(k, cases, items, scorer, supplied, blank)
    requires AllRight(k, cases, items, scorer, supplied, blank)
    ensures var r := Evaluate(cases, items, scorer, supplied, blank);
      && r.status.Blocked? && r.blocker == Some(Blocker(CHECKS[k], [])) && r.results == [] && r.provider.None?
      && r.score.None? && (if k < 5 then r.probes == [] else Filters(scorer.probes, r.probes, supplied, true))
  {
    ChosenFilters(scorer.probes, supplied);
    EarlyIsFirst(k, cases, items, scorer, supplied, blank);
  }

  /** The cases whose own observation shows what they ask for. */
  ghost function Met(cases: seq<Case>, items: seq<Observation>): set<int> {
    set i | 0 <= i < |cases| && exists o | o in items :: o.caseId == cases[i].caseId && Meets(cases[i], o)
  }

  function Passed(results: seq<CaseResult>): set<int> {
    set i | 0 <= i < |results| && results[i].status.Pass?
  }

  lemma {:induction false} PassesAppend(results: seq<CaseResult>, last: CaseResult)
    ensures Passes(results + [last]) == Passes(results) + if last.status.Pass? then 1 else 0
  {
    if results == [] {
    } else {
      assert (results + [last])[1..] == results[1..] + [last];
      PassesAppend(results[1..], last);
    }
  }

  lemma {:induction false} PassesCount(results: seq<CaseResult>)
    ensures Passes(results) == |Passed(results)|
  {
    if results == [] {
    } else {
      var n := |results| - 1;
      var front := results[..n];
      assert results == front + [results[n]];
      PassesCount(front);
      PassesAppend(front, results[n]);
      assert Passed(results) == if results[n].status.Pass? then Passed(front) + {n} else Passed(front);
    }
  }

  /** When no check fails, every case is evaluated with the observation of its id. The receipt is blocked
      exactly when some case cannot be evaluated, and otherwise its score is the share of cases met. */
  lemma EvaluatedMeans(cases: ScenarioSet, items: seq<Observation>, scorer: Scorer, supplied: seq<string>, blank: string -> bool)
    requires cases.Valid() && forall o | o in items :: o.Valid()
    requires AllRight(|CHECKS|, cases, items, scorer, supplied, blank)
    ensures var r := Evaluate(cases, items, scorer, supplied, blank);
      && |r.results| == |cases.cases|
      && (forall i, o | 0 <= i < |cases.cases| && o in items && o.caseId == cases.cases[i].caseId ::
            r.results[i] == EvaluateCase(cases.cases[i], o))
      && Filters(scorer.probes, r.probes, supplied, true)
      && (forall o | o in items :: r.provider == Some(o.provider))
      && (r.status.Blocked? <==> SomeUnevaluable(cases, items))
      && (if r.status.Blocked? then r.blocker == Some(Blocker(ScenarioBlocked, [])) && r.score.None?
          else
            && r.blocker.None?
            && r.score == Some(|Met(cases.cases, items)| as real / |cases.cases| as real)
            && (r.status.Pass? <==> r.score.value >= scorer.threshold))
  {
    EarlyIsFirst(|CHECKS|, cases, items, scorer, supplied, blank);
    ObservationsBound(cases, items, scorer, supplied, blank);
    ChosenFilters(scorer.probes, supplied);
    var results := EvaluateCases(cases.cases, items);
    ResultsMean(cases.cases, items);
    SomeBlocked(cases, items);
    PassesCount(results);
    if !SomeUnevaluable(cases, items) { MetArePassed(cases.cases, items); }
  }

  /** Some case cannot be evaluated from its own observation. */
  predicate SomeUnevaluable(cases: ScenarioSet, items: seq<Observation>) {
    exists c, o | c in cases.cases && o in items :: o.caseId == c.caseId && Unevaluable(c, o)
  }

  lemma ObservationsBound(cases: ScenarioSet, items: seq<Observation>, scorer: Scorer, supplied: seq<string>, blank: string -> bool)
    requires cases.Valid() && AllRight(|CHECKS|, cases, items, scorer, supplied, blank)
    ensures UniqueIds(items) && Covered(items, cases.cases) && OneProvider(items)
  {
    EarlyIsFirst(|CHECKS|, cases, items, scorer, supplied, blank);
  }

  /** Ids are unique, so a case is evaluated with the one observation that has its id. */
  lemma ResultsMean(cases: seq<Case>, items: seq<Observation>)
    requires (forall o | o in items :: o.Valid()) && UniqueIds(items) && Covered(items, cases)
    ensures forall i, o | 0 <= i < |cases| && o in items && o.caseId == cases[i].caseId ::
      EvaluateCases(cases, items)[i] == EvaluateCase(cases[i], o)
  {
    forall i, o | 0 <= i < |cases| && o in items && o.caseId == cases[i].caseId
      ensures EvaluateCases(cases, items)[i] == EvaluateCase(cases[i], o)
    {
      assert cases[i] in cases && Observed(items, cases[i].caseId);
      assert Find(items, cases[i].caseId) == o;
    }
  }

  lemma SomeBlocked(cases: ScenarioSet, items: seq<Observation>)
    requires cases.Valid() && (forall o | o in items :: o.Valid())
    requires UniqueIds(items) && Covered(items, cases.cases)
    ensures (exists r | r in EvaluateCases(cases.cases, items) :: r.status.Blocked?) <==> SomeUnevaluable(cases, items)
  {
    var results := EvaluateCases(cases.cases, items);
    forall i | 0 <= i < |results|
      ensures results[i].status.Blocked? <==> Unevaluable(cases.cases[i], Find(items, cases.cases[i].caseId))
    {
      assert cases.cases[i] in cases.cases;
      PassMeans(cases.cases[i], Find(items, cases.cases[i].caseId));
    }
    if c, o :| c in cases.cases && o in items && o.caseId == c.caseId && Unevaluable(c, o) {
      var i :| 0 <= i < |cases.cases| && cases.cases[i] == c;
      assert results[i] in results && Find(items, c.caseId) == o;
    }
  }

  lemma MetArePassed(cases: seq<Case>, items: seq<Observation>)
    requires (forall c | c in cases :: c.Valid()) && (forall o | o in items :: o.Valid())
    requires UniqueIds(items) && Covered(items, cases)
    requires !exists r | r in EvaluateCases(cases, items) :: r.status.Blocked?
    ensures Met(cases, items) == Passed(EvaluateCases(cases, items))
  {
    var results := EvaluateCases(cases, items);
    ResultsMean(cases, items);
    forall i | 0 <= i < |cases| ensures i in Met(cases, items) <==> i in Passed(results) {
      assert cases[i] in cases && results[i] in results;
      var o := Find(items, cases[i].caseId);
      PassMeans(cases[i], o);
      if i in Met(cases, items) {
        var q :| q in items && q.caseId == cases[i].caseId && Meets(cases[i], q);
        PassMeans(cases[i], q);
      }
    }
  }

  /** An evaluation is blocked exactly when a check fails or a case cannot be evaluated. */
  lemma BlockedExactly(cases: ScenarioSet, items: seq<Observation>, scorer: Scorer, supplied: seq<string>, blank: string -> bool)
    requires cases.Valid() && forall o | o in items :: o.Valid()
    ensures Evaluate(cases, items, scorer, supplied, blank).status.Blocked? <==>
      || (exists k: nat | k < |CHECKS| :: Wrong(k, cases, items, scorer, supplied, blank))
      || SomeUnevaluable(cases, items)
  {
    if k: nat :| k < |CHECKS| && Wrong(k, cases, items, scorer, supplied, blank) {
      var first := FirstWrong(k, cases, items, scorer, supplied, blank);
      FirstWrongBlocks(first, cases, items, scorer, supplied, blank);
    } else {
      EvaluatedMeans(cases, items, scorer, supplied, blank);
    }
  }

  lemma {:induction false} FirstWrong(k: nat, cases: ScenarioSet, items: seq<Observation>, scorer: Scorer, supplied: seq<string>,
      blank: string -> bool) returns (first: nat)
    requires k < |CHECKS| && Wrong(k, cases, items, scorer, supplied, blank)
    ensures first <= k && Wrong(first, cases, items, scorer, supplied, blank)
    ensures AllRight(first, cases, items, scorer, supplied, blank)
  {
    first := k;
    if j: nat :| j < k && Wrong(j, cases, items, scorer, supplied, blank) {
      first := FirstWrong(j, cases, items, scorer, supplied, blank);
    }
  }

  lemma {:induction false} PassesGrow(a: seq<CaseResult>, b: seq<CaseResult>)
    requires |a| == |b| && forall i | 0 <= i < |a| :: a[i].status.Pass? ==> b[i].status.Pass?
    ensures Passes(a) <= Passes(b)
  {
    if a == [] {
    } else {
      PassesGrow(a[1..], b[1..]);
    }
  }

  lemma {:induction false} FindImproves(worse: seq<Observation>, better: seq<Observation>, id: string)
    requires |worse| == |better| && forall i | 0 <= i < |worse| :: Improves(worse[i], better[i])
    requires Observed(worse, id)
    ensures Observed(better, id)
    ensures Improves(Find(worse, id), Find(better, id))
  {
    assert Improves(worse[0], better[0]);
    if worse[0].caseId == id {
      assert better[0] in better;
    } else {
      FindImproves(worse[1..], better[1..], id);
    }
  }

  predicate SameBinding(a: Observation, b: Observation) {
    a.caseId == b.caseId && a.provider == b.provider && a.candidate == b.candidate && a.setId == b.setId
  }

  lemma SameBlocker(cases: ScenarioSet, a: seq<Observation>, b: seq<Observation>)
    requires |a| == |b| && forall i | 0 <= i < |a| :: SameBinding(a[i], b[i])
    ensures ObservationBlocker(cases, a).Some? ==> ObservationBlocker(cases, b) == ObservationBlocker(cases, a)
    ensures ObservationBlocker(cases, b).Some? ==> ObservationBlocker(cases, b) == ObservationBlocker(cases, a)
  {
    Corresponding(a, b);
    Corresponding(b, a);
    assert UniqueIds(a) <==> UniqueIds(b);
    assert Covers(a, cases.cases) <==> Covers(b, cases.cases);
    assert a != [] ==> SameBinding(a[0], b[0]);
  }

  ghost predicate Matched(a: seq<Observation>, b: seq<Observation>) {
    forall o | o in a :: exists x | x in b :: SameBinding(o, x)
  }

  lemma Corresponding(a: seq<Observation>, b: seq<Observation>)
    requires |a| == |b| && forall i | 0 <= i < |a| :: SameBinding(a[i], b[i])
    ensures Matched(a, b)
  {
    forall o | o in a ensures exists x | x in b :: SameBinding(o, x) {
      var i :| 0 <= i < |a| && a[i] == o;
      assert b[i] in b && SameBinding(o, b[i]);
    }
  }

  lemma ConclusionMonotone(cases: ScenarioSet, scorer: Scorer, provider: string, a: seq<CaseResult>, b: seq<CaseResult>, completed: seq<string>)
    requires |a| == |b| > 0
    requires forall i | 0 <= i < |a| :: a[i].status.Blocked? <==> b[i].status.Blocked?
    requires forall i | 0 <= i < |a| :: a[i].status.Pass? ==> b[i].status.Pass?
    ensures NotLower(Conclude(cases, scorer, provider, a, completed), Conclude(cases, scorer, provider, b, completed))
  {
    if r :| r in a && r.status.Blocked? {
      var i :| 0 <= i < |a| && a[i] == r;
      assert b[i] in b;
    }
    if r :| r in b && r.status.Blocked? {
      var i :| 0 <= i < |b| && b[i] == r;
      assert a[i] in a;
    }
    PassesGrow(a, b);
    RatioGrows(Passes(a), Passes(b), |a|);
  }

  lemma RatioGrows(a: nat, b: nat, n: nat)
    requires a <= b && n > 0
    ensures a as real / n as real <= b as real / n as real
  {
  }

  /** A completed receipt stays completed, a pass stays a pass, and the score does not fall. */
  predicate NotLower(a: Receipt, b: Receipt) {
    && (a.status.Blocked? <==> b.status.Blocked?)
    && (a.status.Pass? ==> b.status.Pass?)
    && (a.score.Some? ==> b.score.Some? && a.score.value <= b.score.value)
  }

  lemma ResultsImprove(cases: seq<Case>, worse: seq<Observation>, better: seq<Observation>)
    requires (forall o | o in worse :: o.Valid()) && (forall o | o in better :: o.Valid()) && (forall c | c in cases :: c.Valid())
    requires |worse| == |better| && forall i | 0 <= i < |worse| :: Improves(worse[i], better[i])
    requires Covered(worse, cases)
    requires Covered(better, cases)
    ensures var a, b := EvaluateCases(cases, worse), EvaluateCases(cases, better);
      forall i | 0 <= i < |cases| ::
        (a[i].status.Blocked? <==> b[i].status.Blocked?) && (a[i].status.Pass? ==> b[i].status.Pass?)
  {
    var a, b := EvaluateCases(cases, worse), EvaluateCases(cases, better);
    forall i | 0 <= i < |cases|
      ensures (a[i].status.Blocked? <==> b[i].status.Blocked?) && (a[i].status.Pass? ==> b[i].status.Pass?)
    {
      var c := cases[i];
      assert c in cases;
      FindImproves(worse, better, c.caseId);
      PassMeans(c, Find(worse, c.caseId));
      PassMeans(c, Find(better, c.caseId));
    }
  }

  /** Giving observations more signals and fewer commands never turns a score into a lower one, a pass
      into a failure, or a completed receipt into a blocked one. */
  lemma BetterObservationsNeverScoreLower(cases: ScenarioSet, worse: seq<Observation>, better: seq<Observation>,
      scorer: Scorer, supplied: seq<string>, blank: string -> bool)
    requires cases.Valid() && (forall o | o in worse :: o.Valid()) && (forall o | o in better :: o.Valid())
    requires |worse| == |better| && forall i | 0 <= i < |worse| :: Improves(worse[i], better[i])
    ensures NotLower(Evaluate(cases, worse, scorer, supplied, blank), Evaluate(cases, better, scorer, supplied, blank))
  {
    SameBlocker(cases, worse, better);
    if EarlyBlocker(cases, worse, scorer, supplied, blank).None? {
      ResultsImprove(cases.cases, worse, better);
      assert Improves(worse[0], better[0]);
      ConclusionMonotone(cases, scorer, worse[0].provider, EvaluateCases(cases.cases, worse),
        EvaluateCases(cases.cases, better), Chosen(scorer.probes, supplied));
    }
  }
}
