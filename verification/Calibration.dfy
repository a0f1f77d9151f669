/** Held-out calibration: the retained dimensional judgments against the observed results. */
module Calibration {
  import opened Common

  datatype Label = Pass | Fail

  datatype Probe = Probe(id: string, output: Digest<string>, expected: Label)

  datatype Confidence = Low | Medium | High {
    function Rank(): nat {
      if Low? then 0 else if Medium? then 1 else 2
    }
  }

  /** One scored dimension, with the references it rests on. */
  datatype Row = Row(id: string, score: real, refs: seq<string>)

  /** A dimensional judgment of one output. */
  datatype Judgment = Judgment(
    output: Digest<string>, judgeResult: string, refs: seq<string>, rows: seq<Row>, confidence: Confidence)
  {
    /** The model's own field rules. */
    predicate Valid() {
      rows != [] && forall r | r in rows :: 0.0 <= r.score <= 5.0
    }
  }

  datatype Dimension = Dimension(id: string, weight: real)

  datatype Rubric = Rubric(dimensions: seq<Dimension>, minimum: Confidence) {
    /** Positive weights that total one, under different names. */
    predicate Valid() {
      && dimensions != [] && (forall d | d in dimensions :: d.weight > 0.0) && Total(dimensions) == 1.0
      && (forall i, j | 0 <= i < j < |dimensions| :: dimensions[i].id != dimensions[j].id)
    }
  }

  /** `_dimension_digest` on what it covers; SHA-256 of canonical JSON stays opaque. */
  type Hash = (Rubric, Judgment) -> string

  /** `judge_result_sha256` of a result, taken as injective. */
  datatype VerdictDigest = VerdictOf(judgment: Judgment, score: real)

  datatype ProbeResult = ProbeResult(
    probeId: string, trial: nat, output: Digest<string>, expected: Label, predicted: Label, score: real,
    evidence: VerdictDigest)

  datatype Plan = Plan(probes: seq<Probe>, trials: nat, threshold: real)

  const JUDGE_RESULTS: string := "judge-results/"

  predicate IsResult(ref: string) {
    JUDGE_RESULTS <= ref
  }

  // ---- The score of a judgment ----

  function Total(dimensions: seq<Dimension>): real {
    if dimensions == [] then 0.0 else Total(dimensions[..|dimensions| - 1]) + dimensions[|dimensions| - 1].weight
  }

  function Mark(row: Row, dimension: Dimension): real {
    row.score * dimension.weight
  }

  function Weighted(rows: seq<Row>, dimensions: seq<Dimension>): real
    requires |rows| == |dimensions|
  {
    if rows == [] then 0.0
    else
      var n := |rows| - 1;
      Weighted(rows[..n], dimensions[..n]) + Mark(rows[n], dimensions[n])
  }

  predicate SameDimensions(rows: seq<Row>, dimensions: seq<Dimension>) {
    |rows| == |dimensions| && forall i | 0 <= i < |rows| :: rows[i].id == dimensions[i].id
  }

  predicate Grounded(row: Row, refs: seq<string>) {
    forall ref | ref in row.refs :: ref in refs && !IsResult(ref)
  }

  /** Each row answers its own dimension, from references that the judgment lists and that are no results
      of a judge, and with enough confidence. */
  predicate Covers(rubric: Rubric, judgment: Judgment) {
    && SameDimensions(judgment.rows, rubric.dimensions) && (forall r | r in judgment.rows :: Grounded(r, judgment.refs))
    && judgment.confidence.Rank() >= rubric.minimum.Rank()
  }

  /** `_dimension_score`; `None` when the judgment does not fit the rubric. */
  function DimensionScore(rubric: Rubric, judgment: Judgment): Option<real> {
    if Covers(rubric, judgment) then Some(Weighted(judgment.rows, rubric.dimensions) / 5.0) else None
  }

  /** The score is linear: a further dimension adds a fifth of its mark times its weight. */
  lemma ScoreOfAppend(rows: seq<Row>, dimensions: seq<Dimension>, row: Row, dimension: Dimension)
    requires |rows| == |dimensions|
    ensures Weighted(rows + [row], dimensions + [dimension]) / 5.0
      == Weighted(rows, dimensions) / 5.0 + row.score * dimension.weight / 5.0
  {
    assert (rows + [row])[..|rows|] == rows && (dimensions + [dimension])[..|rows|] == dimensions;
  }

  /** Marks up to five give at most five times the total weight. */
  lemma {:induction false} WeightedBounds(rows: seq<Row>, dimensions: seq<Dimension>)
    requires |rows| == |dimensions| && (forall d | d in dimensions :: d.weight > 0.0)
    requires forall r | r in rows :: 0.0 <= r.score <= 5.0
    ensures 0.0 <= Weighted(rows, dimensions) <= 5.0 * Total(dimensions)
    ensures (forall r | r in rows :: r.score == 5.0) ==> Weighted(rows, dimensions) == 5.0 * Total(dimensions)
  {
    if rows == [] {
    } else {
      var n := |rows| - 1;
      WeightedBounds(rows[..n], dimensions[..n]);
      assert rows[n] in rows && dimensions[n] in dimensions;
      MarkBounds(rows[n], dimensions[n]);
      SumBounds(Weighted(rows[..n], dimensions[..n]), Total(dimensions[..n]),
                Mark(rows[n], dimensions[n]), dimensions[n].weight);
    }
  }

  lemma SumBounds(a: real, b: real, x: real, w: real)
    requires 0.0 <= a <= 5.0 * b && 0.0 <= x <= 5.0 * w
    ensures 0.0 <= a + x <= 5.0 * (b + w)
  {
  }

  lemma MarkBounds(row: Row, dimension: Dimension)
    requires 0.0 <= row.score <= 5.0 && dimension.weight > 0.0
    ensures 0.0 <= Mark(row, dimension) <= 5.0 * dimension.weight
    ensures row.score == 5.0 ==> Mark(row, dimension) == 5.0 * dimension.weight
  {
    NotNegative(row.score, dimension.weight);
    NotNegative(5.0 - row.score, dimension.weight);
    Distribute(row.score, dimension.weight);
  }

  lemma NotNegative(a: real, w: real)
    requires a >= 0.0 && w >= 0.0
    ensures a * w >= 0.0
  {
  }

  lemma Distribute(a: real, w: real)
    ensures (5.0 - a) * w == 5.0 * w - a * w
  {
  }

  /** A judgment is scored exactly when it covers the rubric; the score lies between zero and one, and full
      marks score one. */
  lemma ScoreMeans(rubric: Rubric, judgment: Judgment)
    requires rubric.Valid() && judgment.Valid()
    ensures var score := DimensionScore(rubric, judgment);
      && (score.Some? <==> Covers(rubric, judgment))
      && (score.Some? ==> 0.0 <= score.value <= 1.0)
      && (score.Some? && (forall r | r in judgment.rows :: r.score == 5.0) ==> score.value == 1.0)
  {
    if Covers(rubric, judgment) { WeightedBounds(judgment.rows, rubric.dimensions); }
  }

  // ---- What is kept of a judgment ----

  function Underlying(refs: seq<string>): seq<string> {
    if refs == [] then []
    else
      var last := refs[|refs| - 1];
      Underlying(refs[..|refs| - 1]) + if IsResult(last) then [] else [last]
  }

  function ResultRefs(refs: seq<string>): seq<string> {
    if refs == [] then []
    else
      var last := refs[|refs| - 1];
      ResultRefs(refs[..|refs| - 1]) + if IsResult(last) then [last] else []
  }

  /** The digest covers the rubric and the judgment without its own result. */
  function DimensionDigest(hash: Hash, rubric: Rubric, judgment: Judgment): string {
    hash(rubric, judgment.(judgeResult := "", refs := Underlying(judgment.refs)))
  }

  /** The judgment that is kept: it names its own digest, once. */
  function Kept(hash: Hash, rubric: Rubric, judgment: Judgment): Judgment {
    var digest := DimensionDigest(hash, rubric, judgment);
    judgment.(judgeResult := digest, refs := Underlying(judgment.refs) + [JUDGE_RESULTS + digest])
  }

  /** What the receipt model recomputes of one kept judgment and its result: the score, the judgment's own
      digest, its one reference to that digest, and the digest of the verdict. */
  predicate Recorded(hash: Hash, rubric: Rubric, judgment: Judgment, result: ProbeResult) {
    && DimensionScore(rubric, judgment) == Some(result.score)
    && judgment.judgeResult == DimensionDigest(hash, rubric, judgment)
    && ResultRefs(judgment.refs) == [JUDGE_RESULTS + judgment.judgeResult]
    && result.evidence == VerdictOf(judgment, result.score)
  }

  lemma {:induction false} UnderlyingMembers(refs: seq<string>, ref: string)
    ensures ref in Underlying(refs) <==> ref in refs && !IsResult(ref)
  {
    if refs == [] {
    } else {
      UnderlyingMembers(refs[..|refs| - 1], ref);
      assert refs == refs[..|refs| - 1] + [refs[|refs| - 1]];
    }
  }

  lemma {:induction false} UnderlyingStays(refs: seq<string>)
    requires forall ref | ref in refs :: !IsResult(ref)
    ensures Underlying(refs) == refs && ResultRefs(refs) == []
  {
    if refs == [] {
    } else {
      var front, last := refs[..|refs| - 1], refs[|refs| - 1];
      assert refs == front + [last] && last in refs && forall ref | ref in front :: ref in refs;
      UnderlyingStays(front);
    }
  }

  lemma OneResult(refs: seq<string>, result: string)
    requires (forall ref | ref in refs :: !IsResult(ref)) && IsResult(result)
    ensures Underlying(refs + [result]) == refs && ResultRefs(refs + [result]) == [result]
  {
    assert (refs + [result])[..|refs|] == refs;
    UnderlyingStays(refs);
  }

  /** What is kept is digested like what was given, and names that digest once. */
  lemma KeptRefs(refs: seq<string>, digest: string)
    ensures var kept := Underlying(refs) + [JUDGE_RESULTS + digest];
      && Underlying(kept) == Underlying(refs) && ResultRefs(kept) == [JUDGE_RESULTS + digest]
      && forall ref | ref in refs && !IsResult(ref) :: ref in kept
  {
    forall ref ensures ref in Underlying(refs) <==> ref in refs && !IsResult(ref) { UnderlyingMembers(refs, ref); }
    assert IsResult(JUDGE_RESULTS + digest);
    OneResult(Underlying(refs), JUDGE_RESULTS + digest);
  }

  /** A kept judgment has the score and the digest of the one the host gave, and names that digest once. */
  lemma KeptIsBound(hash: Hash, rubric: Rubric, judgment: Judgment)
    ensures var kept := Kept(hash, rubric, judgment);
      && DimensionDigest(hash, rubric, kept) == DimensionDigest(hash, rubric, judgment) == kept.judgeResult
      && ResultRefs(kept.refs) == [JUDGE_RESULTS + kept.judgeResult]
      && (Covers(rubric, judgment) ==> DimensionScore(rubric, kept) == DimensionScore(rubric, judgment))
      && kept.output == judgment.output && kept.rows == judgment.rows
  {
    var digest := DimensionDigest(hash, rubric, judgment);
    KeptRefs(judgment.refs, digest);
    KeptCovers(rubric, judgment, digest, Underlying(judgment.refs) + [JUDGE_RESULTS + digest]);
  }

  /** A judgment that keeps its underlying references still covers the rubric. */
  lemma KeptCovers(rubric: Rubric, judgment: Judgment, digest: string, refs: seq<string>)
    requires forall ref | ref in judgment.refs && !IsResult(ref) :: ref in refs
    ensures Covers(rubric, judgment) ==> Covers(rubric, judgment.(judgeResult := digest, refs := refs))
  {
    forall r | r in judgment.rows && Grounded(r, judgment.refs) ensures Grounded(r, refs) { }
  }

  /** The verdict on a usable judgment is recorded, and its score is a valid one. */
  lemma VerdictStands(hash: Hash, rubric: Rubric, judgment: Judgment, result: ProbeResult)
    requires rubric.Valid() && judgment.Valid() && DimensionScore(rubric, judgment) == Some(result.score)
    requires result.evidence == VerdictOf(Kept(hash, rubric, judgment), result.score)
    ensures Recorded(hash, rubric, Kept(hash, rubric, judgment), result) && 0.0 <= result.score <= 1.0
    ensures Kept(hash, rubric, judgment).output == judgment.output
  {
    ScoreMeans(rubric, judgment);
    KeptIsBound(hash, rubric, judgment);
  }

  // ---- The judges ----

  /** A judgment that the host gave about an output. */
  datatype Answer = Answer(asked: Digest<string>, judgment: Judgment)

  /** What the host did: its judges' answers in order, and whether anything else went wrong. */
  class Host {
    var mishap: bool
    var answers: seq<Answer>

    constructor ()
      ensures !mishap && answers == []
    {
      mishap, answers := false, [];
    }

    /** A callback, a validation or the selected case may fail. */
    method Fails() returns (failed: bool)
      modifies this`mishap
      ensures mishap == (old(mishap) || failed)
    {
      failed := *;
      mishap := mishap || failed;
    }

    /** The provider's output, which may not be the held-out one. */
    method Produce(expected: Digest<string>) returns (output: Digest<string>)
      modifies this`mishap
      ensures mishap == (old(mishap) || output != expected)
    {
      output := *;
      mishap := mishap || output != expected;
    }

    method Ask(output: Digest<string>) returns (judgment: Judgment)
      modifies this`answers
      ensures answers == old(answers) + [Answer(output, judgment)]
    {
      judgment := *;
      answers := answers + [Answer(output, judgment)];
    }
  }

  /** The answer is a valid judgment of what was asked, and it covers the rubric. */
  predicate Usable(rubric: Rubric, answer: Answer) {
    answer.judgment.Valid() && Covers(rubric, answer.judgment) && answer.judgment.output == answer.asked
  }

  /** Nothing has gone wrong so far. */
  predicate Clean(rubric: Rubric, host: Host)
    reads host
  {
    !host.mishap && forall a | a in host.answers :: Usable(rubric, a)
  }

  /** `_DimensionalCalibrationJudge`: wraps one host judge and keeps what it said. */
  class DimensionalJudge {
    const hash: Hash
    const rubric: Rubric
    var judgments: seq<Judgment>
    var invocations: nat

    constructor (hash: Hash, rubric: Rubric)
      ensures this.hash == hash && this.rubric == rubric && judgments == [] && invocations == 0
    {
      this.hash, this.rubric, judgments, invocations := hash, rubric, [], 0;
    }

    /** One judge call. The host may raise, or answer with something invalid; a verdict comes back
        only together with the judgment it was computed from. */
    method Judge(host: Host, output: Digest<string>) returns (score: Option<real>)
      requires Clean(rubric, host)
      modifies this, host
      ensures old(invocations) <= invocations <= old(invocations) + 1 && old(host.answers) <= host.answers
      ensures score.Some? ==> invocations == old(invocations) + 1
      ensures score.None? ==> judgments == old(judgments) && !Clean(rubric, host)
      ensures score.Some? ==>
        && |host.answers| == |old(host.answers)| + 1 && old(host.answers) <= host.answers
        && var raw := host.answers[|old(host.answers)|].judgment;
        && raw.Valid() && DimensionScore(rubric, raw) == score
        && judgments == old(judgments) + [Kept(hash, rubric, raw)]
        && (Clean(rubric, host) <==> raw.output == output)
    {
      score := None;
      var failed := host.Fails();
      if failed { return; }
      invocations := invocations + 1;
      failed := host.Fails();
      if failed { return; }
      var raw := host.Ask(output);
      assert Answer(output, raw) in host.answers;
      if !raw.Valid() || DimensionScore(rubric, raw).None? { return; }
      judgments := judgments + [Kept(hash, rubric, raw)];
      score := DimensionScore(rubric, raw);
    }
  }

  /** `_CalibrationJudge`: binds one judge invocation to its probe and trial. */
  class CalibrationJudge {
    const delegate: DimensionalJudge
    const plan: Plan
    const probe: Probe
    const trial: nat
    var result: Option<ProbeResult>
    var invoked: bool

    constructor (delegate: DimensionalJudge, plan: Plan, probe: Probe, trial: nat)
      ensures this.delegate == delegate && this.plan == plan && this.probe == probe && this.trial == trial
      ensures result == None && !invoked
    {
      this.delegate, this.plan, this.probe, this.trial := delegate, plan, probe, trial;
      result, invoked := None, false;
    }

    /** The delegate is asked only about the probe's own output; a judge whose identity drifted is refused
        after the delegate has kept its judgment. A score of a valid rubric is never outside [0, 1]. */
    method Judge(host: Host, output: Digest<string>)
      requires result == None && !invoked && delegate.judgments == [] && delegate.rubric.Valid()
      requires output == probe.output ==> Clean(delegate.rubric, host)
      requires output != probe.output ==> host.mishap
      modifies this, delegate, host
      ensures |delegate.judgments| <= 1
      ensures result.Some? ==>
        && invoked && |host.answers| == |old(host.answers)| + 1
        && var answer := host.answers[|old(host.answers)|].judgment;
        && delegate.judgments == [Kept(delegate.hash, delegate.rubric, answer)] && answer.Valid()
        && Describes(plan, probe, trial, result.value)
        && DimensionScore(delegate.rubric, answer) == Some(result.value.score)
        && result.value.evidence == VerdictOf(delegate.judgments[0], result.value.score)
      ensures (delegate.judgments != [] ==> invoked) && old(host.answers) <= host.answers
      ensures if result.None? then !Clean(delegate.rubric, host)
              else Clean(delegate.rubric, host) <==> delegate.judgments[0].output == probe.output
    {
      if output != probe.output { return; }
      var drifted := host.Fails();
      if drifted { return; }
      invoked := true;
      var score := delegate.Judge(host, output);
      drifted := host.Fails();
      if score.None? || drifted { return; }
      var predicted := if score.value >= plan.threshold then Pass else Fail;
      var verdict := ProbeResult(probe.id, trial, output, probe.expected, predicted, score.value,
                                 VerdictOf(delegate.judgments[0], score.value));
      VerdictStands(delegate.hash, delegate.rubric, host.answers[|host.answers| - 1].judgment, verdict);
      if score.value < 0.0 || score.value > 1.0 { return; }
      result := Some(verdict);
    }
  }

  /** A result of this probe and trial: the label follows the score and the threshold. */
  predicate Describes(plan: Plan, probe: Probe, trial: nat, result: ProbeResult) {
    && result.probeId == probe.id && result.trial == trial && result.output == probe.output
    && result.expected == probe.expected && (result.predicted.Pass? <==> result.score >= plan.threshold)
  }

  /** One execution of the batch: its probe, its trial and the judge wrapper made for it. */
  datatype Slot = Slot(probe: Probe, trial: nat, judge: DimensionalJudge)

  /** The probes and trials in declared order, up to `trial` trials of probe `probes`. */
  function Declared(plan: Plan, probes: nat, trial: nat): (order: seq<(Probe, nat)>)
    requires probes <= |plan.probes| && trial <= plan.trials && (trial > 0 ==> probes < |plan.probes|)
    decreases probes, trial
  {
    if trial > 0 then Declared(plan, probes, trial - 1) + [(plan.probes[probes], trial - 1)]
    else if probes > 0 then Declared(plan, probes - 1, plan.trials)
    else []
  }

  lemma {:induction false} DeclaredLength(plan: Plan, probes: nat, trial: nat)
    requires probes <= |plan.probes| && trial <= plan.trials && (trial > 0 ==> probes < |plan.probes|)
    ensures |Declared(plan, probes, trial)| == probes * plan.trials + trial
    decreases probes, trial
  {
    if trial > 0 {
      DeclaredLength(plan, probes, trial - 1);
    } else if probes > 0 {
      DeclaredLength(plan, probes - 1, plan.trials);
      assert (probes - 1) * plan.trials + plan.trials == probes * plan.trials;
    }
  }

  /** Trial `t` of probe `p` stands at place `p * trials + t`. */
  lemma {:induction false} DeclaredAt(plan: Plan, probes: nat, trial: nat, p: nat, t: nat)
    requires probes <= |plan.probes| && trial <= plan.trials && (trial > 0 ==> probes < |plan.probes|)
    requires t < plan.trials && (p < probes || (p == probes && t < trial))
    ensures p * plan.trials + t < |Declared(plan, probes, trial)|
    ensures Declared(plan, probes, trial)[p * plan.trials + t] == (plan.probes[p], t)
    decreases probes, trial
  {
    DeclaredLength(plan, probes, trial);
    if trial > 0 {
      DeclaredLength(plan, probes, trial - 1);
      if p < probes || t < trial - 1 { DeclaredAt(plan, probes, trial - 1, p, t); }
    } else {
      DeclaredAt(plan, probes - 1, plan.trials, p, t);
    }
  }

  function Judges(slots: seq<Slot>): set<DimensionalJudge> {
    set s | s in slots :: s.judge
  }

  /** Every slot has a wrapper of its own, and the slots follow the declared order. */
  ghost predicate Scheduled(plan: Plan, hash: Hash, rubric: Rubric, slots: seq<Slot>) {
    && |slots| == |Declared(plan, |plan.probes|, 0)|
    && (forall i | 0 <= i < |slots| ::
          && (slots[i].probe, slots[i].trial) == Declared(plan, |plan.probes|, 0)[i]
          && slots[i].judge.rubric == rubric && slots[i].judge.hash == hash)
    && (forall i, j | 0 <= i < j < |slots| :: slots[i].judge != slots[j].judge)
  }

  /** All judgments the wrappers kept, wrapper by wrapper. */
  function Collected(slots: seq<Slot>): seq<Judgment>
    reads Judges(slots)
  {
    if slots == [] then [] else slots[0].judge.judgments + Collected(slots[1..])
  }

  /** The wrappers of a batch, made probe by probe and trial by trial. */
  method BuildWrappers(plan: Plan, hash: Hash, rubric: Rubric) returns (slots: seq<Slot>)
    ensures Scheduled(plan, hash, rubric, slots) && fresh(Judges(slots))
    ensures forall s | s in slots :: s.judge.judgments == []
  {
    slots := [];
    for p := 0 to |plan.probes|
      invariant |slots| == |Declared(plan, p, 0)|
      invariant forall i | 0 <= i < |slots| :: (slots[i].probe, slots[i].trial) == Declared(plan, p, 0)[i]
      invariant forall i | 0 <= i < |slots| :: New(hash, rubric, slots[i].judge) && fresh(slots[i].judge)
      invariant forall i, j | 0 <= i < j < |slots| :: slots[i].judge != slots[j].judge
    {
      for t := 0 to plan.trials
        invariant |slots| == |Declared(plan, p, t)|
        invariant forall i | 0 <= i < |slots| :: (slots[i].probe, slots[i].trial) == Declared(plan, p, t)[i]
        invariant forall i | 0 <= i < |slots| :: New(hash, rubric, slots[i].judge) && fresh(slots[i].judge)
        invariant forall i, j | 0 <= i < j < |slots| :: slots[i].judge != slots[j].judge
      {
        var judge := new DimensionalJudge(hash, rubric);
        slots := slots + [Slot(plan.probes[p], t, judge)];
      }
    }
  }

  ghost predicate New(hash: Hash, rubric: Rubric, judge: DimensionalJudge)
    reads judge
  {
    judge.hash == hash && judge.rubric == rubric && judge.judgments == []
  }

  /** One execution. The selected-case executor is not part of this model: it may stop at any point,
      asks the judge at most once, and accepts only evidence that binds the judged output. */
  method ExecuteSlot(plan: Plan, hash: Hash, rubric: Rubric, host: Host, slot: Slot)
    returns (result: Option<ProbeResult>, invoked: bool)
    requires New(hash, rubric, slot.judge) && rubric.Valid() && Clean(rubric, host)
    modifies slot.judge, host
    ensures |slot.judge.judgments| <= 1
    ensures result.Some? <==> Clean(rubric, host)
    ensures old(host.answers) <= host.answers
    ensures result.Some? ==>
      && invoked && |host.answers| == |old(host.answers)| + 1
      && KeptOne(hash, rubric, slot, host.answers[|old(host.answers)|])
      && Finished(plan, hash, rubric, slot.probe, slot.trial, result.value, host.answers[|old(host.answers)|])
  {
    var frame := new CalibrationJudge(slot.judge, plan, slot.probe, slot.trial);
    result := None;
    var stopped := host.Fails();
    if stopped { return result, false; }
    var output := host.Produce(slot.probe.output);
    frame.Judge(host, output);
    invoked := frame.invoked;
    var blocked := host.Fails();
    if frame.result.None? || blocked || slot.judge.judgments[0].output != slot.probe.output { return; }
    result := frame.result;
  }

  /** The wrapper of a finished slot kept one judgment: what it makes of the host's answer. */
  ghost predicate KeptOne(hash: Hash, rubric: Rubric, slot: Slot, answer: Answer)
    reads slot.judge
  {
    slot.judge.judgments == [Kept(hash, rubric, answer.judgment)]
  }

  /** The result of a finished slot was computed from that judgment. */
  predicate Finished(plan: Plan, hash: Hash, rubric: Rubric, probe: Probe, trial: nat, result: ProbeResult, answer: Answer) {
    && Describes(plan, probe, trial, result) && answer.judgment.Valid() && answer.judgment.output == probe.output
    && DimensionScore(rubric, answer.judgment) == Some(result.score)
    && result.evidence == VerdictOf(Kept(hash, rubric, answer.judgment), result.score)
  }

  /** `execute_scorer_calibration` after its preflight: stop at the first execution that fails. */
  method ExecuteScorerCalibration(plan: Plan, hash: Hash, rubric: Rubric, host: Host, slots: seq<Slot>)
    returns (results: seq<ProbeResult>, invocations: nat, completed: bool)
    requires rubric.Valid() && Clean(rubric, host) && host.answers == []
    requires Scheduled(plan, hash, rubric, slots) && forall s | s in slots :: s.judge.judgments == []
    modifies Judges(slots), host
    ensures |results| <= |slots| && (completed ==> |results| == |slots|)
    ensures completed <==> Clean(rubric, host)
    ensures |results| <= invocations <= |results| + 1 && |results| <= |host.answers|
    ensures forall i | 0 <= i < |results| :: KeptOne(hash, rubric, slots[i], host.answers[i])
    ensures forall i | 0 <= i < |results| ::
      Finished(plan, hash, rubric, slots[i].probe, slots[i].trial, results[i], host.answers[i])
  {
    results, invocations, completed := [], 0, false;
    ghost var answers := [];
    for k := 0 to |slots|
      invariant |results| == k == invocations == |answers| && answers == host.answers && Clean(rubric, host)
      invariant forall i {:trigger KeptOne(hash, rubric, slots[i], answers[i])} | 0 <= i < k ::
        KeptOne(hash, rubric, slots[i], answers[i])
      invariant forall i {:trigger Finished(plan, hash, rubric, slots[i].probe, slots[i].trial, results[i], answers[i])} | 0 <= i < k ::
        Finished(plan, hash, rubric, slots[i].probe, slots[i].trial, results[i], answers[i])
      invariant forall i | k <= i < |slots| :: slots[i].judge.judgments == []
    {
      assert slots[k] in slots;
      var result, invoked := ExecuteSlot(plan, hash, rubric, host, slots[k]);
      if invoked { invocations := invocations + 1; }
      if result.None? { return; }
      results := results + [result.value];
      answers := host.answers;
    }
    completed := true;
  }

  /** The first judgments of the flattened list are those of the first slots. */
  lemma {:induction false} CollectedPrefix(slots: seq<Slot>, n: nat)
    requires n <= |slots| && forall i | 0 <= i < n :: |slots[i].judge.judgments| == 1
    ensures n <= |Collected(slots)|
    ensures forall i | 0 <= i < n :: Collected(slots)[i] == slots[i].judge.judgments[0]
  {
    if n == 0 {
    } else {
      CollectedPrefix(slots[1..], n - 1);
      forall i | 0 <= i < n ensures Collected(slots)[i] == slots[i].judge.judgments[0] {
        if i > 0 { assert Collected(slots)[i] == Collected(slots[1..])[i - 1]; }
      }
    }
  }

  /** What the receipt holds for trial `t` of probe `p`, when the run got so far. */
  predicate Holds(plan: Plan, hash: Hash, rubric: Rubric, results: seq<ProbeResult>, retained: seq<Judgment>,
      answers: seq<Answer>, p: nat, t: nat)
    requires p < |plan.probes|
  {
    var i := p * plan.trials + t;
    i < |results| && i < |retained| && i < |answers| ==>
      && Describes(plan, plan.probes[p], t, results[i]) && Recorded(hash, rubric, retained[i], results[i])
      && retained[i].output == plan.probes[p].output && retained[i] == Kept(hash, rubric, answers[i].judgment)
  }

  /** The result and the kept judgment at one place, for the host's answer there. */
  predicate Corresponds(plan: Plan, hash: Hash, rubric: Rubric, slot: (Probe, nat), result: ProbeResult, kept: Judgment, answer: Answer) {
    kept == Kept(hash, rubric, answer.judgment) && Finished(plan, hash, rubric, slot.0, slot.1, result, answer)
  }

  /** Results in the declared order stand at the places of their probes and trials. */
  lemma InOrder(plan: Plan, hash: Hash, rubric: Rubric, results: seq<ProbeResult>, retained: seq<Judgment>,
      answers: seq<Answer>, p: nat, t: nat)
    requires rubric.Valid() && p < |plan.probes| && t < plan.trials
    requires |results| == |retained| <= |Declared(plan, |plan.probes|, 0)| && |results| <= |answers|
    requires forall i | 0 <= i < |results| ::
      Corresponds(plan, hash, rubric, Declared(plan, |plan.probes|, 0)[i], results[i], retained[i], answers[i])
    ensures Holds(plan, hash, rubric, results, retained, answers, p, t)
  {
    var i := p * plan.trials + t;
    DeclaredAt(plan, |plan.probes|, 0, p, t);
    if i < |results| {
      assert Corresponds(plan, hash, rubric, (plan.probes[p], t), results[i], retained[i], answers[i]);
      VerdictStands(hash, rubric, answers[i].judgment, results[i]);
    }
  }

  /** `execute_matched_calibration` after its preflight. Whatever fails and wherever the run stops, the
      retained judgments correspond one to one and in order with the observed results, in the declared
      order. The run completes unless something went wrong or an answer was not usable. */
  method ExecuteMatchedCalibration(plan: Plan, hash: Hash, rubric: Rubric)
    returns (results: seq<ProbeResult>, retained: seq<Judgment>, completed: bool, mishap: bool, answers: seq<Answer>)
    requires rubric.Valid()
    ensures |retained| == |results| <= |plan.probes| * plan.trials && |results| <= |answers|
    ensures completed ==> |results| == |plan.probes| * plan.trials
    ensures completed <==> !mishap && forall a | a in answers :: Usable(rubric, a)
    ensures forall p, t | 0 <= p < |plan.probes| && 0 <= t < plan.trials ::
      Holds(plan, hash, rubric, results, retained, answers, p, t)
  {
    var host := new Host();
    var slots := BuildWrappers(plan, hash, rubric);
    var invocations;
    results, invocations, completed := ExecuteScorerCalibration(plan, hash, rubric, host, slots);
    CollectedPrefix(slots, |results|);
    retained, mishap, answers := Collected(slots)[..|results|], host.mishap, host.answers;
    DeclaredLength(plan, |plan.probes|, 0);
    assert forall i | 0 <= i < |results| ::
      Corresponds(plan, hash, rubric, Declared(plan, |plan.probes|, 0)[i], results[i], retained[i], answers[i]);
    forall p, t | 0 <= p < |plan.probes| && 0 <= t < plan.trials
      ensures Holds(plan, hash, rubric, results, retained, answers, p, t)
    {
      InOrder(plan, hash, rubric, results, retained, answers, p, t);
    }
  }
}
