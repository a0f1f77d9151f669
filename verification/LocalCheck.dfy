/** The local check: the results the pipeline emits and the results its model accepts. */
module LocalCheck {
  import opened Common

  datatype Kind = Intake | Validate | ScenarioQuality | ScorerQuality | ScorerCalibration

  const ORDER: seq<Kind> := [Intake, Validate, ScenarioQuality, ScorerQuality, ScorerCalibration]

  /** `clear` is status `normalized` for an intake receipt and `pass` for the others; `decision` says
      whether an intake decision is `admit`; `detail` stands for the fields no rule here compares. */
  datatype Receipt = Receipt(kind: Kind, candidate: Option<string>, clear: bool, decision: Option<bool>, detail: string) {
    /** The receipts' own validators, as far as the local check relies on them. */
    predicate Valid() {
      if kind.Intake? then candidate.Some? && decision.Some? && (!clear ==> decision == Some(false))
      else decision.None? && (clear ==> candidate.Some?)
    }

    predicate Admitted() {
      kind.Intake? && clear && decision == Some(true)
    }
  }

  datatype Stage = Stage(name: Kind, receipt: Receipt)

  datatype BlockedStage = Check(kind: Kind) | CandidateChanged | Context

  datatype BlockerCode = UnsupportedContextRead | OtherCode(text: string)

  /** A blocker's message and references: the constants the pipeline writes, or any other. */
  datatype BlockerText = PipelineText | OtherText(text: string)

  datatype Blocker = Blocker(code: BlockerCode, text: BlockerText)

  const CONTEXT_BLOCKER := Blocker(UnsupportedContextRead, PipelineText)

  datatype LocalCheckResult = LocalCheckResult(
    passed: bool, candidate: Option<string>, blockedStage: Option<BlockedStage>, stages: seq<Stage>, blocker: Option<Blocker>)

  // ---- The validator ----

  /** `name_matches_receipt`, for every stage. */
  predicate StagesValid(stages: seq<Stage>) {
    forall s | s in stages :: s.name == s.receipt.kind && s.receipt.Valid()
  }

  predicate OrderedPrefix(stages: seq<Stage>) {
    0 < |stages| <= |ORDER| && forall i | 0 <= i < |stages| :: stages[i].name == ORDER[i]
  }

  predicate NoMismatchBefore(stages: seq<Stage>, n: nat, candidate: Option<string>) {
    forall i | 1 <= i < n && i < |stages| :: stages[i].receipt.candidate == candidate
  }

  /** `status_matches_stage_evidence`. */
  predicate Accepts(r: LocalCheckResult) {
    && StagesValid(r.stages)
    && if r.blockedStage == Some(Context) then
         !r.passed && r.stages == [] && r.candidate.None? && r.blocker.Some? && r.blocker.value.code.UnsupportedContextRead?
       else
         && r.blocker.None? && OrderedPrefix(r.stages) && StageEvidence(r)
  }

  predicate StageEvidence(r: LocalCheckResult)
    requires OrderedPrefix(r.stages)
  {
    var n := |r.stages|;
    var intake := r.stages[0].receipt;
    && r.candidate == intake.candidate
    && (n > 1 ==> intake.Admitted())
    && (forall i | 1 <= i < n - 1 :: r.stages[i].receipt.clear)
    && if r.blockedStage == Some(CandidateChanged) then
         && !r.passed && n > 1 && NoMismatchBefore(r.stages, n - 1, r.candidate)
         && r.stages[n - 1].receipt.candidate != r.candidate
       else
         && NoMismatchBefore(r.stages, n, r.candidate)
         && if r.passed then
              && r.blockedStage.None? && n == |ORDER| && r.candidate.Some? && intake.Admitted()
              && (forall i | 1 <= i < n :: r.stages[i].receipt.clear)
            else
              && r.blockedStage == Some(Check(r.stages[n - 1].name))
              && (if n == 1 then !intake.Admitted() else !r.stages[n - 1].receipt.clear)
  }

  // ---- The pipeline ----

  /** What one run finds: whether the context could be read, and the receipts the checks would return. */
  datatype Findings = Findings(readable: bool, intake: Receipt, checks: seq<Receipt>) {
    predicate Valid() {
      && intake.kind.Intake? && intake.Valid()
      && |checks| == 4 && forall i | 0 <= i < 4 :: checks[i].kind == ORDER[i + 1] && checks[i].Valid()
    }
  }

  /** The stages after `n` checks. */
  function StagesAfter(f: Findings, n: nat): seq<Stage>
    requires f.Valid() && n <= 4
  {
    [Stage(Intake, f.intake)] + seq(n, i requires 0 <= i < n => Stage(ORDER[i + 1], f.checks[i]))
  }

  /** A check that does not let the run go on. */
  predicate Stops(f: Findings, i: nat)
    requires f.Valid() && i < 4
  {
    f.checks[i].candidate != f.intake.candidate || !f.checks[i].clear
  }

  /** The construction in `_emit_local_check`. */
  function Emitted(stages: seq<Stage>, blockedStage: Option<BlockedStage>, blocker: Option<Blocker>): LocalCheckResult {
    LocalCheckResult(blockedStage.None?, if stages == [] then None else stages[0].receipt.candidate, blockedStage, stages, blocker)
  }

  /** The result of a run, by its first stop. */
  ghost predicate ResultOf(f: Findings, r: LocalCheckResult)
    requires f.Valid()
  {
    if !f.readable then r == Emitted([], Some(Context), Some(CONTEXT_BLOCKER))
    else if !f.intake.Admitted() then r == Emitted(StagesAfter(f, 0), Some(Check(Intake)), None)
    else if forall i | 0 <= i < 4 :: !Stops(f, i) then r == Emitted(StagesAfter(f, 4), None, None)
    else exists n | 0 <= n < 4 :: StopsFirst(f, n) && r == Emitted(StagesAfter(f, n + 1), Some(StopStage(f, n)), None)
  }

  predicate StopsFirst(f: Findings, n: nat)
    requires f.Valid() && n < 4
  {
    Stops(f, n) && forall i | 0 <= i < n :: !Stops(f, i)
  }

  function StopStage(f: Findings, n: nat): BlockedStage
    requires f.Valid() && n < 4
  {
    if f.checks[n].candidate != f.intake.candidate then CandidateChanged else Check(ORDER[n + 1])
  }

  lemma StagesAreOrdered(f: Findings, n: nat)
    requires f.Valid() && n <= 4
    ensures StagesValid(StagesAfter(f, n)) && OrderedPrefix(StagesAfter(f, n))
  {
  }

  lemma ClearBefore(f: Findings, n: nat)
    requires f.Valid() && n < 4 && StopsFirst(f, n)
    ensures var stages := StagesAfter(f, n + 1);
      && (forall i | 1 <= i < n + 1 :: stages[i].receipt.clear && stages[i].receipt.candidate == f.intake.candidate)
      && stages[n + 1] == Stage(ORDER[n + 1], f.checks[n]) && stages[0].receipt == f.intake
  {
    var stages := StagesAfter(f, n + 1);
    forall i | 1 <= i < n + 1
      ensures stages[i].receipt.clear && stages[i].receipt.candidate == f.intake.candidate
    {
      assert stages[i].receipt == f.checks[i - 1] && !Stops(f, i - 1);
    }
  }

  lemma StopEvidence(stages: seq<Stage>, stop: BlockedStage)
    requires OrderedPrefix(stages) && |stages| > 1 && stages[0].receipt.Admitted()
    requires forall i | 1 <= i < |stages| - 1 ::
      stages[i].receipt.clear && stages[i].receipt.candidate == stages[0].receipt.candidate
    requires var last := stages[|stages| - 1];
      if last.receipt.candidate != stages[0].receipt.candidate then stop == CandidateChanged
      else stop == Check(last.name) && !last.receipt.clear
    ensures StageEvidence(Emitted(stages, Some(stop), None))
  {
  }

  lemma StopAccepted(f: Findings, n: nat)
    requires f.Valid() && n < 4 && StopsFirst(f, n) && f.intake.Admitted()
    ensures Accepts(Emitted(StagesAfter(f, n + 1), Some(StopStage(f, n)), None))
  {
    StagesAreOrdered(f, n + 1);
    ClearBefore(f, n);
    StopEvidence(StagesAfter(f, n + 1), StopStage(f, n));
  }

  lemma PassAccepted(f: Findings)
    requires f.Valid() && f.intake.Admitted() && forall i | 0 <= i < 4 :: !Stops(f, i)
    ensures Accepts(Emitted(StagesAfter(f, 4), None, None))
  {
    StagesAreOrdered(f, 4);
    var stages := StagesAfter(f, 4);
    assert forall i | 1 <= i < 5 :: stages[i].receipt == f.checks[i - 1] && !Stops(f, i - 1);
  }

  lemma EmittedIsAccepted(f: Findings, r: LocalCheckResult)
    requires f.Valid() && ResultOf(f, r)
    ensures Accepts(r)
  {
    if !f.readable {
    } else if !f.intake.Admitted() {
      StagesAreOrdered(f, 0);
    } else if forall i | 0 <= i < 4 :: !Stops(f, i) {
      PassAccepted(f);
    } else {
      var n :| 0 <= n < 4 && StopsFirst(f, n) && r == Emitted(StagesAfter(f, n + 1), Some(StopStage(f, n)), None);
      StopAccepted(f, n);
    }
  }

  /** `_local_check` runs the checks in a loop and stops at the first blocker; the model accepts
      every result it can emit. */
  method LocalCheck(f: Findings) returns (r: LocalCheckResult)
    requires f.Valid()
    ensures ResultOf(f, r) && Accepts(r)
  {
    r := RunChecks(f);
    EmittedIsAccepted(f, r);
  }

  /** The result says `pass` exactly when the context is readable, intake admits, and every check is clear for
      the candidate of the intake. */
  lemma PassesExactly(f: Findings, r: LocalCheckResult)
    requires f.Valid() && ResultOf(f, r)
    ensures r.passed <==>
      && f.readable && f.intake.clear && f.intake.decision == Some(true)
      && forall i | 0 <= i < 4 :: f.checks[i].clear && f.checks[i].candidate == f.intake.candidate
  {
    assert forall i | 0 <= i < 4 :: Stops(f, i) <==> !f.checks[i].clear || f.checks[i].candidate != f.intake.candidate;
    if f.readable && f.intake.Admitted() && !forall i | 0 <= i < 4 :: !Stops(f, i) {
      var n :| 0 <= n < 4 && StopsFirst(f, n) && r == Emitted(StagesAfter(f, n + 1), Some(StopStage(f, n)), None);
    }
  }

  method RunChecks(f: Findings) returns (r: LocalCheckResult)
    requires f.Valid()
    ensures ResultOf(f, r)
  {
    if !f.readable {
      return Emitted([], Some(Context), Some(CONTEXT_BLOCKER));
    }
    var stages := [Stage(Intake, f.intake)];
    assert stages == StagesAfter(f, 0);
    if !f.intake.Admitted() {
      return Emitted(stages, Some(Check(Intake)), None);
    }
    for n := 0 to 4
      invariant stages == StagesAfter(f, n)
      invariant forall i | 0 <= i < n :: !Stops(f, i)
    {
      var receipt := f.checks[n];
      stages := stages + [Stage(ORDER[n + 1], receipt)];
      assert stages == StagesAfter(f, n + 1);
      assert Stops(f, n) ==> StopsFirst(f, n);
      if receipt.candidate != f.intake.candidate {
        assert StopStage(f, n) == CandidateChanged;
        return Emitted(stages, Some(CandidateChanged), None);
      }
      if !receipt.clear {
        assert StopStage(f, n) == Check(ORDER[n + 1]);
        return Emitted(stages, Some(Check(ORDER[n + 1])), None);
      }
    }
    r := Emitted(stages, None, None);
  }

  // ---- Every accepted result is the outcome of a run, but for one message ----

  function Filler(kind: Kind): Receipt {
    Receipt(kind, None, false, if kind.Intake? then Some(false) else None, "")
  }

  /** The receipt of the check with index `i`: the one kept in the stages, or a filler after the stop. */
  function CheckOf(stages: seq<Stage>, i: nat): (receipt: Receipt)
    requires StagesValid(stages) && (stages != [] ==> OrderedPrefix(stages)) && i < 4
    ensures receipt.kind == ORDER[i + 1] && receipt.Valid()
  {
    if i + 1 < |stages| then
      assert stages[i + 1] in stages;
      stages[i + 1].receipt
    else Filler(ORDER[i + 1])
  }

  function ChecksOf(stages: seq<Stage>): (checks: seq<Receipt>)
    requires StagesValid(stages) && (stages != [] ==> OrderedPrefix(stages))
    ensures |checks| == 4 && forall i | 0 <= i < 4 :: checks[i] == CheckOf(stages, i)
  {
    seq(4, i requires 0 <= i < 4 => CheckOf(stages, i))
  }

  /** The findings of a run that stops where the result stops. */
  function FindingsFor(r: LocalCheckResult): (f: Findings)
    requires Accepts(r)
    ensures f.Valid()
  {
    if r.stages == [] then Findings(false, Receipt(Intake, Some(""), false, Some(false), ""), ChecksOf([]))
    else
      assert r.stages[0] in r.stages;
      Findings(true, r.stages[0].receipt, ChecksOf(r.stages))
  }

  /** The one thing the model leaves open that the pipeline fixes: the text of the context blocker. */
  predicate PipelineBlocker(r: LocalCheckResult) {
    r.blockedStage == Some(Context) ==> r.blocker == Some(CONTEXT_BLOCKER)
  }

  /** An accepted result is the outcome of some run exactly when a context blocker, if it has one, is
      the pipeline's own. */
  lemma AcceptedIsEmittedIff(r: LocalCheckResult)
    requires Accepts(r)
    ensures PipelineBlocker(r) <==> exists f: Findings :: f.Valid() && ResultOf(f, r)
  {
    if PipelineBlocker(r) {
      AcceptedIsEmitted(r);
      assert FindingsFor(r).Valid() && ResultOf(FindingsFor(r), r);
    }
  }

  lemma RunReaches(r: LocalCheckResult)
    requires Accepts(r) && r.stages != []
    ensures var f, n := FindingsFor(r), |r.stages|;
      && f.readable && r.stages == StagesAfter(f, n - 1)
      && (forall i | 1 <= i < n :: f.checks[i - 1] == r.stages[i].receipt)
  {
    var after := StagesAfter(FindingsFor(r), |r.stages| - 1);
    forall i | 0 <= i < |r.stages|
      ensures r.stages[i] == after[i] && (i > 0 ==> FindingsFor(r).checks[i - 1] == r.stages[i].receipt)
    {
    }
  }

  lemma StoppedRun(r: LocalCheckResult)
    requires Accepts(r) && |r.stages| > 1 && !r.passed
    ensures var f, n := FindingsFor(r), |r.stages|;
      StopsFirst(f, n - 2) && r.blockedStage == Some(StopStage(f, n - 2))
  {
    RunReaches(r);
    var f, n := FindingsFor(r), |r.stages|;
    forall i | 0 <= i < n - 2 ensures !Stops(f, i) { assert f.checks[i] == r.stages[i + 1].receipt; }
    assert f.checks[n - 2] == r.stages[n - 1].receipt;
  }

  lemma AcceptedIsEmitted(r: LocalCheckResult)
    requires Accepts(r) && PipelineBlocker(r)
    ensures ResultOf(FindingsFor(r), r)
  {
    var f, n := FindingsFor(r), |r.stages|;
    if n > 0 {
      RunReaches(r);
      if r.passed {
        forall i | 0 <= i < 4 ensures !Stops(f, i) { assert f.checks[i] == r.stages[i + 1].receipt; }
      } else if n > 1 {
        StoppedRun(r);
        assert r == Emitted(StagesAfter(f, (n - 2) + 1), Some(StopStage(f, n - 2)), None);
      }
    }
  }

  /** A context blocker with any other text is accepted by the model, and no run emits it. */
  lemma OtherContextTextIsNeverEmitted(text: BlockerText, f: Findings)
    requires text != PipelineText && f.Valid()
    ensures var r := LocalCheckResult(false, None, Some(Context), [], Some(Blocker(UnsupportedContextRead, text)));
      Accepts(r) && !ResultOf(f, r)
  {
  }
}
