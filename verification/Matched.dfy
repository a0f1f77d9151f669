/** Matched-lane execution: admission, budgets, and the nested trial loops over host callbacks. */
module Matched {
  import opened Common

  /** A host capability, by its identity. */
  type AdapterId = int

  datatype Capabilities = Capabilities(provider: AdapterId, judge: AdapterId)

  /** `additional` holds the fresh capabilities of the trials after the first. */
  datatype VariantExecution = VariantExecution(first: Capabilities, additional: seq<Capabilities>)

  datatype CaseExecution = CaseExecution(baseline: VariantExecution, candidate: VariantExecution)

  datatype Limits = Limits(maximumProvider: nat, maximumJudge: nat, maximumElapsed: real, costLimited: bool)

  datatype Judgment = Judgment(judge: AdapterId)

  datatype Pair = Pair(case_: nat, trial: nat, baseline: Judgment, candidate: Judgment)

  datatype Receipt = Receipt(
    pairs: seq<Pair>, providerCount: nat, judgeCount: nat, elapsed: real, blocker: Option<string>)

  const CASES := 10
  const TIME_EXHAUSTED := "matched_time_budget_exhausted"
  const PROVIDER_EXHAUSTED := "matched_provider_budget_exhausted"
  const JUDGE_EXHAUSTED := "matched_judge_budget_exhausted"
  const INCOMPLETE := "matched_execution_incomplete"
  const SOURCE_CHANGED := "matched_plugin_source_changed"
  const SAFETY_CHANGED := "matched_plugin_safety_changed"
  const INSUFFICIENT := "matched_run_budget_insufficient"
  const COST_UNAVAILABLE := "matched_cost_budget_unavailable"
  const INVALID := "invalid_matched_execution"

  // ---- The schedule ----

  function Schedule(v: VariantExecution): seq<Capabilities> {
    [v.first] + v.additional
  }

  function Ids(schedule: seq<Capabilities>): seq<AdapterId> {
    if schedule == [] then [] else [schedule[0].provider, schedule[0].judge] + Ids(schedule[1..])
  }

  /** The adapters in the order in which admission looks at them. */
  function Admitted(executions: seq<CaseExecution>): seq<AdapterId> {
    if executions == [] then []
    else
      var n := |executions| - 1;
      Admitted(executions[..n]) + Ids(Schedule(executions[n].baseline)) + Ids(Schedule(executions[n].candidate))
  }

  function Members(ids: seq<AdapterId>): set<AdapterId> {
    set a | a in ids
  }

  predicate Covers(executions: seq<CaseExecution>, trials: nat) {
    forall e | e in executions :: |Schedule(e.baseline)| == trials && |Schedule(e.candidate)| == trials
  }

  /** What admission establishes before any host callback runs. */
  predicate Admissible(executions: seq<CaseExecution>, trials: nat, limits: Limits) {
    && |executions| == CASES && Covers(executions, trials) && Distinct(Admitted(executions))
    && 20 * trials <= limits.maximumProvider && 20 * trials <= limits.maximumJudge
  }

  /** The two variants of one trial: baseline first, each provider before its judge. */
  function TrialCalls(e: CaseExecution, trial: nat): seq<AdapterId>
    requires trial < |Schedule(e.baseline)| && trial < |Schedule(e.candidate)|
  {
    var b, c := Schedule(e.baseline)[trial], Schedule(e.candidate)[trial];
    [b.provider, b.judge, c.provider, c.judge]
  }

  /** The callbacks of `cases` whole cases and `trial` trials of the next one, in execution order. */
  function CallsUpTo(executions: seq<CaseExecution>, trials: nat, cases: nat, trial: nat): (calls: seq<AdapterId>)
    requires Covers(executions, trials) && trial <= trials
    requires cases <= |executions| && (trial > 0 ==> cases < |executions|)
    decreases cases, trial
  {
    if trial > 0 then
      CallsUpTo(executions, trials, cases, trial - 1) + TrialCalls(executions[cases], trial - 1)
    else if cases > 0 then CallsUpTo(executions, trials, cases - 1, trials)
    else []
  }

  /** The pairs of the same prefix, in case and trial order, each with its own trial's judges. */
  function PairsUpTo(executions: seq<CaseExecution>, trials: nat, cases: nat, trial: nat): (pairs: seq<Pair>)
    requires Covers(executions, trials) && trial <= trials
    requires cases <= |executions| && (trial > 0 ==> cases < |executions|)
    decreases cases, trial
  {
    if trial > 0 then
      var e := executions[cases];
      PairsUpTo(executions, trials, cases, trial - 1)
      + [Pair(cases, trial - 1, Judgment(Schedule(e.baseline)[trial - 1].judge),
              Judgment(Schedule(e.candidate)[trial - 1].judge))]
    else if cases > 0 then PairsUpTo(executions, trials, cases - 1, trials)
    else []
  }

  lemma {:induction false} PrefixLength(executions: seq<CaseExecution>, trials: nat, cases: nat, trial: nat)
    requires Covers(executions, trials) && trial <= trials
    requires cases <= |executions| && (trial > 0 ==> cases < |executions|)
    ensures |PairsUpTo(executions, trials, cases, trial)| == cases * trials + trial
    ensures |CallsUpTo(executions, trials, cases, trial)| == 4 * |PairsUpTo(executions, trials, cases, trial)|
    decreases cases, trial
  {
    if trial > 0 {
      PrefixLength(executions, trials, cases, trial - 1);
    } else if cases > 0 {
      PrefixLength(executions, trials, cases - 1, trials);
      assert (cases - 1) * trials + trials == cases * trials;
    }
  }

  /** What stands at one place of the schedule: the pair of this case and trial, judged by its own judges,
      and the four calls that made it. The first trial has the variant's own adapters. */
  predicate PlaceIs(executions: seq<CaseExecution>, trials: nat, pairs: seq<Pair>, calls: seq<AdapterId>, c: nat, t: nat)
    requires c < |executions| && t < trials && Covers(executions, trials)
  {
    var e, n := executions[c], c * trials + t;
    var baseline := if t == 0 then e.baseline.first else e.baseline.additional[t - 1];
    var candidate := if t == 0 then e.candidate.first else e.candidate.additional[t - 1];
    && (n < |pairs| ==> pairs[n] == Pair(c, t, Judgment(baseline.judge), Judgment(candidate.judge)))
    && (4 * n < |calls| ==> calls[4 * n] == baseline.provider)
    && (4 * n + 1 < |calls| ==> calls[4 * n + 1] == baseline.judge)
    && (4 * n + 2 < |calls| ==> calls[4 * n + 2] == candidate.provider)
    && (4 * n + 3 < |calls| ==> calls[4 * n + 3] == candidate.judge)
  }

  /** A place that lies in the prefix holds what belongs there. */
  lemma {:induction false} PrefixPlace(executions: seq<CaseExecution>, trials: nat, cases: nat, trial: nat, c: nat, t: nat)
    requires Covers(executions, trials) && trial <= trials
    requires cases <= |executions| && (trial > 0 ==> cases < |executions|)
    requires t < trials && (c < cases || (c == cases && t < trial))
    ensures var n := c * trials + t;
      && n < |PairsUpTo(executions, trials, cases, trial)|
      && 4 * n + 3 < |CallsUpTo(executions, trials, cases, trial)|
      && PlaceIs(executions, trials,
           PairsUpTo(executions, trials, cases, trial), CallsUpTo(executions, trials, cases, trial), c, t)
    decreases cases, trial
  {
    PrefixLength(executions, trials, cases, trial);
    PlaceBelow(trials, c, t, cases, trial);
    if trial > 0 {
      PrefixLength(executions, trials, cases, trial - 1);
      if c < cases || t < trial - 1 { PrefixPlace(executions, trials, cases, trial - 1, c, t); }
    } else {
      PrefixPlace(executions, trials, cases - 1, trials, c, t);
    }
  }

  lemma PlaceBelow(trials: nat, c: nat, t: nat, cases: nat, trial: nat)
    requires t < trials && (c < cases || (c == cases && t < trial))
    ensures c * trials + t < cases * trials + trial
  {
    if c < cases { assert (c + 1) * trials <= cases * trials; }
  }

  lemma PlaceStays(
    executions: seq<CaseExecution>, trials: nat, pairs: seq<Pair>, calls: seq<AdapterId>, extra: seq<AdapterId>, c: nat, t: nat)
    requires c < |executions| && t < trials && Covers(executions, trials)
    requires PlaceIs(executions, trials, pairs, calls, c, t) && 4 * (c * trials + t) + 3 < |calls|
    ensures PlaceIs(executions, trials, pairs, calls + extra, c, t)
  {
  }

  lemma PlaceBeyond(
    executions: seq<CaseExecution>, trials: nat, pairs: seq<Pair>, calls: seq<AdapterId>, c: nat, t: nat)
    requires c < |executions| && t < trials && Covers(executions, trials)
    requires |pairs| <= c * trials + t && |calls| <= 4 * (c * trials + t)
    ensures PlaceIs(executions, trials, pairs, calls, c, t)
  {
  }

  lemma PlaceBegun(
    executions: seq<CaseExecution>, trials: nat, pairs: seq<Pair>, calls: seq<AdapterId>, extra: seq<AdapterId>, c: nat, t: nat)
    requires c < |executions| && t < trials && Covers(executions, trials)
    requires |pairs| == c * trials + t && |calls| == 4 * |pairs| && extra <= TrialCalls(executions[c], t)
    ensures PlaceIs(executions, trials, pairs, calls + extra, c, t)
  {
  }

  /** Every place of a prefix followed by the beginning of the next trial. */
  lemma Place(executions: seq<CaseExecution>, trials: nat, cases: nat, trial: nat, extra: seq<AdapterId>, c: nat, t: nat)
    requires Covers(executions, trials) && trial <= trials && c < |executions| && t < trials
    requires cases <= |executions| && (trial > 0 ==> cases < |executions|)
    requires extra == []
      || (cases < |executions| && trial < trials && extra <= TrialCalls(executions[cases], trial))
    ensures PlaceIs(executions, trials, PairsUpTo(executions, trials, cases, trial),
      CallsUpTo(executions, trials, cases, trial) + extra, c, t)
  {
    var pairs, calls := PairsUpTo(executions, trials, cases, trial), CallsUpTo(executions, trials, cases, trial);
    PrefixLength(executions, trials, cases, trial);
    if c < cases || (c == cases && t < trial) {
      PrefixPlace(executions, trials, cases, trial, c, t);
      PlaceStays(executions, trials, pairs, calls, extra, c, t);
    } else if c == cases && t == trial {
      PlaceBegun(executions, trials, pairs, calls, extra, c, t);
    } else {
      PlaceNotBelow(trials, cases, trial, c, t);
      PlaceBeyond(executions, trials, pairs, calls + extra, c, t);
    }
  }

  /** Anything after the current place is at least one place further; with no trial begun it may be it. */
  lemma PlaceNotBelow(trials: nat, cases: nat, trial: nat, c: nat, t: nat)
    requires t < trials && trial <= trials && !(c < cases || (c == cases && t <= trial))
    ensures cases * trials + trial <= c * trials + t
    ensures trial < trials ==> cases * trials + trial < c * trials + t
  {
    if c > cases { assert (cases + 1) * trials <= c * trials; }
  }

  // ---- Budget ----

  class RuntimeBudget {
    const limits: Limits
    const startedAt: real
    var now: real
    /** A gate has read a time at or beyond the limit. */
    var late: bool
    var providerInvocations: nat
    var judgeInvocations: nat
    var blockerCode: Option<string>

    constructor (limits: Limits, startedAt: real)
      ensures this.limits == limits && this.startedAt == startedAt && now == startedAt && !late
      ensures providerInvocations == 0 && judgeInvocations == 0 && blockerCode == None
    {
      this.limits, this.startedAt, now, late := limits, startedAt, startedAt, false;
      providerInvocations, judgeInvocations, blockerCode := 0, 0, None;
    }

    /** Read the monotonic clock. */
    method Elapsed() returns (elapsed: real)
      modifies this`now
      ensures now >= old(now) && elapsed >= 0.0
      ensures now >= startedAt ==> elapsed == now - startedAt
    {
      var later: real := *;
      if later >= now { now := later; }
      elapsed := if now >= startedAt then now - startedAt else 0.0;
    }

    /** Keep the first exhaustion reason. */
    method Block(code: string)
      modifies this`blockerCode
      ensures blockerCode == if old(blockerCode).Some? then old(blockerCode) else Some(code)
    {
      if blockerCode.None? { blockerCode := Some(code); }
    }

    /** Gate one provider call and count it; refusing records why. */
    method BeginProvider() returns (admitted: bool)
      modifies this
      ensures judgeInvocations == old(judgeInvocations)
      ensures providerInvocations == old(providerInvocations) + (if admitted then 1 else 0)
      ensures admitted ==>
        old(providerInvocations) < limits.maximumProvider && blockerCode == old(blockerCode) && late == old(late)
      ensures !admitted ==> late || (providerInvocations >= limits.maximumProvider && late == old(late))
      ensures !admitted && old(blockerCode).None? ==>
        || (blockerCode == Some(TIME_EXHAUSTED) && late)
        || (blockerCode == Some(PROVIDER_EXHAUSTED) && providerInvocations >= limits.maximumProvider && late == old(late))
      ensures old(blockerCode).Some? ==> blockerCode == old(blockerCode)
    {
      var elapsed := Elapsed();
      if elapsed >= limits.maximumElapsed {
        late := true;
        Block(TIME_EXHAUSTED);
        return false;
      }
      if providerInvocations >= limits.maximumProvider {
        Block(PROVIDER_EXHAUSTED);
        return false;
      }
      providerInvocations := providerInvocations + 1;
      admitted := true;
    }

    method BeginJudge() returns (admitted: bool)
      modifies this
      ensures providerInvocations == old(providerInvocations)
      ensures judgeInvocations == old(judgeInvocations) + (if admitted then 1 else 0)
      ensures admitted ==>
        old(judgeInvocations) < limits.maximumJudge && blockerCode == old(blockerCode) && late == old(late)
      ensures !admitted ==> late || (judgeInvocations >= limits.maximumJudge && late == old(late))
      ensures !admitted && old(blockerCode).None? ==>
        || (blockerCode == Some(TIME_EXHAUSTED) && late)
        || (blockerCode == Some(JUDGE_EXHAUSTED) && judgeInvocations >= limits.maximumJudge && late == old(late))
      ensures old(blockerCode).Some? ==> blockerCode == old(blockerCode)
    {
      var elapsed := Elapsed();
      if elapsed >= limits.maximumElapsed {
        late := true;
        Block(TIME_EXHAUSTED);
        return false;
      }
      if judgeInvocations >= limits.maximumJudge {
        Block(JUDGE_EXHAUSTED);
        return false;
      }
      judgeInvocations := judgeInvocations + 1;
      admitted := true;
    }

    /** Reject a callback that ended after the time boundary. */
    method Finish() returns (inTime: bool, elapsed: real)
      modifies this`now, this`late, this`blockerCode
      ensures inTime ==> 0.0 <= elapsed < limits.maximumElapsed && blockerCode == old(blockerCode) && late == old(late)
      ensures !inTime ==> late
      ensures !inTime ==> blockerCode == if old(blockerCode).Some? then old(blockerCode) else Some(TIME_EXHAUSTED)
    {
      elapsed := Elapsed();
      inTime := elapsed < limits.maximumElapsed;
      if !inTime {
        late := true;
        Block(TIME_EXHAUSTED);
      }
    }
  }

  /** What happened at the host: the adapters that were really called, in order, what the plugin guards
      found changed, and whether anything else went wrong. */
  class HostLog {
    var calls: seq<AdapterId>
    var findings: seq<string>
    var mishap: bool

    constructor ()
      ensures calls == [] && findings == [] && !mishap
    {
      calls, findings, mishap := [], [], false;
    }

    /** Anything outside the lane's own code may fail: a callback, a validation, the selected case. */
    method Fails() returns (failed: bool)
      modifies this`mishap
      ensures mishap == (old(mishap) || failed)
    {
      failed := *;
      mishap := mishap || failed;
    }

    /** `_PluginGuard.check`: source or safety may have changed. The guard keeps the first finding. */
    method Guard(code: Option<string>) returns (passed: bool, kept: Option<string>)
      requires code == First(findings)
      modifies this`findings
      ensures passed ==> findings == old(findings)
      ensures !passed ==> findings in {old(findings) + [SOURCE_CHANGED], old(findings) + [SAFETY_CHANGED]}
      ensures kept == First(findings)
    {
      var pick: nat := *;
      passed := pick > 1;
      if !passed { findings := findings + [if pick == 0 then SOURCE_CHANGED else SAFETY_CHANGED]; }
      kept := First(findings);
    }
  }

  function First(findings: seq<string>): Option<string> {
    if findings == [] then None else Some(findings[0])
  }

  /** Nothing has gone wrong so far. */
  predicate Clean(budget: RuntimeBudget, host: HostLog)
    reads budget, host
  {
    host.findings == [] && !host.mishap && !budget.late && budget.blockerCode.None?
  }

  /** The codes kept so far: time when a gate was late, and the guard's first finding. */
  predicate Kept(budget: RuntimeBudget, host: HostLog, guard: Option<string>)
    reads budget, host
  {
    && budget.blockerCode == (if budget.late then Some(TIME_EXHAUSTED) else None)
    && guard == First(host.findings)
    && forall f | f in host.findings :: f in {SOURCE_CHANGED, SAFETY_CHANGED}
  }

  /** `_MatchedProvider.complete`: one counted call of the delegate. */
  method ProviderComplete(budget: RuntimeBudget, host: HostLog, provider: AdapterId)
    returns (text: bool, kept: Option<string>)
    requires Clean(budget, host) && budget.providerInvocations < budget.limits.maximumProvider
    modifies budget, host
    ensures Kept(budget, host, kept) && (text <==> Clean(budget, host))
    ensures budget.judgeInvocations == old(budget.judgeInvocations)
    ensures text ==> budget.providerInvocations == old(budget.providerInvocations) + 1
    ensures (budget.providerInvocations == old(budget.providerInvocations) && host.calls == old(host.calls))
         || (budget.providerInvocations == old(budget.providerInvocations) + 1
             && host.calls == old(host.calls) + [provider])
  {
    text := false;
    var passed, admitted, inTime, failed, elapsed;
    passed, kept := host.Guard(None);
    if !passed { return; }
    admitted := budget.BeginProvider();
    if !admitted { return; }
    host.calls := host.calls + [provider];
    failed := host.Fails();
    if failed { return; }
    passed, kept := host.Guard(kept);
    if !passed { return; }
    inTime, elapsed := budget.Finish();
    failed := host.Fails();
    text := inTime && !failed;
  }

  /** The judge wrappers: one counted call of the delegate, and the judgment when it was valid. */
  method JudgeOnce(budget: RuntimeBudget, host: HostLog, judge: AdapterId)
    returns (judgments: seq<Judgment>, accepted: bool, kept: Option<string>)
    requires Clean(budget, host) && budget.judgeInvocations < budget.limits.maximumJudge
    modifies budget, host
    ensures Kept(budget, host, kept) && (accepted <==> Clean(budget, host))
    ensures budget.providerInvocations == old(budget.providerInvocations)
    ensures judgments == [] || judgments == [Judgment(judge)]
    ensures accepted ==> judgments != []
    ensures judgments != [] ==> budget.judgeInvocations == old(budget.judgeInvocations) + 1
    ensures (budget.judgeInvocations == old(budget.judgeInvocations) && host.calls == old(host.calls))
         || (budget.judgeInvocations == old(budget.judgeInvocations) + 1
             && host.calls == old(host.calls) + [judge])
  {
    judgments, accepted := [], false;
    var passed, admitted, inTime, failed, elapsed;
    passed, kept := host.Guard(None);
    if !passed { return; }
    admitted := budget.BeginJudge();
    if !admitted { return; }
    host.calls := host.calls + [judge];
    failed := host.Fails();
    if failed { return; }
    passed, kept := host.Guard(kept);
    if !passed { return; }
    inTime, elapsed := budget.Finish();
    failed := host.Fails();
    if !inTime || failed { return; }
    judgments := [Judgment(judge)];
    failed := host.Fails();
    accepted := !failed;
  }

  /** One variant of one trial. `_execute_selected_case_with_judge` and `execute_provider_call` are
      not part of this model: they may stop at any point, call the provider at most once, and call
      the judge at most once and only on provider text. A result that is not blocked needs both. */
  method ExecuteVariant(budget: RuntimeBudget, host: HostLog, adapters: Capabilities)
    returns (judgment: Option<Judgment>, elapsed: real, guard: Option<string>)
    requires Clean(budget, host)
    requires budget.providerInvocations < budget.limits.maximumProvider
    requires budget.judgeInvocations < budget.limits.maximumJudge
    modifies budget, host
    ensures Kept(budget, host, guard) && (judgment.Some? <==> Clean(budget, host))
    ensures judgment.Some? ==>
      && judgment.value == Judgment(adapters.judge) && 0.0 <= elapsed < budget.limits.maximumElapsed
      && budget.providerInvocations == old(budget.providerInvocations) + 1
      && budget.judgeInvocations == old(budget.judgeInvocations) + 1
      && host.calls == old(host.calls) + [adapters.provider, adapters.judge]
    ensures old(budget.judgeInvocations) <= budget.judgeInvocations
    ensures budget.judgeInvocations - old(budget.judgeInvocations)
         <= budget.providerInvocations - old(budget.providerInvocations) <= 1
    ensures host.calls == old(host.calls) + [adapters.provider, adapters.judge][..
      (budget.providerInvocations - old(budget.providerInvocations))
      + (budget.judgeInvocations - old(budget.judgeInvocations))]
  {
    judgment, elapsed := None, 0.0;
    var passed, failed, text;
    passed, guard := host.Guard(None);
    failed := host.Fails();
    if !passed || failed { return; }
    text, guard := ProviderComplete(budget, host, adapters.provider);
    failed := host.Fails();
    if !text || failed { return; }
    var judgments, accepted;
    judgments, accepted, guard := JudgeOnce(budget, host, adapters.judge);
    var blocked := host.Fails();
    passed, guard := host.Guard(guard);
    if !passed { return; }
    var inTime;
    inTime, elapsed := budget.Finish();
    if !inTime || blocked || !accepted || judgments == [] { return; }
    judgment := Some(judgments[0]);
  }

  // ---- Admission ----

  lemma {:induction false} IdsAppend(a: seq<Capabilities>, b: seq<Capabilities>)
    ensures Ids(a + b) == Ids(a) + Ids(b)
  {
    if a == [] {
      assert a + b == b;
    } else {
      assert (a + b)[1..] == a[1..] + b;
      IdsAppend(a[1..], b);
    }
  }

  lemma IdsPrefix(schedule: seq<Capabilities>, k: nat)
    requires k <= |schedule|
    ensures Ids(schedule[..k]) <= Ids(schedule)
  {
    assert schedule == schedule[..k] + schedule[k..];
    IdsAppend(schedule[..k], schedule[k..]);
  }

  /** The next two identities of a schedule, after those of its first `k` pairs. */
  lemma IdsStep(schedule: seq<Capabilities>, k: nat)
    requires k < |schedule|
    ensures Ids(schedule[..k + 1]) == Ids(schedule[..k]) + [schedule[k].provider, schedule[k].judge]
  {
    var one := [schedule[k]];
    assert schedule[..k + 1] == schedule[..k] + one;
    IdsAppend(schedule[..k], one);
    assert one[1..] == [] && Ids(one) == [schedule[k].provider, schedule[k].judge];
  }

  /** All of these identities are new and different. */
  predicate Fresh(ids: seq<AdapterId>, seen: set<AdapterId>) {
    Distinct(ids) && forall a | a in ids :: a !in seen
  }

  lemma FreshStep(ids: seq<AdapterId>, next: AdapterId, seen: set<AdapterId>)
    requires Fresh(ids, seen)
    ensures Fresh(ids + [next], seen) <==> next !in ids && next !in seen
  {
    DistinctAppend(ids, [next]);
    assert next in ids + [next];
  }

  /** `_require_trial_adapters`: the schedule of one variant is complete and none of its adapters was
      seen before. `seen` grows by exactly these adapters. */
  method RequireTrialAdapters(item: VariantExecution, trials: nat, seen: set<AdapterId>)
    returns (admitted: bool, newSeen: set<AdapterId>)
    ensures admitted <==> |Schedule(item)| == trials && Fresh(Ids(Schedule(item)), seen)
    ensures admitted ==> newSeen == seen + Members(Ids(Schedule(item)))
  {
    newSeen := seen;
    if |item.additional| + 1 != trials { return false, newSeen; }
    var schedule := Schedule(item);
    for k := 0 to |schedule|
      invariant Fresh(Ids(schedule[..k]), seen)
      invariant newSeen == seen + Members(Ids(schedule[..k]))
    {
      var pair := schedule[k];
      ghost var taken := Ids(schedule[..k]);
      IdsStep(schedule, k);
      IdsPrefix(schedule, k + 1);
      FreshStep(taken, pair.provider, seen);
      assert taken + [pair.provider, pair.judge] == taken + [pair.provider] + [pair.judge];
      if pair.provider in newSeen {
        NotAdmitted(taken + [pair.provider], Ids(schedule), seen);
        return false, newSeen;
      }
      newSeen := newSeen + {pair.provider};
      FreshStep(taken + [pair.provider], pair.judge, seen);
      if pair.judge in newSeen {
        NotAdmitted(taken + [pair.provider] + [pair.judge], Ids(schedule), seen);
        return false, newSeen;
      }
      newSeen := newSeen + {pair.judge};
    }
    assert schedule[..|schedule|] == schedule;
    admitted := true;
  }

  lemma NotAdmitted(prefix: seq<AdapterId>, ids: seq<AdapterId>, seen: set<AdapterId>)
    requires prefix <= ids && !Fresh(prefix, seen)
    ensures !Fresh(ids, seen)
  {
  }

  /** What the first cases admit comes first in what all cases admit. */
  lemma {:induction false} AdmittedPrefix(executions: seq<CaseExecution>, k: nat)
    requires k <= |executions|
    ensures Admitted(executions[..k]) <= Admitted(executions)
    decreases |executions|
  {
    if k < |executions| {
      var front := executions[..|executions| - 1];
      assert executions == front + [executions[|executions| - 1]] && front[..k] == executions[..k];
      AdmittedPrefix(front, k);
    } else {
      assert executions[..k] == executions;
    }
  }

  lemma FreshMeans(before: seq<AdapterId>, ids: seq<AdapterId>)
    requires Distinct(before)
    ensures Fresh(ids, Members(before)) <==> Distinct(before + ids)
  {
    DistinctAppend(before, ids);
  }

  /** The adapters of one case: admitted exactly when the schedules are complete and no adapter of
      this case or of an earlier one comes twice. */
  method RequireCase(executions: seq<CaseExecution>, index: nat, trials: nat, seen: set<AdapterId>)
    returns (admitted: bool, newSeen: set<AdapterId>)
    requires index < |executions| && Distinct(Admitted(executions[..index]))
    requires seen == Members(Admitted(executions[..index]))
    ensures admitted ==> Covers([executions[index]], trials) && Distinct(Admitted(executions[..index + 1]))
    ensures admitted ==> newSeen == Members(Admitted(executions[..index + 1]))
    ensures !admitted ==> !Covers([executions[index]], trials) || !Distinct(Admitted(executions[..index + 1]))
  {
    var e := executions[index];
    ghost var before := Admitted(executions[..index]);
    ghost var b, c := Ids(Schedule(e.baseline)), Ids(Schedule(e.candidate));
    assert executions[..index + 1] == executions[..index] + [e] && e in executions;
    FreshMeans(before, b);
    admitted, newSeen := RequireTrialAdapters(e.baseline, trials, seen);
    DistinctAppend(before + b, c);
    if !admitted { return; }
    FreshMeans(before + b, c);
    assert newSeen == Members(before + b);
    admitted, newSeen := RequireTrialAdapters(e.candidate, trials, newSeen);
  }

  /** The first `n` cases pass: no variant check fails, the schedules are complete, no adapter repeats. */
  ghost predicate Clear(executions: seq<CaseExecution>, trials: nat, problems: nat -> Option<string>, n: nat) {
    && n <= |executions| && Covers(executions[..n], trials) && Distinct(Admitted(executions[..n]))
    && forall i: nat | i < n :: problems(i) == None
  }

  lemma {:induction false} ClearBefore(
    executions: seq<CaseExecution>, trials: nat, problems: nat -> Option<string>, k: nat, n: nat)
    requires k <= n && Clear(executions, trials, problems, n)
    ensures Clear(executions, trials, problems, k)
  {
    assert executions[..n][..k] == executions[..k];
    AdmittedPrefix(executions[..n], k);
    assert forall e | e in executions[..k] :: e in executions[..n];
  }

  lemma ClearStep(executions: seq<CaseExecution>, trials: nat, problems: nat -> Option<string>, n: nat)
    requires n < |executions| && Clear(executions, trials, problems, n)
    ensures Clear(executions, trials, problems, n + 1) <==>
      && problems(n) == None && Covers([executions[n]], trials) && Distinct(Admitted(executions[..n + 1]))
  {
    assert executions[..n + 1] == executions[..n] + [executions[n]];
    if Covers(executions[..n + 1], trials) { assert executions[n] in executions[..n + 1]; }
  }

  /** There is one first case that does not pass. */
  lemma FirstFailure(executions: seq<CaseExecution>, trials: nat, problems: nat -> Option<string>, index: nat)
    requires index < |executions|
    requires Clear(executions, trials, problems, index) && !Clear(executions, trials, problems, index + 1)
    ensures !Clear(executions, trials, problems, |executions|)
    ensures forall n: nat | Clear(executions, trials, problems, n) && !Clear(executions, trials, problems, n + 1) ::
      n == index
  {
    if Clear(executions, trials, problems, |executions|) {
      ClearBefore(executions, trials, problems, index + 1, |executions|);
    }
    forall n: nat | Clear(executions, trials, problems, n) && !Clear(executions, trials, problems, n + 1)
      ensures n == index
    {
      if n > index { ClearBefore(executions, trials, problems, index + 1, n); }
      if n < index { ClearBefore(executions, trials, problems, n + 1, index); }
    }
  }

  /** The loop over the cases: the first case that does not pass gives its own problem, or is invalid. */
  method RequireCases(executions: seq<CaseExecution>, trials: nat, problems: nat -> Option<string>)
    returns (blocker: Option<string>)
    ensures blocker == None <==> Clear(executions, trials, problems, |executions|)
    ensures forall n: nat | n < |executions| && Clear(executions, trials, problems, n)
        && !Clear(executions, trials, problems, n + 1) ::
      blocker == if problems(n).Some? then problems(n) else Some(INVALID)
  {
    var seen: set<AdapterId> := {};
    for index := 0 to |executions|
      invariant Clear(executions, trials, problems, index)
      invariant seen == Members(Admitted(executions[..index]))
    {
      ClearStep(executions, trials, problems, index);
      var admitted := false;
      if problems(index).None? { admitted, seen := RequireCase(executions, index, trials, seen); }
      if !admitted {
        FirstFailure(executions, trials, problems, index);
        return if problems(index).Some? then problems(index) else Some(INVALID);
      }
    }
    forall n: nat | n < |executions| && Clear(executions, trials, problems, n)
      ensures Clear(executions, trials, problems, n + 1)
    {
      ClearBefore(executions, trials, problems, n + 1, |executions|);
    }
    blocker := None;
  }

  /** `preflight_matched_lane`. The checks of the plan, the calibrations and the variants are inputs:
      `problems` is the code a variant check of a case raises. `None` means admitted. */
  method Preflight(executions: seq<CaseExecution>, trials: nat, limits: Limits, planned: bool, calibrated: bool,
      problems: nat -> Option<string>) returns (blocker: Option<string>)
    ensures blocker == None <==>
      && planned && !limits.costLimited && calibrated && Admissible(executions, trials, limits)
      && forall i: nat | i < CASES :: problems(i) == None
    ensures !planned ==> blocker == Some(INVALID)
    ensures planned && limits.costLimited ==> blocker == Some(COST_UNAVAILABLE)
    ensures planned && !limits.costLimited ==>
      var poor := limits.maximumProvider < 20 * trials || limits.maximumJudge < 20 * trials;
      && (poor ==> blocker == Some(INSUFFICIENT))
      && (!poor && (!calibrated || |executions| != CASES) ==> blocker == Some(INVALID))
      && (!poor && calibrated && |executions| == CASES ==>
            forall n: nat | n < CASES && Clear(executions, trials, problems, n)
                && !Clear(executions, trials, problems, n + 1) ::
              blocker == if problems(n).Some? then problems(n) else Some(INVALID))
  {
    if !planned { return Some(INVALID); }
    if limits.costLimited { return Some(COST_UNAVAILABLE); }
    var required := trials * 20;
    if limits.maximumProvider < required || limits.maximumJudge < required { return Some(INSUFFICIENT); }
    if !calibrated || |executions| != CASES { return Some(INVALID); }
    assert executions[..|executions|] == executions;
    blocker := RequireCases(executions, trials, problems);
  }

  // ---- The lane ----

  /** The receipt's own bounds on unfinished work. */
  predicate CountsMatchPairs(r: Receipt) {
    && 2 * |r.pairs| <= r.judgeCount <= r.providerCount <= 2 * |r.pairs| + 2
    && (r.providerCount == 2 * |r.pairs| + 2 ==> r.judgeCount >= 2 * |r.pairs| + 1)
  }

  /** The receipt and the host's log, place by place: the pairs are those of a prefix of the schedule, and
      the calls are that prefix's, followed by at most the beginning of the next trial. */
  ghost predicate RetainsPrefix(executions: seq<CaseExecution>, trials: nat, r: Receipt, calls: seq<AdapterId>)
    requires Covers(executions, trials)
  {
    && |r.pairs| <= |executions| * trials
    && |calls| == r.providerCount + r.judgeCount && 4 * |r.pairs| <= |calls| <= 4 * |r.pairs| + 4
    && forall c: nat, t: nat | c < |executions| && t < trials :: PlaceIs(executions, trials, r.pairs, calls, c, t)
  }

  lemma StoppedAt(
    executions: seq<CaseExecution>, trials: nat, cases: nat, trial: nat, r: Receipt, calls: seq<AdapterId>)
    requires Covers(executions, trials) && cases < |executions| && trial < trials
    requires r.pairs == PairsUpTo(executions, trials, cases, trial)
    requires 4 * |r.pairs| <= r.providerCount + r.judgeCount <= 4 * |r.pairs| + 4
    requires calls == CallsUpTo(executions, trials, cases, trial)
                + TrialCalls(executions[cases], trial)[..r.providerCount + r.judgeCount - 4 * |r.pairs|]
    ensures RetainsPrefix(executions, trials, r, calls)
  {
    PrefixLength(executions, trials, cases, trial);
    PlaceBelow(trials, cases, trial, |executions|, 0);
    forall c: nat, t: nat | c < |executions| && t < trials
      ensures PlaceIs(executions, trials, r.pairs, calls, c, t)
    {
      Place(executions, trials, cases, trial,
        TrialCalls(executions[cases], trial)[..r.providerCount + r.judgeCount - 4 * |r.pairs|], c, t);
    }
  }

  lemma Completed(executions: seq<CaseExecution>, trials: nat, r: Receipt, calls: seq<AdapterId>)
    requires Covers(executions, trials)
    requires r.pairs == PairsUpTo(executions, trials, |executions|, 0)
    requires r.providerCount + r.judgeCount == 4 * |r.pairs|
    requires calls == CallsUpTo(executions, trials, |executions|, 0)
    ensures RetainsPrefix(executions, trials, r, calls) && |r.pairs| == |executions| * trials
  {
    PrefixLength(executions, trials, |executions|, 0);
    assert calls + [] == calls;
    forall c: nat, t: nat | c < |executions| && t < trials
      ensures PlaceIs(executions, trials, r.pairs, calls, c, t)
    {
      Place(executions, trials, |executions|, 0, [], c, t);
    }
  }

  /** What happened at the host during a lane, and whether a gate was late. */
  datatype Seen = Seen(calls: seq<AdapterId>, late: bool, findings: seq<string>, mishap: bool)

  /** The receipt of a lane that stops: the budget's code before the guard's, and incomplete for the rest. */
  method Stop(
    budget: RuntimeBudget, host: HostLog, pairs: seq<Pair>, guard: Option<string>,
    ghost executions: seq<CaseExecution>, ghost trials: nat, ghost cases: nat, ghost trial: nat)
    returns (receipt: Receipt, seen: Seen)
    requires Kept(budget, host, guard) && !Clean(budget, host)
    requires Covers(executions, trials) && cases < |executions| && trial < trials
    requires pairs == PairsUpTo(executions, trials, cases, trial)
    requires 4 * |pairs| <= budget.providerInvocations + budget.judgeInvocations <= 4 * |pairs| + 4
    requires host.calls == CallsUpTo(executions, trials, cases, trial)
      + TrialCalls(executions[cases], trial)[..budget.providerInvocations + budget.judgeInvocations - 4 * |pairs|]
    modifies budget`now
    ensures RetainsPrefix(executions, trials, receipt, seen.calls)
    ensures seen == Seen(host.calls, budget.late, host.findings, host.mishap)
    ensures receipt.pairs == pairs
    ensures receipt.providerCount == budget.providerInvocations && receipt.judgeCount == budget.judgeInvocations
    ensures receipt.blocker ==
      if seen.late then Some(TIME_EXHAUSTED)
      else if seen.findings != [] then Some(seen.findings[0])
      else Some(INCOMPLETE)
    ensures !seen.late && seen.findings == [] ==> seen.mishap
  {
    var code := if budget.blockerCode.Some? then budget.blockerCode else if guard.Some? then guard else Some(INCOMPLETE);
    var spent := budget.Elapsed();
    receipt := Receipt(pairs, budget.providerInvocations, budget.judgeInvocations, spent, code);
    seen := Seen(host.calls, budget.late, host.findings, host.mishap);
    StoppedAt(executions, trials, cases, trial, receipt, host.calls);
  }

  /** `_execute_matched_lane` after admission. It completes unless something went wrong, and the code says
      what: lateness before a plugin finding, and a finding before anything else. */
  method ExecuteLane(executions: seq<CaseExecution>, trials: nat, limits: Limits, startedAt: real)
    returns (receipt: Receipt, seen: Seen)
    requires Admissible(executions, trials, limits) && trials > 0
    ensures CountsMatchPairs(receipt) && RetainsPrefix(executions, trials, receipt, seen.calls)
    ensures receipt.blocker ==
      if seen.late then Some(TIME_EXHAUSTED)
      else if seen.findings != [] then Some(seen.findings[0])
      else if seen.mishap then Some(INCOMPLETE)
      else None
    ensures receipt.blocker == None ==>
      && |receipt.pairs| == 10 * trials && receipt.providerCount == receipt.judgeCount == 20 * trials
      && 0.0 <= receipt.elapsed < limits.maximumElapsed
      && seen.calls == CallsUpTo(executions, trials, CASES, 0)
    ensures forall f | f in seen.findings :: f in {SOURCE_CHANGED, SAFETY_CHANGED}
  {
    var budget := new RuntimeBudget(limits, startedAt);
    var host := new HostLog();
    var pairs: seq<Pair> := [];
    var elapsed := 0.0;
    for cases := 0 to |executions|
      invariant pairs == PairsUpTo(executions, trials, cases, 0)
      invariant host.calls == CallsUpTo(executions, trials, cases, 0)
      invariant budget.providerInvocations == budget.judgeInvocations == 2 * |pairs|
      invariant Clean(budget, host)
      invariant cases > 0 ==> 0.0 <= elapsed < limits.maximumElapsed
    {
      for trial := 0 to trials
        invariant pairs == PairsUpTo(executions, trials, cases, trial)
        invariant host.calls == CallsUpTo(executions, trials, cases, trial)
        invariant budget.providerInvocations == budget.judgeInvocations == 2 * |pairs|
        invariant Clean(budget, host)
        invariant cases > 0 || trial > 0 ==> 0.0 <= elapsed < limits.maximumElapsed
      {
        PrefixLength(executions, trials, cases, trial);
        PlaceBelow(trials, cases, trial, CASES, 0);
        var judgments, guard;
        judgments, elapsed, guard := ExecuteTrial(budget, host, executions[cases], trial);
        if judgments.None? {
          receipt, seen := Stop(budget, host, pairs, guard, executions, trials, cases, trial);
          return;
        }
        pairs := pairs + [Pair(cases, trial, judgments.value.0, judgments.value.1)];
      }
    }
    receipt := Receipt(pairs, budget.providerInvocations, budget.judgeInvocations, elapsed, None);
    Completed(executions, trials, receipt, host.calls);
    seen := Seen(host.calls, budget.late, host.findings, host.mishap);
  }

  /** Both variants of one trial, and the guard checks that close it. */
  method ExecuteTrial(budget: RuntimeBudget, host: HostLog, e: CaseExecution, trial: nat)
    returns (judgments: Option<(Judgment, Judgment)>, elapsed: real, guard: Option<string>)
    requires trial < |Schedule(e.baseline)| && trial < |Schedule(e.candidate)|
    requires Clean(budget, host)
    requires budget.providerInvocations + 1 < budget.limits.maximumProvider
    requires budget.judgeInvocations + 1 < budget.limits.maximumJudge
    requires budget.providerInvocations == budget.judgeInvocations
    modifies budget, host
    ensures Kept(budget, host, guard) && (judgments.Some? <==> Clean(budget, host))
    ensures judgments.Some? ==>
      && budget.providerInvocations == budget.judgeInvocations == old(budget.providerInvocations) + 2
      && judgments.value.0 == Judgment(Schedule(e.baseline)[trial].judge)
      && judgments.value.1 == Judgment(Schedule(e.candidate)[trial].judge)
      && 0.0 <= elapsed < budget.limits.maximumElapsed
    ensures old(budget.judgeInvocations) <= budget.judgeInvocations <= budget.providerInvocations
    ensures budget.providerInvocations <= old(budget.providerInvocations) + 2
    ensures budget.providerInvocations == old(budget.providerInvocations) + 2 ==>
      budget.judgeInvocations >= old(budget.judgeInvocations) + 1
    ensures host.calls == old(host.calls) + TrialCalls(e, trial)[..
      budget.providerInvocations + budget.judgeInvocations
      - old(budget.providerInvocations) - old(budget.judgeInvocations)]
  {
    judgments := None;
    var left, right;
    left, elapsed, guard := ExecuteVariant(budget, host, Schedule(e.baseline)[trial]);
    if left.None? { return; }
    right, elapsed, guard := ExecuteVariant(budget, host, Schedule(e.candidate)[trial]);
    if right.None? { return; }
    var passed, inTime;
    passed, guard := host.Guard(None);
    if !passed { return; }
    passed, guard := host.Guard(None);
    if !passed { return; }
    inTime, elapsed := budget.Finish();
    if !inTime { return; }
    judgments := Some((left.value, right.value));
  }

  // ---- Each admitted adapter is invoked exactly once ----

  /** The identities of the first `n` trials of one case, in execution order. */
  function CaseCalls(e: CaseExecution, n: nat): seq<AdapterId>
    requires n <= |Schedule(e.baseline)| && n <= |Schedule(e.candidate)|
  {
    if n == 0 then [] else CaseCalls(e, n - 1) + TrialCalls(e, n - 1)
  }

  lemma {:induction false} CallsByCase(executions: seq<CaseExecution>, trials: nat, cases: nat, trial: nat)
    requires Covers(executions, trials) && trial <= trials && cases < |executions|
    ensures CallsUpTo(executions, trials, cases, trial)
            == CallsUpTo(executions, trials, cases, 0) + CaseCalls(executions[cases], trial)
  {
    if trial == 0 {
    } else {
      CallsByCase(executions, trials, cases, trial - 1);
    }
  }

  function Count(ids: seq<AdapterId>, id: AdapterId): nat {
    if ids == [] then 0 else (if ids[0] == id then 1 else 0) + Count(ids[1..], id)
  }

  lemma {:induction false} CountAppend(a: seq<AdapterId>, b: seq<AdapterId>, id: AdapterId)
    ensures Count(a + b, id) == Count(a, id) + Count(b, id)
  {
    if a == [] {
      assert a + b == b;
    } else {
      assert (a + b)[1..] == a[1..] + b;
      CountAppend(a[1..], b, id);
    }
  }

  /** Without repetition, membership is the count. */
  lemma {:induction false} CountDistinct(ids: seq<AdapterId>, id: AdapterId)
    requires Distinct(ids)
    ensures Count(ids, id) == if id in ids then 1 else 0
  {
    if ids == [] {
    } else {
      assert ids == [ids[0]] + ids[1..];
      DistinctAppend([ids[0]], ids[1..]);
      CountDistinct(ids[1..], id);
    }
  }

  /** Within a case, execution calls the adapters that admission looked at, each as often. */
  lemma {:induction false} CaseCount(e: CaseExecution, n: nat, id: AdapterId)
    requires n <= |Schedule(e.baseline)| && n <= |Schedule(e.candidate)|
    ensures Count(CaseCalls(e, n), id)
            == Count(Ids(Schedule(e.baseline)[..n]), id) + Count(Ids(Schedule(e.candidate)[..n]), id)
  {
    if n == 0 {
    } else {
      CaseCount(e, n - 1, id);
      IdsStep(Schedule(e.baseline), n - 1);
      IdsStep(Schedule(e.candidate), n - 1);
      var b, c := Schedule(e.baseline)[n - 1], Schedule(e.candidate)[n - 1];
      CountAppend(CaseCalls(e, n - 1), TrialCalls(e, n - 1), id);
      assert TrialCalls(e, n - 1) == [b.provider, b.judge] + [c.provider, c.judge];
      CountAppend([b.provider, b.judge], [c.provider, c.judge], id);
      CountAppend(Ids(Schedule(e.baseline)[..n - 1]), [b.provider, b.judge], id);
      CountAppend(Ids(Schedule(e.candidate)[..n - 1]), [c.provider, c.judge], id);
    }
  }

  /** One more case: its calls are counted as its adapters are. */
  lemma CallsOfCase(executions: seq<CaseExecution>, trials: nat, n: nat, id: AdapterId)
    requires Covers(executions, trials) && n < |executions|
    ensures var e := executions[n];
      Count(CallsUpTo(executions, trials, n + 1, 0), id)
      == Count(CallsUpTo(executions, trials, n, 0), id)
         + Count(Ids(Schedule(e.baseline)), id) + Count(Ids(Schedule(e.candidate)), id)
  {
    var e := executions[n];
    CallsByCase(executions, trials, n, trials);
    CountAppend(CallsUpTo(executions, trials, n, 0), CaseCalls(e, trials), id);
    CaseCount(e, trials, id);
    assert Schedule(e.baseline)[..trials] == Schedule(e.baseline);
    assert Schedule(e.candidate)[..trials] == Schedule(e.candidate);
  }

  lemma AdmittedOfCase(executions: seq<CaseExecution>, n: nat, id: AdapterId)
    requires n < |executions|
    ensures var e := executions[n];
      Count(Admitted(executions[..n + 1]), id)
      == Count(Admitted(executions[..n]), id) + Count(Ids(Schedule(e.baseline)), id) + Count(Ids(Schedule(e.candidate)), id)
  {
    var before, b, c := Admitted(executions[..n]), Ids(Schedule(executions[n].baseline)), Ids(Schedule(executions[n].candidate));
    assert executions[..n + 1][..n] == executions[..n] && executions[..n + 1][n] == executions[n];
    CountAppend(before, b, id);
    CountAppend(before + b, c, id);
  }

  lemma {:induction false} LaneCount(executions: seq<CaseExecution>, trials: nat, cases: nat, id: AdapterId)
    requires Covers(executions, trials) && cases <= |executions|
    ensures Count(CallsUpTo(executions, trials, cases, 0), id) == Count(Admitted(executions[..cases]), id)
  {
    if cases == 0 {
    } else {
      LaneCount(executions, trials, cases - 1, id);
      CallsOfCase(executions, trials, cases - 1, id);
      AdmittedOfCase(executions, cases - 1, id);
    }
  }

  /** After admission, a lane that runs to its end calls every admitted adapter exactly once and
      nothing else. */
  lemma EachAdapterOnce(executions: seq<CaseExecution>, trials: nat, limits: Limits, id: AdapterId)
    requires Admissible(executions, trials, limits)
    ensures Count(CallsUpTo(executions, trials, CASES, 0), id) == if id in Admitted(executions) then 1 else 0
  {
    LaneCount(executions, trials, CASES, id);
    assert executions[..CASES] == executions;
    CountDistinct(Admitted(executions), id);
  }
}
