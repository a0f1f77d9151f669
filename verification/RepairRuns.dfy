/** Repair runs on shared files: exactly when is every interleaving of two of them serialisable?

    A run is the undisturbed program of one repair: the source check before the lock, then the steps
    of `_publish`, each atomic. That host calls may fail is part of `Entrypoint`; the theorem of `Locks`
    that is used here holds for arbitrary steps. */
module RepairRuns {
  import opened Common
  import opened Locks

  /** A file: its text, and its inode. */
  datatype File = File(data: string, inode: nat)

  type Files = map<TargetKey, File>

  datatype Report = Running | Matching | Raised | Blocked | Indeterminate | Repaired

  /** What a run remembers: its captured source, its captured target, and how it stands. */
  datatype Local = Local(source: File, current: Option<File>, report: Report)

  /** `siblings` are the entrypoints that the source check of a supporting document validates. */
  datatype Job = Job(
    source: TargetKey, siblings: set<TargetKey>, admits: string -> bool,
    target: TargetKey, stage: TargetKey, backup: TargetKey, recovery: TargetKey,
    expectedSource: string, expectedCurrent: string, stageInode: nat, backupInode: nat)
  {
    predicate Distinct() {
      && stage != target && backup != target && recovery != target
      && stage != backup && stage != recovery && backup != recovery
    }

    function Consults(): set<TargetKey> {
      {source} + siblings
    }

    function Owns(): set<TargetKey> {
      {target, stage, backup, recovery}
    }
  }

  // ---- The program ----

  /** `_source`. */
  function Source(job: Job, f: Files): Option<File> {
    if job.source in f && f[job.source].data == job.expectedSource
      && forall s | s in job.siblings :: s in f && job.admits(f[s].data)
    then Some(f[job.source]) else None
  }

  function SourceCheck(job: Job, f: Files): Option<Local> {
    var found := Source(job, f);
    if found.Some? then Some(Local(found.value, None, Running)) else None
  }

  /** The capture of the target, and the early exits. */
  function CaptureTarget(job: Job, l: Local, f: Files): (Local, Files) {
    if !l.report.Running? then (l, f)
    else if job.target !in f then (l.(report := Raised), f)
    else if f[job.target].data == l.source.data then (l.(report := Matching), f)
    else if f[job.target].data != job.expectedCurrent then (l.(report := Raised), f)
    else (l.(current := Some(f[job.target])), f)
  }

  function WriteStage(job: Job, l: Local, f: Files): (Local, Files) {
    if !l.report.Running? then (l, f)
    else if job.stage in f then (l.(report := Raised), f)
    else (l, f[job.stage := File(l.source.data, job.stageInode)])
  }

  /** The snapshot; when its name is taken, the clean-up takes the staged file away. */
  function WriteSnapshot(job: Job, l: Local, f: Files): (Local, Files) {
    if !l.report.Running? || l.current.None? then (l, f)
    else if job.backup in f then (l.(report := Raised), f - {job.stage})
    else (l, f[job.backup := File(l.current.value.data, job.backupInode)])
  }

  /** The last check before publication; `_source` runs again. */
  function Verify(job: Job, l: Local, f: Files): (Local, Files) {
    if !l.report.Running? || l.current.None? then (l, f)
    else if job.target in f && f[job.target] == l.current.value
      && job.backup in f && f[job.backup].data == l.current.value.data
      && Source(job, f) == Some(l.source)
    then (l, f)
    else (l.(report := Blocked), f)
  }

  function Exchange(job: Job, l: Local, f: Files): (Local, Files) {
    if !l.report.Running? then (l, f)
    else if job.target in f && job.stage in f then
      (l, f[job.target := f[job.stage]][job.stage := f[job.target]])
    else (l.(report := Blocked), f)
  }

  /** The check after publication and the recovery link. */
  function Preserve(job: Job, l: Local, f: Files): (Local, Files) {
    if !l.report.Running? then (l, f)
    else if job.stage in f && Some(f[job.stage]) == l.current
      && job.target in f && f[job.target].data == l.source.data && job.recovery !in f
    then (l, f[job.recovery := f[job.stage]])
    else (l.(report := Indeterminate), f)
  }

  /** The stage name goes after a repair, and in the clean-up of a blocked run. */
  function CleanUp(job: Job, l: Local, f: Files): (Local, Files) {
    if l.report.Running? then (l.(report := Repaired), f - {job.stage})
    else if l.report.Blocked? then (l, f - {job.stage})
    else (l, f)
  }

  const STEPS := 7

  function Program(job: Job): (steps: seq<(Local, Files) -> (Local, Files)>)
    ensures |steps| == STEPS
  {
    [(l, f) => CaptureTarget(job, l, f), (l, f) => WriteStage(job, l, f), (l, f) => WriteSnapshot(job, l, f),
     (l, f) => Verify(job, l, f), (l, f) => Exchange(job, l, f), (l, f) => Preserve(job, l, f),
     (l, f) => CleanUp(job, l, f)]
  }

  function RunOf(job: Job): Run<Local, File> {
    Run(job.target, job.Consults(), job.Owns(), f => SourceCheck(job, f), Program(job))
  }

  // ---- A run keeps to its names ----

  lemma EarlyStepsConfined(job: Job, l: Local, f: Files, g: Files)
    ensures SameOutside(f, CaptureTarget(job, l, f).1, job.Owns())
    ensures SameOutside(f, WriteStage(job, l, f).1, job.Owns())
    ensures SameOutside(f, WriteSnapshot(job, l, f).1, job.Owns())
    ensures SameOutside(f, Verify(job, l, f).1, job.Owns())
    ensures Agree(f, g, job.Consults() + job.Owns()) ==>
      && CaptureTarget(job, l, f).0 == CaptureTarget(job, l, g).0
      && Agree(CaptureTarget(job, l, f).1, CaptureTarget(job, l, g).1, job.Owns())
      && WriteStage(job, l, f).0 == WriteStage(job, l, g).0
      && Agree(WriteStage(job, l, f).1, WriteStage(job, l, g).1, job.Owns())
  {
    assert {job.target, job.stage, job.backup, job.recovery} <= job.Owns();
  }

  lemma LateStepsConfined(job: Job, l: Local, f: Files, g: Files)
    ensures SameOutside(f, Exchange(job, l, f).1, job.Owns())
    ensures SameOutside(f, Preserve(job, l, f).1, job.Owns())
    ensures SameOutside(f, CleanUp(job, l, f).1, job.Owns())
    ensures Agree(f, g, job.Consults() + job.Owns()) ==>
      && Exchange(job, l, f).0 == Exchange(job, l, g).0
      && Agree(Exchange(job, l, f).1, Exchange(job, l, g).1, job.Owns())
      && Preserve(job, l, f).0 == Preserve(job, l, g).0
      && Agree(Preserve(job, l, f).1, Preserve(job, l, g).1, job.Owns())
      && CleanUp(job, l, f).0 == CleanUp(job, l, g).0
      && Agree(CleanUp(job, l, f).1, CleanUp(job, l, g).1, job.Owns())
  {
    assert {job.target, job.stage, job.backup, job.recovery} <= job.Owns();
  }

  lemma RunIsConfined(job: Job)
    ensures Confined(RunOf(job))
  {
    var run := RunOf(job);
    assert forall f, g | Agree(f, g, run.consults) :: run.check(f) == run.check(g);
    forall k | 0 <= k < STEPS ensures ConfinedStep(run.steps[k], run.consults, run.owns) {
      forall l, f ensures SameOutside(f, run.steps[k](l, f).1, run.owns) {
        EarlyStepsConfined(job, l, f, f);
        LateStepsConfined(job, l, f, f);
      }
      forall l, f, g | Agree(f, g, run.consults + run.owns)
        ensures run.steps[k](l, f).0 == run.steps[k](l, g).0
        ensures Agree(run.steps[k](l, f).1, run.steps[k](l, g).1, run.owns)
      {
        EarlyStepsConfined(job, l, f, g);
        LateStepsConfined(job, l, f, g);
      }
    }
  }

  // ---- A run on its own repairs ----

  /** The job can be carried out on these files. */
  predicate Ready(job: Job, f: Files) {
    && job.Distinct() && job.Consults() !! job.Owns()
    && Source(job, f).Some? && job.target in f && f[job.target].data == job.expectedCurrent != job.expectedSource
    && job.stage !in f && job.backup !in f && job.recovery !in f
  }

  /** The first three steps from files that are ready. */
  function Prepared(job: Job, f: Files): (Local, Files)
    requires Ready(job, f)
  {
    (Local(f[job.source], Some(f[job.target]), Running),
     f[job.stage := File(job.expectedSource, job.stageInode)][job.backup := File(job.expectedCurrent, job.backupInode)])
  }

  lemma Prepares(job: Job, f: Files)
    requires Ready(job, f)
    ensures Apply(RunOf(job), 3, SourceCheck(job, f).value, f) == Prepared(job, f)
  {
    var run, l := RunOf(job), SourceCheck(job, f).value;
    assert Apply(run, 0, l, f) == (l, f);
    assert Apply(run, 1, l, f) == CaptureTarget(job, l, f);
    var l1 := CaptureTarget(job, l, f).0;
    assert Apply(run, 2, l, f) == WriteStage(job, l1, f);
    assert Apply(run, 3, l, f) == WriteSnapshot(job, l1, WriteStage(job, l1, f).1);
  }

  /** The files after an undisturbed repair. */
  function RepairedFiles(job: Job, f: Files): Files
    requires Ready(job, f)
  {
    f[job.target := File(job.expectedSource, job.stageInode)]
     [job.backup := File(job.expectedCurrent, job.backupInode)][job.recovery := f[job.target]]
  }

  lemma AloneRepairs(job: Job, f: Files)
    requires Ready(job, f)
    ensures Alone(RunOf(job), STEPS, f) == (Some(Local(f[job.source], Some(f[job.target]), Repaired)), RepairedFiles(job, f))
  {
    var run, l := RunOf(job), SourceCheck(job, f).value;
    Prepares(job, f);
    var p := Prepared(job, f);
    assert Apply(run, 4, l, f) == Verify(job, p.0, p.1);
    assert Apply(run, 5, l, f) == Exchange(job, p.0, p.1);
    var e := Exchange(job, p.0, p.1);
    assert Apply(run, 6, l, f) == Preserve(job, e.0, e.1);
    var q := Preserve(job, e.0, e.1);
    assert Apply(run, 7, l, f) == CleanUp(job, q.0, q.1);
    assert q.1 - {job.stage} == RepairedFiles(job, f);
  }

  /** A report that ends the run. */
  predicate Ended(report: Report) {
    report.Matching? || report.Raised? || report.Indeterminate?
  }

  lemma {:induction false} StaysEnded(job: Job, k: nat, n: nat, l: Local, f: Files)
    requires k <= n <= STEPS && Ended(Apply(RunOf(job), k, l, f).0.report)
    ensures Apply(RunOf(job), n, l, f) == Apply(RunOf(job), k, l, f)
  {
    if k == n {
    } else {
      StaysEnded(job, k, n - 1, l, f);
    }
  }

  /** The snapshot and the exchange took place, but the recovery name was taken. */
  function StrandedFiles(job: Job, f: Files): Files
    requires job.target in f
  {
    f[job.stage := f[job.target]][job.backup := File(job.expectedCurrent, job.backupInode)]
     [job.target := File(job.expectedSource, job.stageInode)]
  }

  /** The source shows the expected text, and every sibling is admitted. */
  predicate SourceStands(job: Job, f: Files) {
    && job.source in f && f[job.source].data == job.expectedSource
    && forall s | s in job.siblings :: s in f && job.admits(f[s].data)
  }

  /** A target that is missing or of neither version, or that is already the new one, ends the run at once. */
  lemma EndsAtTarget(job: Job, f: Files)
    requires SourceStands(job, f)
    requires job.target !in f || f[job.target].data == job.expectedSource || f[job.target].data != job.expectedCurrent
    ensures Alone(RunOf(job), STEPS, f)
      == (Some(Local(f[job.source], None,
            if job.target in f && f[job.target].data == job.expectedSource then Matching else Raised)), f)
  {
    var run, l := RunOf(job), SourceCheck(job, f).value;
    assert Apply(run, 0, l, f) == (l, f) && Apply(run, 1, l, f) == CaptureTarget(job, l, f);
    StaysEnded(job, 1, STEPS, l, f);
  }

  /** A stage or backup name that is taken ends the run before anything is exchanged. */
  lemma EndsAtPrivateName(job: Job, f: Files)
    requires job.Distinct() && SourceStands(job, f) && job.target in f
    requires f[job.target].data == job.expectedCurrent != job.expectedSource && (job.stage in f || job.backup in f)
    ensures Alone(RunOf(job), STEPS, f) == (Some(Local(f[job.source], Some(f[job.target]), Raised)), f)
  {
    var run, l := RunOf(job), SourceCheck(job, f).value;
    var captured := CaptureTarget(job, l, f).0;
    assert Apply(run, 0, l, f) == (l, f) && Apply(run, 1, l, f) == (captured, f);
    assert Apply(run, 2, l, f) == WriteStage(job, captured, f);
    if job.stage in f {
      StaysEnded(job, 2, STEPS, l, f);
    } else {
      var staged := WriteStage(job, captured, f);
      assert Apply(run, 3, l, f) == WriteSnapshot(job, staged.0, staged.1);
      assert staged.1 - {job.stage} == f;
      StaysEnded(job, 3, STEPS, l, f);
    }
  }

  /** A recovery name that is taken leaves the run indeterminate, with the old file under the stage name. */
  lemma EndsAtRecovery(job: Job, f: Files)
    requires job.Distinct() && job.Consults() !! job.Owns() && SourceStands(job, f) && job.target in f
    requires f[job.target].data == job.expectedCurrent != job.expectedSource
    requires job.stage !in f && job.backup !in f && job.recovery in f
    ensures Alone(RunOf(job), STEPS, f)
      == (Some(Local(f[job.source], Some(f[job.target]), Indeterminate)), StrandedFiles(job, f))
  {
    var run, l := RunOf(job), SourceCheck(job, f).value;
    var captured := CaptureTarget(job, l, f).0;
    assert Apply(run, 0, l, f) == (l, f) && Apply(run, 1, l, f) == (captured, f);
    var staged := WriteStage(job, captured, f).1;
    assert Apply(run, 2, l, f) == (captured, staged);
    var saved := WriteSnapshot(job, captured, staged).1;
    assert Apply(run, 3, l, f) == (captured, saved);
    assert Source(job, saved) == Source(job, f) by { assert forall n | n in job.Consults() :: n !in job.Owns(); }
    assert Apply(run, 4, l, f) == Verify(job, captured, saved) == (captured, saved);
    var exchanged := Exchange(job, captured, saved).1;
    assert Apply(run, 5, l, f) == (captured, exchanged);
    assert Apply(run, 6, l, f) == Preserve(job, captured, exchanged);
    assert exchanged == StrandedFiles(job, f);
    StaysEnded(job, 6, STEPS, l, f);
  }

  /** What a run on its own reports and leaves, from any files: it refuses a source that does not stand,
      matches a target that is already new, raises before writing anything lasting when the target is another
      version or a private name is taken, is indeterminate when only the recovery name is, and repairs otherwise. */
  lemma AloneReports(job: Job, f: Files)
    requires job.Distinct() && job.Consults() !! job.Owns()
    ensures var end := Alone(RunOf(job), STEPS, f);
      if !SourceStands(job, f) then end == (None, f)
      else
        && end.0.Some?
        && (if job.target !in f then end.0.value.report == Raised && end.1 == f
            else if f[job.target].data == job.expectedSource then end.0.value.report == Matching && end.1 == f
            else if f[job.target].data != job.expectedCurrent || job.stage in f || job.backup in f then
              end.0.value.report == Raised && end.1 == f
            else if job.recovery in f then end.0.value.report == Indeterminate && end.1 == StrandedFiles(job, f)
            else end.0.value.report == Repaired && Ready(job, f) && end.1 == RepairedFiles(job, f))
  {
    if SourceStands(job, f) {
      if job.target !in f || f[job.target].data == job.expectedSource || f[job.target].data != job.expectedCurrent {
        EndsAtTarget(job, f);
      } else if job.stage in f || job.backup in f {
        EndsAtPrivateName(job, f);
      } else if job.recovery in f {
        EndsAtRecovery(job, f);
      } else {
        AloneRepairs(job, f);
      }
    }
  }

  // ---- One run disturbs another ----

  /** Publishing `b` makes the source check of `a` fail: its target is `a`'s source, or an entrypoint
      that `a` validates and that the new text is not admitted as. */
  predicate Disturbs(b: Job, a: Job) {
    b.target == a.source || (b.target in a.siblings && !a.admits(b.expectedSource))
  }

  /** Two jobs on different targets, with private names that no one else uses. */
  predicate Pair(a: Job, b: Job, f: Files) {
    && Ready(a, f) && Ready(b, f) && a.Owns() !! b.Owns()
    && a.Consults() * b.Owns() <= {b.target} && b.Consults() * a.Owns() <= {a.target}
  }

  function Skill(directory: nat): TargetKey {
    TargetKey(0, directory, "SKILL.md")
  }

  /** A chain of two repairs of entrypoints: the second updates, from directory 3, the very entrypoint
      in directory 1 that the first installs in directory 2. */
  lemma ChainDisturbs() returns (a: Job, b: Job, f: Files)
    ensures Pair(a, b, f) && Disturbs(b, a)
  {
    var admits := (text: string) => true;
    a := Job(Skill(1), {}, admits, Skill(2), TargetKey(0, 2, "stage-a"), TargetKey(0, 9, "backup-a"),
      TargetKey(0, 9, "recovery-a"), "v2", "v1", 21, 22);
    b := Job(Skill(3), {}, admits, Skill(1), TargetKey(0, 1, "stage-b"), TargetKey(0, 9, "backup-b"),
      TargetKey(0, 9, "recovery-b"), "v3", "v2", 31, 32);
    f := map[Skill(1) := File("v2", 11), Skill(2) := File("v1", 12), Skill(3) := File("v3", 13)];
    assert "backup-a"[7] != "backup-b"[7] && "recovery-a"[9] != "recovery-b"[9];
    assert a.Consults() == {Skill(1)} && b.Consults() == {Skill(3)};
  }

  lemma DisturbedCheckFails(a: Job, b: Job, f: Files)
    requires Pair(a, b, f) && Disturbs(b, a)
    ensures SourceCheck(a, RepairedFiles(b, f)).None?
  {
  }

  /** `b` can still be carried out once `a` has staged and saved its snapshot. */
  lemma StillReady(a: Job, b: Job, f: Files)
    requires Pair(a, b, f)
    ensures Ready(b, Prepared(a, f).1)
  {
    var g := Prepared(a, f).1;
    forall n | n in b.Consults() + b.Owns() ensures (n in f <==> n in g) && (n in f ==> f[n] == g[n]) {
      assert n != a.stage && n != a.backup by {
        if n in b.Consults() && n in a.Owns() { assert n in b.Consults() * a.Owns(); }
      }
    }
    assert b.target in b.Owns() && b.stage in b.Owns() && b.backup in b.Owns() && b.recovery in b.Owns();
  }

  /** After `b` has published in between, `a` stops at its last check with its snapshot kept. */
  lemma DisturbedRunBlocks(a: Job, b: Job, f: Files)
    requires Pair(a, b, f) && Disturbs(b, a)
    ensures Ready(b, Prepared(a, f).1)
    ensures var l, g := Prepared(a, f).0, RepairedFiles(b, Prepared(a, f).1);
      Verify(a, l, g) == (l.(report := Blocked), g)
  {
    StillReady(a, b, f);
    var g := RepairedFiles(b, Prepared(a, f).1);
    assert b.target in g && g[b.target].data == b.expectedSource;
    assert Source(a, g).None?;
  }

  // ---- Building an interleaving ----

  type Trace = seq<System<Local, File>>

  function Last(trace: Trace): System<Local, File>
    requires trace != []
  {
    trace[|trace| - 1]
  }

  lemma Extend(runs: seq<Run<Local, File>>, trace: Trace, t: System<Local, File>, i: nat)
    requires Execution(runs, trace) && i < |runs| == |Last(trace).phases| && Step(runs, Last(trace), t, i)
    ensures Execution(runs, trace + [t]) && Last(trace + [t]) == t && (trace + [t])[0] == trace[0]
  {
    var longer := trace + [t];
    forall k | 0 <= k < |longer| - 1 ensures Next(runs, longer[k], longer[k + 1]) {
      if k < |trace| - 1 { assert Next(runs, trace[k], trace[k + 1]); }
    }
  }

  /** A run checks its source and gets its lock. */
  lemma Enters(runs: seq<Run<Local, File>>, trace: Trace, i: nat, l: Local) returns (longer: Trace)
    requires Execution(runs, trace) && i < |runs| == |Last(trace).phases| && Last(trace).phases[i].Waiting?
    requires runs[i].check(Last(trace).files) == Some(l) && LockName(runs[i].key) !in Last(trace).locks
    ensures Execution(runs, longer) && longer[0] == trace[0]
    ensures var s := Last(trace);
      Last(longer) == s.(phases := s.phases[i := Inside(0, l)], locks := s.locks[LockName(runs[i].key) := i],
        order := After(s.order, i))
  {
    var s := Last(trace);
    var t := s.(phases := s.phases[i := Checked(l)]);
    Extend(runs, trace, t, i);
    longer := trace + [t];
    var u := t.(phases := t.phases[i := Inside(0, l)], locks := t.locks[LockName(runs[i].key) := i], order := After(t.order, i));
    Extend(runs, longer, u, i);
    longer := longer + [u];
  }

  lemma Acts(runs: seq<Run<Local, File>>, trace: Trace, i: nat) returns (longer: Trace)
    requires Execution(runs, trace) && i < |runs| == |Last(trace).phases| && Last(trace).phases[i].Inside?
    requires Last(trace).phases[i].done < |runs[i].steps|
    ensures Execution(runs, longer) && longer[0] == trace[0]
    ensures var s := Last(trace); var k := s.phases[i].done;
      var after := runs[i].steps[k](s.phases[i].local, s.files);
      Last(longer) == s.(files := after.1, phases := s.phases[i := Inside(k + 1, after.0)])
  {
    var s := Last(trace);
    var k := s.phases[i].done;
    var after := runs[i].steps[k](s.phases[i].local, s.files);
    var t := s.(files := after.1, phases := s.phases[i := Inside(k + 1, after.0)]);
    assert Works(runs[i], k, s.phases[i].local, s, t, i);
    Extend(runs, trace, t, i);
    longer := trace + [t];
  }

  /** The first `n` steps of a run in one go. */
  lemma {:induction false} ActsOn(runs: seq<Run<Local, File>>, trace: Trace, i: nat, n: nat) returns (longer: Trace)
    requires Execution(runs, trace) && i < |runs| == |Last(trace).phases| && n <= |runs[i].steps|
    requires Last(trace).phases[i].Inside? && Last(trace).phases[i].done == 0
    ensures Execution(runs, longer) && longer[0] == trace[0]
    ensures var s := Last(trace); var after := Apply(runs[i], n, s.phases[i].local, s.files);
      Last(longer) == s.(files := after.1, phases := s.phases[i := Inside(n, after.0)])
  {
    if n == 0 {
      longer := trace;
      var s := Last(trace);
      assert s.phases[i := Inside(0, s.phases[i].local)] == s.phases;
    } else {
      longer := ActsOn(runs, trace, i, n - 1);
      longer := Acts(runs, longer, i);
    }
  }

  lemma Leaves(runs: seq<Run<Local, File>>, trace: Trace, i: nat) returns (longer: Trace)
    requires Execution(runs, trace) && i < |runs| == |Last(trace).phases| && Last(trace).phases[i].Inside?
    ensures Execution(runs, longer) && longer[0] == trace[0]
    ensures var s := Last(trace); var p := s.phases[i];
      Last(longer) == s.(phases := s.phases[i := Finished(p.done, p.local)], locks := s.locks - {LockName(runs[i].key)})
  {
    var s := Last(trace);
    var t := s.(phases := s.phases[i := Finished(s.phases[i].done, s.phases[i].local)], locks := s.locks - {LockName(runs[i].key)});
    Extend(runs, trace, t, i);
    longer := trace + [t];
  }

  predicate Roles(runs: seq<Run<Local, File>>, i: nat, j: nat, a: Job, b: Job, f: Files) {
    |runs| == 2 && i < 2 && j == 1 - i && Pair(a, b, f)
  }

  /** The interleaving: `a` gets as far as its snapshot, and `b` repairs its own target. */
  lemma BothInside(runs: seq<Run<Local, File>>, i: nat, j: nat, a: Job, b: Job, f: Files) returns (trace: Trace)
    requires Roles(runs, i, j, a, b, f) && runs[i] == RunOf(a) && runs[j] == RunOf(b)
    ensures Execution(runs, trace) && trace[0].files == f
    ensures var s, g := Last(trace), Prepared(a, f).1;
      && Ready(b, g) && s.files == RepairedFiles(b, g) && |s.phases| == 2 && s.order == After(After(Nobody, i), j)
      && s.phases[i] == Inside(3, Prepared(a, f).0)
      && s.phases[j] == Finished(STEPS, Local(g[b.source], Some(g[b.target]), Repaired))
  {
    var start := System(f, [Waiting, Waiting], map[], Nobody);
    trace := [start];
    trace := Enters(runs, trace, i, SourceCheck(a, f).value);
    Prepares(a, f);
    trace := ActsOn(runs, trace, i, 3);
    StillReady(a, b, f);
    var g := Prepared(a, f).1;
    assert a.target in a.Owns() && b.target in b.Owns();
    if LockName(a.target) == LockName(b.target) { LockNameInjective(a.target, b.target); }
    trace := Enters(runs, trace, j, SourceCheck(b, g).value);
    AloneRepairs(b, g);
    trace := ActsOn(runs, trace, j, STEPS);
    trace := Leaves(runs, trace, j);
  }

  /** Then `a` finds its source check failing and reports that it was blocked. */
  lemma DisturbedTrace(runs: seq<Run<Local, File>>, i: nat, j: nat, a: Job, b: Job, f: Files) returns (trace: Trace)
    requires Roles(runs, i, j, a, b, f) && runs[i] == RunOf(a) && runs[j] == RunOf(b) && Disturbs(b, a)
    ensures Execution(runs, trace) && trace[0].files == f
    ensures var s := Last(trace);
      && |s.phases| == 2 && s.phases[i].Finished? && s.phases[j].Finished? && s.phases[i].done == s.phases[j].done == STEPS
      && s.phases[i].local.report == Blocked && s.phases[j].local.report == Repaired
      && a.backup in s.files && s.files[a.backup].data == a.expectedCurrent
  {
    trace := BothInside(runs, i, j, a, b, f);
    DisturbedRunBlocks(a, b, f);
    trace := Acts(runs, trace, i);
    trace := Acts(runs, trace, i);
    trace := Acts(runs, trace, i);
    trace := Acts(runs, trace, i);
    trace := Leaves(runs, trace, i);
    assert a.backup in a.Owns();
  }

  // ---- The exact condition ----

  lemma NoOneLeft(runs: seq<Run<Local, File>>, order: Order, phases: seq<Phase<Local>>)
    requires |runs| == |phases| == 2 && Lawful(runs, order, phases) && !In(order, 0) && !In(order, 1)
    ensures order == Nobody
  {
  }

  lemma OrderOfTwo(runs: seq<Run<Local, File>>, order: Order, phases: seq<Phase<Local>>)
    requires |runs| == |phases| == 2 && Lawful(runs, order, phases) && In(order, 0) && In(order, 1)
    ensures order == After(After(Nobody, 0), 1) || order == After(After(Nobody, 1), 0)
  {
    var earlier := order.earlier;
    assert Lawful(runs, earlier, phases) && earlier.After?;
    assert Lawful(runs, earlier.earlier, phases) && !In(earlier.earlier, earlier.run) && !In(earlier.earlier, order.run);
    NoOneLeft(runs, earlier.earlier, phases);
  }

  /** What an equivalent serial execution of two runs says of their reports. */
  lemma ReportsInOrder(runs: seq<Run<Local, File>>, i: nat, j: nat, f: Files, s: System<Local, File>)
    requires |runs| == 2 && i < 2 && j < 2 && EquivalentTo(runs, s, f, After(After(Nobody, i), j))
    ensures |s.phases| == 2 && Admitted(s.phases[i]) && Admitted(s.phases[j])
    ensures Progress(s.phases[i]) <= |runs[i].steps| && Progress(s.phases[j]) <= |runs[j].steps|
    ensures var first := Alone(runs[i], Progress(s.phases[i]), f);
      && first.0 == Some(s.phases[i].local)
      && Alone(runs[j], Progress(s.phases[j]), first.1).0 == Some(s.phases[j].local)
  {
    var first := After(Nobody, i);
    assert Lawful(runs, first, s.phases) && Lawful(runs, Nobody, s.phases);
    assert Serial(runs, Nobody, s.phases, f) == f && SameReports(runs, first, s.phases, f);
  }

  lemma NotFirst(runs: seq<Run<Local, File>>, i: nat, j: nat, a: Job, b: Job, f: Files, s: System<Local, File>)
    requires Roles(runs, i, j, a, b, f) && runs[i] == RunOf(a) && runs[j] == RunOf(b)
    requires |s.phases| == 2 && s.phases[i].Finished? && s.phases[i].done == STEPS && s.phases[i].local.report == Blocked
    ensures !EquivalentTo(runs, s, f, After(After(Nobody, i), j))
  {
    AloneRepairs(a, f);
    if EquivalentTo(runs, s, f, After(After(Nobody, i), j)) { ReportsInOrder(runs, i, j, f, s); }
  }

  lemma NotSecond(runs: seq<Run<Local, File>>, i: nat, j: nat, a: Job, b: Job, f: Files, s: System<Local, File>)
    requires Roles(runs, i, j, a, b, f) && runs[i] == RunOf(a) && runs[j] == RunOf(b) && Disturbs(b, a)
    requires |s.phases| == 2 && s.phases[j].Finished? && s.phases[j].done == STEPS
    ensures !EquivalentTo(runs, s, f, After(After(Nobody, j), i))
  {
    AloneRepairs(b, f);
    DisturbedCheckFails(a, b, f);
    if EquivalentTo(runs, s, f, After(After(Nobody, j), i)) { ReportsInOrder(runs, j, i, f, s); }
  }

  /** In neither serial order does `a` report that it was blocked. */
  lemma NoSerialOrder(runs: seq<Run<Local, File>>, i: nat, j: nat, a: Job, b: Job, f: Files, s: System<Local, File>)
    requires Roles(runs, i, j, a, b, f) && runs[i] == RunOf(a) && runs[j] == RunOf(b) && Disturbs(b, a)
    requires |s.phases| == 2 && s.phases[i].Finished? && s.phases[j].Finished?
    requires s.phases[i].done == s.phases[j].done == STEPS && s.phases[i].local.report == Blocked
    ensures !Serialisable(runs, s, f)
  {
    forall order ensures !EquivalentTo(runs, s, f, order) {
      if EquivalentTo(runs, s, f, order) {
        OrderOfTwo(runs, order, s.phases);
        NotFirst(runs, i, j, a, b, f, s);
        NotSecond(runs, i, j, a, b, f, s);
      }
    }
  }

  // ---- Entrypoints that stay admitted need not be watched ----

  /** If the job validates this name, the file there is admitted. */
  predicate Fine(job: Job, name: TargetKey, f: Files) {
    name in job.siblings ==> name in f && job.admits(f[name].data)
  }

  function Relaxed(job: Job, name: TargetKey): Job {
    job.(siblings := job.siblings - {name})
  }

  lemma RelaxedStep(job: Job, name: TargetKey, k: nat, l: Local, f: Files)
    requires Fine(job, name, f) && k < STEPS
    ensures Program(Relaxed(job, name))[k](l, f) == Program(job)[k](l, f)
  {
  }

  /** What the run of `job` keeps true for another job that may validate its target. */
  predicate Kept(job: Job, other: Job, phase: Phase<Local>, f: Files) {
    && job.target in f && Fine(other, job.target, f)
    && (phase.Checked? || phase.Inside? ==> phase.local.source.data == job.expectedSource)
    && (phase.Inside? && 2 <= phase.done <= 4 && phase.local.report.Running? ==>
          job.stage in f && f[job.stage].data == job.expectedSource)
  }

  lemma ActKeeps(job: Job, other: Job, k: nat, l: Local, f: Files)
    requires job.Distinct() && !Disturbs(job, other) && k < STEPS && Kept(job, other, Inside(k, l), f)
    ensures var after := Program(job)[k](l, f); Kept(job, other, Inside(k + 1, after.0), after.1)
  {
  }

  lemma OtherKeeps(job: Job, other: Job, phase: Phase<Local>, k: nat, l: Local, f: Files)
    requires job.Owns() !! other.Owns() && k < STEPS && Kept(job, other, phase, f)
    ensures Kept(job, other, phase, Program(other)[k](l, f).1)
  {
    RunIsConfined(other);
    assert ConfinedStep(RunOf(other).steps[k], other.Consults(), other.Owns());
    assert SameOutside(f, RunOf(other).steps[k](l, f).1, other.Owns());
    assert job.target in job.Owns() && job.stage in job.Owns();
  }

  /** Two jobs that do not disturb each other. */
  predicate Calm(a: Job, b: Job) {
    a.Distinct() && b.Distinct() && a.Owns() !! b.Owns() && !Disturbs(a, b) && !Disturbs(b, a)
  }

  function Runs(a: Job, b: Job): seq<Run<Local, File>> {
    [RunOf(a), RunOf(b)]
  }

  function RelaxedRuns(a: Job, b: Job): seq<Run<Local, File>> {
    Runs(Relaxed(a, b.target), Relaxed(b, a.target))
  }

  predicate BothKept(a: Job, b: Job, s: System<Local, File>) {
    |s.phases| == 2 && Kept(a, b, s.phases[0], s.files) && Kept(b, a, s.phases[1], s.files)
  }

  lemma StepKeepsBoth(a: Job, b: Job, s: System<Local, File>, t: System<Local, File>, i: nat)
    requires Calm(a, b) && BothKept(a, b, s) && i < 2 && Step(Runs(a, b), s, t, i)
    ensures BothKept(a, b, t)
  {
    if s.phases[i].Inside? && t.phases[i].Inside? {
      var k, l := s.phases[i].done, s.phases[i].local;
      if i == 0 {
        ActKeeps(a, b, k, l, s.files);
        OtherKeeps(b, a, s.phases[1], k, l, s.files);
      } else {
        ActKeeps(b, a, k, l, s.files);
        OtherKeeps(a, b, s.phases[0], k, l, s.files);
      }
    }
  }

  /** While both stay admitted, a step of the runs is a step of the relaxed runs. */
  lemma StepRelaxes(a: Job, b: Job, s: System<Local, File>, t: System<Local, File>, i: nat)
    requires BothKept(a, b, s) && i < 2 && Step(Runs(a, b), s, t, i)
    ensures Step(RelaxedRuns(a, b), s, t, i)
  {
    if s.phases[i].Inside? && s.phases[i].done < STEPS {
      RelaxedStep(if i == 0 then a else b, if i == 0 then b.target else a.target, s.phases[i].done, s.phases[i].local, s.files);
    }
  }

  lemma {:induction false} TraceKeepsBoth(a: Job, b: Job, trace: Trace, k: nat)
    requires Calm(a, b) && Execution(Runs(a, b), trace) && k < |trace| && BothKept(a, b, trace[0])
    ensures BothKept(a, b, trace[k])
  {
    if k == 0 {
    } else {
      TraceKeepsBoth(a, b, trace, k - 1);
      assert Next(Runs(a, b), trace[k - 1], trace[k]);
      var i: nat :| i < 2 && Step(Runs(a, b), trace[k - 1], trace[k], i);
      StepKeepsBoth(a, b, trace[k - 1], trace[k], i);
    }
  }

  lemma TraceRelaxes(a: Job, b: Job, trace: Trace)
    requires Calm(a, b) && Execution(Runs(a, b), trace) && BothKept(a, b, trace[0])
    ensures Execution(RelaxedRuns(a, b), trace)
  {
    forall k | 0 <= k < |trace| - 1 ensures Next(RelaxedRuns(a, b), trace[k], trace[k + 1]) {
      TraceKeepsBoth(a, b, trace, k);
      assert Next(Runs(a, b), trace[k], trace[k + 1]);
      var i: nat :| i < 2 && Step(Runs(a, b), trace[k], trace[k + 1], i);
      StepRelaxes(a, b, trace[k], trace[k + 1], i);
    }
  }

  // ---- Serial executions of relaxed runs ----

  predicate FineBoth(a: Job, b: Job, f: Files) {
    a.target in f && b.target in f && Fine(a, b.target, f) && Fine(b, a.target, f)
  }

  lemma {:induction false} ApplyRelaxes(a: Job, b: Job, n: nat, l: Local, f: Files)
    requires Calm(a, b) && n <= STEPS && FineBoth(a, b, f) && l.source.data == a.expectedSource
    ensures var after := Apply(RunOf(a), n, l, f);
      && Apply(RunOf(Relaxed(a, b.target)), n, l, f) == after
      && Kept(a, b, Inside(n, after.0), after.1) && Kept(b, a, Waiting, after.1)
  {
    if n == 0 {
    } else {
      ApplyRelaxes(a, b, n - 1, l, f);
      var before := Apply(RunOf(a), n - 1, l, f);
      RelaxedStep(a, b.target, n - 1, before.0, before.1);
      ActKeeps(a, b, n - 1, before.0, before.1);
      OtherKeeps(b, a, Waiting, n - 1, before.0, before.1);
    }
  }

  lemma AloneRelaxes(a: Job, b: Job, n: nat, f: Files)
    requires Calm(a, b) && n <= STEPS && FineBoth(a, b, f)
    ensures Alone(RunOf(Relaxed(a, b.target)), n, f) == Alone(RunOf(a), n, f)
    ensures FineBoth(a, b, Alone(RunOf(a), n, f).1)
  {
    if SourceCheck(a, f).Some? { ApplyRelaxes(a, b, n, SourceCheck(a, f).value, f); }
  }

  lemma {:induction false} SerialRelaxes(a: Job, b: Job, order: Order, phases: seq<Phase<Local>>, f: Files)
    requires Calm(a, b) && FineBoth(a, b, f) && |phases| == 2 && Lawful(RelaxedRuns(a, b), order, phases)
    ensures Lawful(Runs(a, b), order, phases)
    ensures Serial(Runs(a, b), order, phases, f) == Serial(RelaxedRuns(a, b), order, phases, f)
    ensures FineBoth(a, b, Serial(Runs(a, b), order, phases, f))
    ensures SameReports(RelaxedRuns(a, b), order, phases, f) ==> SameReports(Runs(a, b), order, phases, f)
  {
    if order == Nobody {
    } else {
      SerialRelaxes(a, b, order.earlier, phases, f);
      var before := Serial(Runs(a, b), order.earlier, phases, f);
      if order.run == 0 {
        AloneRelaxes(a, b, Progress(phases[0]), before);
      } else {
        AloneRelaxes(b, a, Progress(phases[1]), before);
      }
    }
  }

  lemma RelaxedAreIndependent(a: Job, b: Job, f: Files, admitted: Order)
    requires Pair(a, b, f) && Calm(a, b)
    ensures Independent(RelaxedRuns(a, b), admitted) && AllConfined(RelaxedRuns(a, b))
  {
    RunIsConfined(Relaxed(a, b.target));
    RunIsConfined(Relaxed(b, a.target));
    var c, d := Relaxed(a, b.target), Relaxed(b, a.target);
    assert c.Owns() == a.Owns() && d.Owns() == b.Owns();
  }

  ghost predicate AlwaysSerialisable(a: Job, b: Job, f: Files) {
    forall trace: Trace | Execution(Runs(a, b), trace) && trace[0].files == f ::
      Serialisable(Runs(a, b), Last(trace), f)
  }

  lemma CalmIsSerialisable(a: Job, b: Job, f: Files, trace: Trace)
    requires Pair(a, b, f) && !Disturbs(a, b) && !Disturbs(b, a)
    requires Execution(Runs(a, b), trace) && trace[0].files == f
    ensures Serialisable(Runs(a, b), Last(trace), f)
  {
    assert FineBoth(a, b, f) && BothKept(a, b, trace[0]);
    TraceRelaxes(a, b, trace);
    var s := Last(trace);
    RelaxedAreIndependent(a, b, f, s.order);
    SerialEquivalence(RelaxedRuns(a, b), trace, |trace| - 1);
    SerialRelaxes(a, b, s.order, s.phases, f);
    assert EquivalentTo(Runs(a, b), s, f, s.order);
  }

  /** Every interleaving of two repairs comes to one of the two serial orders exactly when neither
      publication makes the other's source check fail. */
  lemma SerialisableIffUndisturbed(a: Job, b: Job, f: Files)
    requires Pair(a, b, f)
    ensures AlwaysSerialisable(a, b, f) <==> !Disturbs(a, b) && !Disturbs(b, a)
  {
    if Disturbs(b, a) {
      var trace := DisturbedTrace(Runs(a, b), 0, 1, a, b, f);
      NoSerialOrder(Runs(a, b), 0, 1, a, b, f, Last(trace));
    } else if Disturbs(a, b) {
      var trace := DisturbedTrace(Runs(a, b), 1, 0, b, a, f);
      NoSerialOrder(Runs(a, b), 1, 0, b, a, f, Last(trace));
    } else {
      forall trace: Trace | Execution(Runs(a, b), trace) && trace[0].files == f
        ensures Serialisable(Runs(a, b), Last(trace), f)
      {
        CalmIsSerialisable(a, b, f, trace);
      }
    }
  }
}
