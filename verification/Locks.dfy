/** Cooperating repair runs over one shared filesystem: mutual exclusion by lock file, and when the
    runs are serialisable.

    A run first checks its source, without a lock; then it asks for the lock of its target; then it
    takes its steps, each an arbitrary function of what the run remembers and of the files. It may
    stop after any step, as a run does that raises or whose process dies. */
module Locks {
  import opened Common
  import opened Text

  /** A file name in an opened directory. `_lock_name` binds the same three things of a target. */
  datatype TargetKey = TargetKey(device: nat, inode: nat, name: string)

  datatype Phase<L> = Waiting | Checked(local: L) | Inside(done: nat, local: L) | Finished(done: nat, local: L) | Refused

  /** One atomic step: what the run remembers and the files, before and after. */
  type Action<!L, !F> = (L, map<TargetKey, F>) -> (L, map<TargetKey, F>)

  /** `check` is the run's first `_source`; `consults` are the names it looks at besides its own, and
      `owns` its target and its private names. */
  datatype Run<!L, !F> = Run(
    key: TargetKey, consults: set<TargetKey>, owns: set<TargetKey>,
    check: map<TargetKey, F> -> Option<L>,
    steps: seq<Action<L, F>>)

  /** The runs that got their lock, in the order in which they got it. */
  datatype Order = Nobody | After(earlier: Order, run: nat)

  datatype System<L, F> = System(
    files: map<TargetKey, F>, phases: seq<Phase<L>>, locks: map<Digest<string>, nat>, order: Order)

  /** The text that `_lock_name` hashes. */
  function Identity(key: TargetKey): string {
    Decimal(key.device) + [':'] + (Decimal(key.inode) + [':'] + key.name)
  }

  function LockName(key: TargetKey): Digest<string> {
    Sha256(Identity(key))
  }

  /** Two targets share a lock file only when they are the same name in the same directory, whatever
      path each run used to reach the directory. */
  lemma LockNameInjective(a: TargetKey, b: TargetKey)
    requires LockName(a) == LockName(b)
    ensures a == b
  {
    SplitUnique(Decimal(a.device), Decimal(a.inode) + [':'] + a.name,
                Decimal(b.device), Decimal(b.inode) + [':'] + b.name, ':');
    SplitUnique(Decimal(a.inode), a.name, Decimal(b.inode), b.name, ':');
    DecimalInjective(a.device, b.device);
    DecimalInjective(a.inode, b.inode);
  }

  function Progress<L>(phase: Phase<L>): nat {
    match phase
    case Inside(k, _) => k
    case Finished(k, _) => k
    case _ => 0
  }

  predicate Admitted<L>(phase: Phase<L>) {
    phase.Inside? || phase.Finished?
  }

  // ---- What a run may touch ----

  ghost predicate Agree<F>(f: map<TargetKey, F>, g: map<TargetKey, F>, names: set<TargetKey>) {
    forall n | n in names :: (n in f <==> n in g) && (n in f && n in g ==> f[n] == g[n])
  }

  /** Only these names may differ. */
  ghost predicate SameOutside<F>(f: map<TargetKey, F>, g: map<TargetKey, F>, names: set<TargetKey>) {
    forall n | n !in names :: (n in f <==> n in g) && (n in f && n in g ==> f[n] == g[n])
  }

  /** A step sees only the run's own names and those it reads, and changes only its own. */
  ghost predicate ConfinedStep<L(!new), F(!new)>(
    step: Action<L, F>, consults: set<TargetKey>, owns: set<TargetKey>)
  {
    && (forall l, f :: SameOutside(f, step(l, f).1, owns))
    && (forall l, f, g | Agree(f, g, consults + owns) ::
          step(l, f).0 == step(l, g).0 && Agree(step(l, f).1, step(l, g).1, owns))
  }

  ghost predicate Confined<L(!new), F(!new)>(run: Run<L, F>) {
    && run.key in run.owns
    && (forall f, g | Agree(f, g, run.consults) :: run.check(f) == run.check(g))
    && (forall k | 0 <= k < |run.steps| :: ConfinedStep(run.steps[k], run.consults, run.owns))
  }

  ghost predicate AllConfined<L(!new), F(!new)>(runs: seq<Run<L, F>>) {
    forall i | 0 <= i < |runs| :: Confined(runs[i])
  }

  /** Neither run reads what the other writes, and runs on different targets share no name. */
  ghost predicate Apart<L, F>(a: Run<L, F>, b: Run<L, F>) {
    a.consults !! b.owns && b.consults !! a.owns && (a.key != b.key ==> a.owns !! b.owns)
  }

  ghost predicate Independent<L, F>(runs: seq<Run<L, F>>, admitted: Order) {
    forall i: nat, j: nat | i < |runs| && j < |runs| && i != j && In(admitted, i) && In(admitted, j) ::
      Apart(runs[i], runs[j])
  }

  // ---- Interleaved executions ----

  ghost predicate Initial<L, F>(runs: seq<Run<L, F>>, s: System<L, F>) {
    && |s.phases| == |runs| && s.locks == map[] && s.order == Nobody
    && (forall i | 0 <= i < |runs| :: s.phases[i].Waiting?)
  }

  /** Run `i` takes one atomic step: look at its source, ask for its lock without waiting, act, or leave. */
  ghost predicate Step<L, F>(runs: seq<Run<L, F>>, s: System<L, F>, t: System<L, F>, i: nat)
    requires i < |runs| == |s.phases|
  {
    var run, lock := runs[i], LockName(runs[i].key);
    match s.phases[i]
    case Waiting =>
      var found := run.check(s.files);
      t == s.(phases := s.phases[i := if found.Some? then Checked(found.value) else Refused])
    case Checked(l) =>
      if lock in s.locks then
        t == s.(phases := s.phases[i := Refused])
      else
        t == s.(phases := s.phases[i := Inside(0, l)], locks := s.locks[lock := i], order := After(s.order, i))
    case Inside(k, l) =>
      || (k < |run.steps| && Works(run, k, l, s, t, i))
      || t == s.(phases := s.phases[i := Finished(k, l)], locks := s.locks - {lock})
    case _ => false
  }

  ghost predicate Works<L, F>(run: Run<L, F>, k: nat, l: L, s: System<L, F>, t: System<L, F>, i: nat)
    requires k < |run.steps| && i < |s.phases|
  {
    var after := run.steps[k](l, s.files);
    t == s.(files := after.1, phases := s.phases[i := Inside(k + 1, after.0)])
  }

  ghost predicate Next<L, F>(runs: seq<Run<L, F>>, s: System<L, F>, t: System<L, F>) {
    |s.phases| == |runs| && exists i: nat | i < |runs| :: Step(runs, s, t, i)
  }

  ghost predicate Execution<L, F>(runs: seq<Run<L, F>>, trace: seq<System<L, F>>) {
    && trace != [] && Initial(runs, trace[0])
    && forall k | 0 <= k < |trace| - 1 :: Next(runs, trace[k], trace[k + 1])
  }

  predicate In(order: Order, i: nat) {
    order.After? && (order.run == i || In(order.earlier, i))
  }

  ghost predicate Within(order: Order, last: Order) {
    forall j | In(order, j) :: In(last, j)
  }

  // ---- Serial executions ----

  /** The first `n` steps of a run that has checked its source. */
  function Apply<L, F>(run: Run<L, F>, n: nat, l: L, files: map<TargetKey, F>): (L, map<TargetKey, F>)
    requires n <= |run.steps|
  {
    if n == 0 then (l, files)
    else
      var before := Apply(run, n - 1, l, files);
      run.steps[n - 1](before.0, before.1)
  }

  /** A run on its own, up to `n` steps: what it remembers, and the files it leaves. */
  function Alone<L, F>(run: Run<L, F>, n: nat, files: map<TargetKey, F>): (Option<L>, map<TargetKey, F>)
    requires n <= |run.steps|
  {
    var found := run.check(files);
    if found.None? then (None, files)
    else
      var after := Apply(run, n, found.value, files);
      (Some(after.0), after.1)
  }

  /** Every run of the order is admitted once, and none did more than all its steps. */
  predicate Lawful<L, F>(runs: seq<Run<L, F>>, order: Order, phases: seq<Phase<L>>)
    requires |phases| == |runs|
  {
    order.After? ==>
      && order.run < |runs| && !In(order.earlier, order.run) && Admitted(phases[order.run])
      && Progress(phases[order.run]) <= |runs[order.run].steps|
      && Lawful(runs, order.earlier, phases)
  }

  /** The files after the runs of `order`, oldest first and one after the other, each up to its own progress. */
  function Serial<L, F>(runs: seq<Run<L, F>>, order: Order, phases: seq<Phase<L>>, start: map<TargetKey, F>): map<TargetKey, F>
    requires |phases| == |runs| && Lawful(runs, order, phases)
  {
    match order
    case Nobody => start
    case After(earlier, i) => Alone(runs[i], Progress(phases[i]), Serial(runs, earlier, phases, start)).1
  }

  /** In that serial execution every run ends up remembering what it does here, reports included. */
  ghost predicate SameReports<L, F>(runs: seq<Run<L, F>>, order: Order, phases: seq<Phase<L>>, start: map<TargetKey, F>)
    requires |phases| == |runs| && Lawful(runs, order, phases)
  {
    order.After? ==>
      && Alone(runs[order.run], Progress(phases[order.run]), Serial(runs, order.earlier, phases, start)).0
         == Some(phases[order.run].local)
      && SameReports(runs, order.earlier, phases, start)
  }

  /** The files and all reports are those of running the admitted runs one after the other in this order. */
  ghost predicate EquivalentTo<L, F>(runs: seq<Run<L, F>>, s: System<L, F>, start: map<TargetKey, F>, order: Order) {
    && |s.phases| == |runs| && Lawful(runs, order, s.phases)
    && (forall i: nat | i < |runs| :: In(order, i) <==> Admitted(s.phases[i]))
    && s.files == Serial(runs, order, s.phases, start) && SameReports(runs, order, s.phases, start)
  }

  ghost predicate Serialisable<L, F>(runs: seq<Run<L, F>>, s: System<L, F>, start: map<TargetKey, F>) {
    exists order :: EquivalentTo(runs, s, start, order)
  }

  // ---- Mutual exclusion ----

  /** Some run of the order is inside the protected section of this target. */
  predicate Held<L, F>(runs: seq<Run<L, F>>, order: Order, phases: seq<Phase<L>>, key: TargetKey)
    requires |phases| == |runs|
  {
    order.After? && (
      || (order.run < |runs| && runs[order.run].key == key && phases[order.run].Inside?)
      || Held(runs, order.earlier, phases, key))
  }

  /** Each run entered only when its target was free. */
  predicate Ordered<L, F>(runs: seq<Run<L, F>>, order: Order, phases: seq<Phase<L>>)
    requires |phases| == |runs|
  {
    order.After? ==>
      && order.run < |runs| && !Held(runs, order.earlier, phases, runs[order.run].key)
      && Ordered(runs, order.earlier, phases)
  }

  /** Each run inside holds its own lock, each lock is held by a run inside, and the order lists exactly
      the admitted runs. */
  ghost predicate LocksMatch<L, F>(runs: seq<Run<L, F>>, s: System<L, F>)
    requires |s.phases| == |runs|
  {
    && (forall i | 0 <= i < |runs| && s.phases[i].Inside? ::
          LockName(runs[i].key) in s.locks && s.locks[LockName(runs[i].key)] == i)
    && (forall name | name in s.locks ::
          && s.locks[name] < |runs| && s.phases[s.locks[name]].Inside?
          && LockName(runs[s.locks[name]].key) == name)
    && (forall i: nat | i < |runs| :: In(s.order, i) <==> Admitted(s.phases[i]))
  }

  ghost predicate Disciplined<L, F>(runs: seq<Run<L, F>>, s: System<L, F>) {
    && |s.phases| == |runs| && LocksMatch(runs, s)
    && Lawful(runs, s.order, s.phases) && Ordered(runs, s.order, s.phases)
  }

  /** A phase change of a run that stays admitted keeps the order lawful. */
  lemma {:induction false} LawfulFrame<L, F>(
    runs: seq<Run<L, F>>, order: Order, phases: seq<Phase<L>>, i: nat, phase: Phase<L>)
    requires |phases| == |runs| && i < |runs| && Lawful(runs, order, phases)
    requires In(order, i) ==> Admitted(phase) && Progress(phase) <= |runs[i].steps|
    ensures Lawful(runs, order, phases[i := phase])
  {
    if order == Nobody {
    } else {
      LawfulFrame(runs, order.earlier, phases, i, phase);
    }
  }

  /** A phase change that does not put a run of the order inside keeps every entry blameless. */
  lemma {:induction false} OrderFrame<L, F>(
    runs: seq<Run<L, F>>, order: Order, phases: seq<Phase<L>>, i: nat, phase: Phase<L>)
    requires |phases| == |runs| && i < |runs| && Ordered(runs, order, phases)
    requires In(order, i) ==> (phase.Inside? ==> phases[i].Inside?)
    ensures Ordered(runs, order, phases[i := phase])
  {
    if order == Nobody {
    } else {
      HeldFrame(runs, order.earlier, phases, i, phase, runs[order.run].key);
      OrderFrame(runs, order.earlier, phases, i, phase);
    }
  }

  lemma {:induction false} HeldFrame<L, F>(
    runs: seq<Run<L, F>>, order: Order, phases: seq<Phase<L>>, i: nat, phase: Phase<L>, key: TargetKey)
    requires |phases| == |runs| && i < |runs|
    requires In(order, i) ==> (phase.Inside? ==> phases[i].Inside?)
    requires !Held(runs, order, phases, key)
    ensures !Held(runs, order, phases[i := phase], key)
  {
    if order == Nobody {
    } else {
      HeldFrame(runs, order.earlier, phases, i, phase, key);
    }
  }

  lemma {:induction false} InsideIsHeld<L, F>(runs: seq<Run<L, F>>, order: Order, phases: seq<Phase<L>>, i: nat)
    requires |phases| == |runs| && i < |runs| && In(order, i) && phases[i].Inside?
    ensures Held(runs, order, phases, runs[i].key)
  {
    if order.run == i {
    } else {
      InsideIsHeld(runs, order.earlier, phases, i);
    }
  }

  lemma {:induction false} ProgressBounded<L, F>(runs: seq<Run<L, F>>, order: Order, phases: seq<Phase<L>>, i: nat)
    requires |phases| == |runs| && i < |runs| && In(order, i) && Lawful(runs, order, phases)
    ensures Progress(phases[i]) <= |runs[i].steps|
  {
    if order.run == i {
    } else {
      ProgressBounded(runs, order.earlier, phases, i);
    }
  }

  lemma {:induction false} HeldHasHolder<L, F>(
    runs: seq<Run<L, F>>, order: Order, phases: seq<Phase<L>>, key: TargetKey) returns (i: nat)
    requires |phases| == |runs| && Held(runs, order, phases, key)
    ensures i < |runs| && runs[i].key == key && phases[i].Inside?
  {
    if order.run < |runs| && runs[order.run].key == key && phases[order.run].Inside? {
      i := order.run;
    } else {
      i := HeldHasHolder(runs, order.earlier, phases, key);
    }
  }

  lemma FreeTargetIsNotHeld<L, F>(runs: seq<Run<L, F>>, s: System<L, F>, key: TargetKey)
    requires Disciplined(runs, s) && LockName(key) !in s.locks
    ensures !Held(runs, s.order, s.phases, key)
  {
    if Held(runs, s.order, s.phases, key) {
      var j := HeldHasHolder(runs, s.order, s.phases, key);
    }
  }

  /** The step of a run that looks at its source, or is turned away. */
  lemma StandKeepsDiscipline<L, F>(runs: seq<Run<L, F>>, s: System<L, F>, t: System<L, F>, i: nat)
    requires Disciplined(runs, s) && i < |runs| && Step(runs, s, t, i)
    requires (s.phases[i].Waiting? || s.phases[i].Checked?) && !t.phases[i].Inside?
    ensures Disciplined(runs, t) && t.order == s.order
  {
    LawfulFrame(runs, s.order, s.phases, i, t.phases[i]);
    OrderFrame(runs, s.order, s.phases, i, t.phases[i]);
  }

  /** The step of a run that gets its lock. */
  lemma LockKeepsDiscipline<L, F>(runs: seq<Run<L, F>>, s: System<L, F>, t: System<L, F>, i: nat)
    requires Disciplined(runs, s) && i < |runs| && Step(runs, s, t, i)
    requires s.phases[i].Checked? && t.phases[i].Inside?
    ensures Disciplined(runs, t)
  {
    LawfulFrame(runs, s.order, s.phases, i, t.phases[i]);
    OrderFrame(runs, s.order, s.phases, i, t.phases[i]);
    FreeTargetIsNotHeld(runs, s, runs[i].key);
    HeldFrame(runs, s.order, s.phases, i, t.phases[i], runs[i].key);
    LockTaken(runs, s, t, i);
  }

  lemma LockTaken<L, F>(runs: seq<Run<L, F>>, s: System<L, F>, t: System<L, F>, i: nat)
    requires |s.phases| == |runs| && LocksMatch(runs, s) && i < |runs| && Step(runs, s, t, i)
    requires s.phases[i].Checked? && t.phases[i].Inside?
    ensures LocksMatch(runs, t)
  {
  }

  lemma ActKeepsDiscipline<L, F>(runs: seq<Run<L, F>>, s: System<L, F>, t: System<L, F>, i: nat)
    requires Disciplined(runs, s) && i < |runs| && Step(runs, s, t, i) && s.phases[i].Inside?
    ensures Disciplined(runs, t)
  {
    ProgressBounded(runs, s.order, s.phases, i);
    LawfulFrame(runs, s.order, s.phases, i, t.phases[i]);
    OrderFrame(runs, s.order, s.phases, i, t.phases[i]);
  }

  /** The locking discipline holds in every reachable state, whatever the runs read and write. */
  lemma {:induction false} Reachable<L, F>(runs: seq<Run<L, F>>, trace: seq<System<L, F>>, k: nat)
    requires Execution(runs, trace) && k < |trace|
    ensures Disciplined(runs, trace[k])
  {
    if k == 0 {
    } else {
      Reachable(runs, trace, k - 1);
      var s, t := trace[k - 1], trace[k];
      assert Next(runs, s, t);
      var i: nat :| i < |runs| && Step(runs, s, t, i);
      if s.phases[i].Inside? {
        ActKeepsDiscipline(runs, s, t, i);
      } else if t.phases[i].Inside? {
        LockKeepsDiscipline(runs, s, t, i);
      } else {
        StandKeepsDiscipline(runs, s, t, i);
      }
    }
  }

  /** At most one run at a time is inside the protected section of a target. */
  lemma MutualExclusion<L, F>(runs: seq<Run<L, F>>, trace: seq<System<L, F>>, k: nat, i: nat, j: nat)
    requires Execution(runs, trace) && k < |trace| && i < |runs| && j < |runs|
    requires |trace[k].phases| == |runs|
    requires trace[k].phases[i].Inside? && trace[k].phases[j].Inside? && runs[i].key == runs[j].key
    ensures i == j
  {
    Reachable(runs, trace, k);
  }

  /** A run that asks for its lock is refused only while another run is inside the protected section
      of the same target. */
  lemma RefusedByItsOwnTarget<L, F>(runs: seq<Run<L, F>>, trace: seq<System<L, F>>, k: nat, i: nat)
    requires Execution(runs, trace) && k < |trace| && i < |runs| && |trace[k].phases| == |runs|
    requires trace[k].phases[i].Checked? && LockName(runs[i].key) in trace[k].locks
    ensures exists j: nat | j < |runs| :: j != i && runs[j].key == runs[i].key && trace[k].phases[j].Inside?
  {
    Reachable(runs, trace, k);
    var j := trace[k].locks[LockName(runs[i].key)];
    LockNameInjective(runs[i].key, runs[j].key);
  }

  // ---- Serial equivalence of independent runs ----

  lemma {:induction false} ApplyOutside<L(!new), F(!new)>(run: Run<L, F>, n: nat, l: L, files: map<TargetKey, F>)
    requires Confined(run) && n <= |run.steps|
    ensures SameOutside(files, Apply(run, n, l, files).1, run.owns)
  {
    if n == 0 {
    } else {
      ApplyOutside(run, n - 1, l, files);
      var before := Apply(run, n - 1, l, files);
      assert ConfinedStep(run.steps[n - 1], run.consults, run.owns);
      assert SameOutside(before.1, run.steps[n - 1](before.0, before.1).1, run.owns);
    }
  }

  /** Files that agree on what a run may see lead it to the same memory and the same own files. */
  lemma {:induction false} ApplyAgrees<L(!new), F(!new)>(
    run: Run<L, F>, n: nat, l: L, f: map<TargetKey, F>, g: map<TargetKey, F>)
    requires Confined(run) && n <= |run.steps| && Agree(f, g, run.consults + run.owns)
    ensures Apply(run, n, l, f).0 == Apply(run, n, l, g).0
    ensures Agree(Apply(run, n, l, f).1, Apply(run, n, l, g).1, run.consults + run.owns)
  {
    if n == 0 {
    } else {
      ApplyAgrees(run, n - 1, l, f, g);
      var a, b := Apply(run, n - 1, l, f), Apply(run, n - 1, l, g);
      var step := run.steps[n - 1];
      assert ConfinedStep(step, run.consults, run.owns);
      StepAgrees(step, run.consults, run.owns, a.0, a.1, b.1);
    }
  }

  lemma StepAgrees<L(!new), F(!new)>(
    step: Action<L, F>, consults: set<TargetKey>, owns: set<TargetKey>,
    l: L, f: map<TargetKey, F>, g: map<TargetKey, F>)
    requires ConfinedStep(step, consults, owns) && Agree(f, g, consults + owns)
    ensures step(l, f).0 == step(l, g).0 && Agree(step(l, f).1, step(l, g).1, consults + owns)
  {
    assert SameOutside(f, step(l, f).1, owns) && SameOutside(g, step(l, g).1, owns);
    assert Agree(step(l, f).1, step(l, g).1, owns);
    forall n | n in consults + owns
      ensures (n in step(l, f).1 <==> n in step(l, g).1)
      ensures n in step(l, f).1 && n in step(l, g).1 ==> step(l, f).1[n] == step(l, g).1[n]
    {
      if n !in owns { assert (n in f <==> n in g) && (n in f && n in g ==> f[n] == g[n]); }
    }
  }

  /** A step of one run, taken before or after another run apart from it, comes to the same. */
  lemma StepCommutes<L(!new), F(!new)>(
    step: Action<L, F>, consults: set<TargetKey>, owns: set<TargetKey>, l: L,
    other: Run<L, F>, n: nat, files: map<TargetKey, F>)
    requires ConfinedStep(step, consults, owns) && Confined(other) && n <= |other.steps|
    requires consults !! other.owns && owns !! other.owns && owns !! other.consults
    ensures var after := Alone(other, n, files).1;
      && step(l, after).0 == step(l, files).0
      && Alone(other, n, step(l, files).1) == (Alone(other, n, files).0, step(l, after).1)
  {
    var moved := step(l, files).1;
    assert SameOutside(files, moved, owns);
    OutsideAgrees(files, moved, owns, other.consults);
    OutsideAgrees(files, moved, owns, other.consults + other.owns);
    assert other.check(files) == other.check(moved);
    if other.check(files).Some? {
      var m := other.check(files).value;
      ApplyOutside(other, n, m, files);
      ApplyOutside(other, n, m, moved);
      ApplyAgrees(other, n, m, files, moved);
      var after, both := Apply(other, n, m, files).1, Apply(other, n, m, moved).1;
      OutsideAgrees(files, after, other.owns, consults + owns);
      assert Agree(moved, step(l, after).1, owns);
      assert SameOutside(after, step(l, after).1, owns);
      SquareCloses(files, moved, after, both, step(l, after).1, owns, other.owns);
    }
  }

  lemma OutsideAgrees<F>(f: map<TargetKey, F>, g: map<TargetKey, F>, changed: set<TargetKey>, names: set<TargetKey>)
    requires SameOutside(f, g, changed) && changed !! names
    ensures Agree(f, g, names)
  {
  }

  /** Two changes on disjoint names, made in either order. */
  lemma SquareCloses<F>(files: map<TargetKey, F>, one: map<TargetKey, F>, two: map<TargetKey, F>,
      oneTwo: map<TargetKey, F>, twoOne: map<TargetKey, F>, a: set<TargetKey>, b: set<TargetKey>)
    requires a !! b && SameOutside(files, one, a) && SameOutside(files, two, b)
    requires SameOutside(one, oneTwo, b) && SameOutside(two, twoOne, a)
    requires Agree(two, oneTwo, b) && Agree(one, twoOne, a)
    ensures oneTwo == twoOne
  {
    forall n
      ensures (n in oneTwo <==> n in twoOne) && (n in oneTwo && n in twoOne ==> oneTwo[n] == twoOne[n])
    {
      if n in a {
        assert n !in b;
      } else if n in b {
      } else {
      }
    }
  }

  /** Only the progress of the runs of the order matters to the files, and their memory to the reports. */
  lemma {:induction false} SerialFrame<L, F>(
    runs: seq<Run<L, F>>, order: Order, phases: seq<Phase<L>>, i: nat, phase: Phase<L>, start: map<TargetKey, F>)
    requires |phases| == |runs| && i < |runs| && Lawful(runs, order, phases)
    requires In(order, i) ==>
      && Admitted(phase) && Admitted(phases[i])
      && Progress(phase) == Progress(phases[i]) && phase.local == phases[i].local
    ensures Lawful(runs, order, phases[i := phase])
    ensures Serial(runs, order, phases[i := phase], start) == Serial(runs, order, phases, start)
    ensures SameReports(runs, order, phases, start) ==> SameReports(runs, order, phases[i := phase], start)
  {
    if order == Nobody {
    } else {
      if order.run == i { ProgressBounded(runs, order, phases, i); }
      SerialFrame(runs, order.earlier, phases, i, phase, start);
    }
  }

  /** The next step of run `i` would remember and leave the same after the serial execution of any part
      of the order that contains the run. */
  ghost predicate Advances<L, F>(
    runs: seq<Run<L, F>>, order: Order, phases: seq<Phase<L>>, i: nat, l: L, next: L, start: map<TargetKey, F>)
    requires |phases| == |runs| && i < |runs| && phases[i].Inside? && phases[i].done < |runs[i].steps|
    requires Lawful(runs, order, phases)
  {
    var step, k := runs[i].steps[phases[i].done], phases[i].done;
    var moved := phases[i := Inside(k + 1, next)];
    && step(l, Serial(runs, order, phases, start)).0 == next
    && Lawful(runs, order, moved)
    && Serial(runs, order, moved, start) == step(l, Serial(runs, order, phases, start)).1
    && SameReports(runs, order, moved, start)
  }

  lemma LastAdvances<L, F>(runs: seq<Run<L, F>>, order: Order, phases: seq<Phase<L>>, i: nat, next: L, start: map<TargetKey, F>)
    requires |phases| == |runs| && i < |runs| && order.After? && order.run == i
    requires phases[i].Inside? && phases[i].done < |runs[i].steps|
    requires Lawful(runs, order, phases) && SameReports(runs, order, phases, start)
    requires next == runs[i].steps[phases[i].done](phases[i].local, Serial(runs, order, phases, start)).0
    ensures Advances(runs, order, phases, i, phases[i].local, next, start)
  {
    var k := phases[i].done;
    SerialFrame(runs, order.earlier, phases, i, Inside(k + 1, next), start);
  }

  lemma {:induction false} SerialAdvances<L(!new), F(!new)>(
    runs: seq<Run<L, F>>, order: Order, phases: seq<Phase<L>>, i: nat, next: L, start: map<TargetKey, F>)
    requires |phases| == |runs| && i < |runs| && In(order, i)
    requires phases[i].Inside? && phases[i].done < |runs[i].steps|
    requires Lawful(runs, order, phases) && Ordered(runs, order, phases) && SameReports(runs, order, phases, start)
    requires AllConfined(runs) && Independent(runs, order)
    requires next == runs[i].steps[phases[i].done](phases[i].local, Serial(runs, order, phases, start)).0
    ensures Advances(runs, order, phases, i, phases[i].local, next, start)
  {
    if order.run == i {
      LastAdvances(runs, order, phases, i, next, start);
    } else {
      var j, before := order.run, Serial(runs, order.earlier, phases, start);
      var step := runs[i].steps[phases[i].done];
      InsideIsHeld(runs, order.earlier, phases, i);
      assert Confined(runs[i]) && Confined(runs[j]) && Apart(runs[i], runs[j]) && runs[i].key != runs[j].key;
      assert ConfinedStep(step, runs[i].consults, runs[i].owns);
      StepCommutes(step, runs[i].consults, runs[i].owns, phases[i].local, runs[j], Progress(phases[j]), before);
      assert Independent(runs, order.earlier);
      SerialAdvances(runs, order.earlier, phases, i, next, start);
    }
  }

  /** What holds in every reachable state of runs that are independent of each other. */
  ghost predicate Invariant<L, F>(runs: seq<Run<L, F>>, last: Order, start: map<TargetKey, F>, s: System<L, F>) {
    && Disciplined(runs, s)
    && s.files == Serial(runs, s.order, s.phases, start) && SameReports(runs, s.order, s.phases, start)
    && (forall i: nat | i < |runs| && In(last, i) && s.phases[i].Checked? ::
          runs[i].check(s.files) == Some(s.phases[i].local))
  }

  lemma StandKeepsInvariant<L(!new), F(!new)>(
    runs: seq<Run<L, F>>, last: Order, start: map<TargetKey, F>, s: System<L, F>, t: System<L, F>, i: nat)
    requires Invariant(runs, last, start, s) && i < |runs| && Step(runs, s, t, i)
    requires (s.phases[i].Waiting? || s.phases[i].Checked?) && !t.phases[i].Inside?
    ensures Invariant(runs, last, start, t)
  {
    StandKeepsDiscipline(runs, s, t, i);
    SerialFrame(runs, s.order, s.phases, i, t.phases[i], start);
  }

  lemma LockKeepsInvariant<L(!new), F(!new)>(
    runs: seq<Run<L, F>>, last: Order, start: map<TargetKey, F>, s: System<L, F>, t: System<L, F>, i: nat)
    requires Invariant(runs, last, start, s) && i < |runs| && Step(runs, s, t, i) && In(last, i)
    requires s.phases[i].Checked? && t.phases[i].Inside?
    ensures Invariant(runs, last, start, t)
  {
    LockKeepsDiscipline(runs, s, t, i);
    SerialFrame(runs, s.order, s.phases, i, t.phases[i], start);
  }

  lemma LeaveKeepsInvariant<L(!new), F(!new)>(
    runs: seq<Run<L, F>>, last: Order, start: map<TargetKey, F>, s: System<L, F>, t: System<L, F>, i: nat)
    requires Invariant(runs, last, start, s) && i < |runs| && Step(runs, s, t, i)
    requires s.phases[i].Inside? && t.phases[i].Finished?
    ensures Invariant(runs, last, start, t)
  {
    ActKeepsDiscipline(runs, s, t, i);
    SerialFrame(runs, s.order, s.phases, i, t.phases[i], start);
  }

  lemma CheckStays<L(!new), F(!new)>(c: Run<L, F>, run: Run<L, F>, k: nat, l: L, files: map<TargetKey, F>)
    requires Confined(c) && Confined(run) && k < |run.steps| && c.consults !! run.owns
    ensures c.check(run.steps[k](l, files).1) == c.check(files)
  {
    assert ConfinedStep(run.steps[k], run.consults, run.owns);
    assert SameOutside(files, run.steps[k](l, files).1, run.owns);
    OutsideAgrees(files, run.steps[k](l, files).1, run.owns, c.consults);
  }

  lemma WorkStaysSerial<L(!new), F(!new)>(
    runs: seq<Run<L, F>>, start: map<TargetKey, F>, s: System<L, F>, t: System<L, F>, i: nat)
    requires |s.phases| == |runs| && i < |runs| && In(s.order, i) && s.phases[i].Inside?
    requires Lawful(runs, s.order, s.phases) && Ordered(runs, s.order, s.phases)
    requires s.files == Serial(runs, s.order, s.phases, start) && SameReports(runs, s.order, s.phases, start)
    requires s.phases[i].done < |runs[i].steps| && Works(runs[i], s.phases[i].done, s.phases[i].local, s, t, i)
    requires AllConfined(runs) && Independent(runs, s.order)
    ensures Lawful(runs, t.order, t.phases) && t.files == Serial(runs, t.order, t.phases, start)
    ensures SameReports(runs, t.order, t.phases, start)
  {
    SerialAdvances(runs, s.order, s.phases, i, t.phases[i].local, start);
  }

  lemma WorkKeepsChecks<L(!new), F(!new)>(
    runs: seq<Run<L, F>>, last: Order, start: map<TargetKey, F>, s: System<L, F>, t: System<L, F>, i: nat, c: nat)
    requires Invariant(runs, last, start, s) && i < |runs| && s.phases[i].Inside? && In(last, i)
    requires s.phases[i].done < |runs[i].steps| && Works(runs[i], s.phases[i].done, s.phases[i].local, s, t, i)
    requires AllConfined(runs) && Independent(runs, last)
    requires c < |runs| && In(last, c) && t.phases[c].Checked?
    ensures runs[c].check(t.files) == Some(t.phases[c].local)
  {
    assert Confined(runs[c]) && Confined(runs[i]) && Apart(runs[c], runs[i]);
    CheckStays(runs[c], runs[i], s.phases[i].done, s.phases[i].local, s.files);
  }

  lemma WorkKeepsInvariant<L(!new), F(!new)>(
    runs: seq<Run<L, F>>, last: Order, start: map<TargetKey, F>, s: System<L, F>, t: System<L, F>, i: nat)
    requires Invariant(runs, last, start, s) && i < |runs| && Step(runs, s, t, i)
    requires s.phases[i].Inside? && t.phases[i].Inside?
    requires AllConfined(runs) && Independent(runs, last) && Within(t.order, last)
    ensures Invariant(runs, last, start, t)
  {
    ActKeepsDiscipline(runs, s, t, i);
    assert Works(runs[i], s.phases[i].done, s.phases[i].local, s, t, i);
    assert In(s.order, i) && Independent(runs, s.order);
    WorkStaysSerial(runs, start, s, t, i);
    forall c: nat | c < |runs| && In(last, c) && t.phases[c].Checked?
      ensures runs[c].check(t.files) == Some(t.phases[c].local)
    {
      WorkKeepsChecks(runs, last, start, s, t, i, c);
    }
  }

  lemma StepKeepsInvariant<L(!new), F(!new)>(
    runs: seq<Run<L, F>>, last: Order, start: map<TargetKey, F>, s: System<L, F>, t: System<L, F>, i: nat)
    requires Invariant(runs, last, start, s) && i < |runs| && Step(runs, s, t, i)
    requires AllConfined(runs) && Independent(runs, last) && Within(t.order, last)
    ensures Invariant(runs, last, start, t)
  {
    if t.phases[i].Inside? {
      if s.phases[i].Inside? {
        WorkKeepsInvariant(runs, last, start, s, t, i);
      } else {
        assert In(t.order, i);
        LockKeepsInvariant(runs, last, start, s, t, i);
      }
    } else if s.phases[i].Inside? {
      LeaveKeepsInvariant(runs, last, start, s, t, i);
    } else {
      StandKeepsInvariant(runs, last, start, s, t, i);
    }
  }

  lemma {:induction false} OrderGrows<L, F>(runs: seq<Run<L, F>>, trace: seq<System<L, F>>, j: nat, k: nat, i: nat)
    requires Execution(runs, trace) && j <= k < |trace| && In(trace[j].order, i)
    ensures In(trace[k].order, i)
  {
    if j == k {
    } else {
      OrderGrows(runs, trace, j, k - 1, i);
      assert Next(runs, trace[k - 1], trace[k]);
    }
  }

  lemma {:induction false} IndependentReachable<L(!new), F(!new)>(
    runs: seq<Run<L, F>>, trace: seq<System<L, F>>, j: nat, k: nat)
    requires Execution(runs, trace) && j <= k < |trace|
    requires AllConfined(runs) && Independent(runs, trace[k].order)
    ensures Invariant(runs, trace[k].order, trace[0].files, trace[j])
  {
    if j == 0 {
    } else {
      IndependentReachable(runs, trace, j - 1, k);
      var s, t := trace[j - 1], trace[j];
      assert Next(runs, s, t);
      var i: nat :| i < |runs| && Step(runs, s, t, i);
      forall m | In(t.order, m) ensures In(trace[k].order, m) { OrderGrows(runs, trace, j, k, m); }
      StepKeepsInvariant(runs, trace[k].order, trace[0].files, s, t, i);
    }
  }

  /** If no admitted run consults a name that another admitted run writes, then in every state of every
      interleaving the files and all reports are those of running the admitted runs one after the
      other in the order in which they got their locks. */
  lemma SerialEquivalence<L(!new), F(!new)>(runs: seq<Run<L, F>>, trace: seq<System<L, F>>, k: nat)
    requires Execution(runs, trace) && k < |trace|
    requires AllConfined(runs) && Independent(runs, trace[k].order)
    ensures EquivalentTo(runs, trace[k], trace[0].files, trace[k].order)
  {
    IndependentReachable(runs, trace, k, k);
  }
}
