# Verification of skills-sdk

This project models the parts of skills-sdk whose correctness is hardest to see from the code, and
proves properties of them that hold for every input, every run or every reachable state. `dafny verify
dfyconfig.toml` checks everything.

## What is modelled

- **Entrypoint repair** (`Host`, `Entrypoint`, `Locks`, `RepairRuns`). A filesystem maps names in directories to
  inodes and inodes to bytes and a mode. Every system call is a step: before it a competitor may move,
  and it may fail before acting, act, or act and be interrupted. The competitor may rebind, create or
  unlink every name but the operation's three private ones (it cannot guess their random part) and
  rewrite every inode that is not known by private names alone. Each observable state is recorded, so a
  statement about all recorded states is a statement about every crash point. What each capture found, or
  that a name showed no readable file, is recorded with its phase, so that a blocker code can be justified.
  A flag says whether any call has failed on its own account so far (a refusal by a check outside this
  model counts as one), so that a report is also promised, not only explained. `Locks`
  interleaves any number of cooperating runs over one shared map from names to files: a run checks its
  source before it asks for its lock, then takes arbitrary atomic steps, reads the names it consults,
  and may stop early. `RepairRuns` is the program of one repair in that setting.
- **Review worker protocol** (`Review`). Packets are lines on a byte stream. JSON coding is a pair of
  arbitrary functions; where worker and reader meet, it restores the few packets of that run, each on one
  line within the limit, and such a pair is shown to exist for every run. A number may be finite, not
  finite, or an integer that no float holds.
- **JSON scanner** (`Scanner`). A source is a JSON value with its whitespace, escapes and number tokens
  (RFC 8259, sections 2 and 7); rendering and measures are recursive functions over it. Any other text is
  cut into brackets, strings, runs of other characters and gaps, with at most one unclosed string.
- **Matched execution and calibration** (`Matched`, `Calibration`). Provider calls and judges are
  oracles that may fail; a provider call invokes its adapter at most once, and exactly once when text
  comes back, because there is no automatic retry. A log records every invocation, every answer, what the
  plugin guards found, and whether anything else went wrong, so that completion has an exact condition.
- **Runtime lock and planner** (`RuntimeLock`, `Planner`). Digests are tokens that determine what was
  digested; the byte encoding under the candidate digest is modelled. The 24-digit prefix in a plan id
  is taken to be as good as the whole digest. A JSON object is a map, because canonical JSON sorts its
  keys. Receipts satisfy what their models have checked when the planner reads them.
- **Plugin candidate** (`Paths`, `PluginTree`, `PluginCapacity`). Paths are lists of names; joined
  paths compare as Python strings do. The parent directory is written by this run alone, as the code
  requires of its caller.
- **Graph normalisers** (`Graph`). A heap maps ids to containers that may be shared or cyclic. A result
  is a finite tree; `Unfolds` follows the order of the work, and `Denotes` and `Mirrors` say of the
  containers themselves which tree a value stands for.
- **Scoring** (`Scoring`, `SelectedCase`, `Text`). Scores are rational numbers. Blocker codes with their
  constant messages form an enumeration; case folding and SHA-256 are opaque functions.
- **Local check and schemas** (`LocalCheck`, `JsonSchema`, `LocalCheckSchema`, `EvaluationSchema`,
  `InstallPlanSchema`). `JsonSchema` evaluates the keywords the generated constraints use, as JSON
  Schema Draft 2020-12 (Core, sections 10.2 and 10.3; Validation, section 6) defines them. Strings that
  schemas compare with are words of their own. A local-check receipt is told by its schema version, and
  nested classes of the other documents satisfy their own definitions.

## Where the code promises less

- Repairs of different targets are not always serialisable. A repair checks its source again inside its
  own lock, but the source may be the target of another repair, under another lock. Then there is an
  interleaving (`RepairRuns.DisturbedTrace`, with the concrete pair of `RepairRuns.ChainDisturbs`) in
  which the first run ends `blocked` with a retained backup, which no serial order yields. For two repairs
  `RepairRuns.SerialisableIffUndisturbed` gives the exact condition; `Locks.SerialEquivalence` holds for any
  number of runs none of which consults a name that another one writes.
- The reader of the review worker does not always return an observation: an integer time beyond the
  range of a float raises `OverflowError`, which it does not catch. `Review.RaisesExactly` says which
  streams do that.
- Equal candidate digests do not force equal file lists: the path rule admits NUL. A list shares its
  encoding with another one exactly when it has two files or more, or when its only path has a digest
  between NULs (`RuntimeLock.CollidesIff`, and `RuntimeLock.ValidCollidesIff` for valid partners). Among
  lists without NUL the encoding is injective (`RuntimeLock.EncodeInjective`).
- Plans on distinct keys commute as lists exactly when one of the two keys is already in the lock
  (`RuntimeLock.PlansCommute`); otherwise the two new entries are appended in the order of planning.
- Not every result that the local-check model accepts is the outcome of a run: the model fixes only the
  code of a context blocker, the pipeline also its text. `LocalCheck.AcceptedIsEmittedIff` gives the
  exact condition and `LocalCheck.OtherContextTextIsNeverEmitted` the counterexamples.

## Model

| member | source | states |
|---|---|---|
| Host.FileSystem.Interfere | src/skills_sdk/host/entrypoint.py:260-398 | between any two steps a competitor may rebind, create or unlink any name that is not private and rewrite any inode not known only by private names; the history stays free of data loss; in a quiescent run the target and one more name stand |
| Host.FileSystem.Capture | src/skills_sdk/host/entrypoint.py:49-67 | a capture that succeeds is exactly the regular file the name showed at one moment of the history, and one that fails without a failing call met a name that showed no readable file at such a moment; it changes nothing |
| Host.FileSystem.Drop | src/skills_sdk/host/entrypoint.py:179-196 | a name may go only when its inode was made by this operation or already has its recovery link |
| Host.FileSystem.Swap | src/skills_sdk/host/entrypoint.py:222-234 | the exchange displaces the target's old inode, which keeps a name |
| Host.FileSystem.Bind | src/skills_sdk/host/entrypoint.py:260-398 | the recovery name is the displaced inode |
| Host.FileSystem.Promise | src/skills_sdk/host/entrypoint.py:260-398 | from the snapshot on, the backup name is bound to the file that was captured |
| Host.SafeExtends | src/skills_sdk/host/entrypoint.py:260-398 | one more observable state that meets the obligations keeps the whole history safe, and no obligation is ever dropped |
| Entrypoint.PrivateNamesAreDistinct | src/skills_sdk/host/entrypoint.py:275-281 | the stage, backup and recovery names never coincide with each other or with the target when the backup root is another directory |
| Entrypoint.RemoveOwned | src/skills_sdk/host/entrypoint.py:179-188 | when it reports success the name is gone; it never unlinks an inode the operation did not make, and leaves a displaced inode's name alone |
| Entrypoint.RemoveCaptured | src/skills_sdk/host/entrypoint.py:191-196 | unlinks the stage name only while the displaced inode is also under the recovery name |
| Entrypoint.WriteStage | src/skills_sdk/host/entrypoint.py:160-176 | on success a new private file holds the bytes and the masked mode; on a handled failure it is removed again |
| Entrypoint.Exchange | src/skills_sdk/host/entrypoint.py:222-234 | an `OSError` means nothing was exchanged, and without a failing call that there was no target; success means the stage name shows the displaced inode |
| Entrypoint.LinkRecovery | src/skills_sdk/host/entrypoint.py:260-398 | a link that succeeds binds the recovery name to the displaced inode and leaves the stage name |
| Entrypoint.Source | src/skills_sdk/host/entrypoint.py:109-134 | the source is accepted only with the approved digest, and never executable for a supporting document; without a failing call it is refused only when it was unreadable or not the approved file |
| Entrypoint.TakeSnapshot | src/skills_sdk/host/entrypoint.py:260-398 | if the snapshot step returns, the backup holds the captured bytes and mode, also when the directory sync failed |
| Entrypoint.VerifyUnchanged | src/skills_sdk/host/entrypoint.py:295-306 | publication is reached only if snapshot, target and source were seen again unchanged, and it is reached when they are and no call fails |
| Entrypoint.VerifyPublished | src/skills_sdk/host/entrypoint.py:205-219 | an intact result rests on captures that match the displaced file, the published bytes and the snapshot, and is given when they do and no call fails; otherwise another file was seen, or a name was unreadable or overwritten |
| Entrypoint.Preserve | src/skills_sdk/host/entrypoint.py:260-398 | the displaced inode keeps a name through linking, verifying and unlinking, whatever fails |
| Entrypoint.Settle | src/skills_sdk/host/entrypoint.py:260-398 | after the exchange it raises only when a call fails with an exception that the code does not handle; every return is `repaired` with complete evidence, or `indeterminate` naming a file that exists, with `concurrent_runtime_replacement` only after another file than the captured one was seen under the stage or recovery name, and `publication_verification_failed` only after a failing call, an unreadable name, an overwritten target or an impossible link |
| Entrypoint.Attempt | src/skills_sdk/host/entrypoint.py:260-398 | a blocked report means nothing was exchanged and its code says what stopped it; any other report keeps the stage for recovery; without a failing call there is always a report |
| Entrypoint.Publish | src/skills_sdk/host/entrypoint.py:260-398 | in every run, with any system call failing and the competitor moving between steps: no displaced bytes lose their last name, the snapshot stays, only safe names are removed, every name in a report exists, the report satisfies its validator and its code is justified by what was seen; an exception that the code does not handle is never turned into a report; without a failing call it raises only before writing, for a target it refuses, and after an exchange it reports `repaired` or `indeterminate`; with a quiescent target `repaired` means source bytes with the old mode masked and the recovery name showing the old file, and `matching` writes nothing; a due repair is made, and a satisfied target reported as matching, whenever no call fails on its own account |
| Entrypoint.Decide | src/skills_sdk/host/entrypoint.py:264-274 | the run goes on exactly to repair the expected old version: an approved target is `matching`, and without a failing call any other end is a refusal for an unreadable, executable or unexpected target or a backup root on another device |
| Entrypoint.Replace | src/skills_sdk/host/entrypoint.py:260-398 | the same guarantees through the clean-up of the `finally` block, including after an unexpected exit |
| Entrypoint.Check | src/skills_sdk/host/entrypoint.py:137-157 | the preview writes nothing and says `matching` exactly when the captured digest is the approved source digest; when source and target are as approved and no call fails it does return, `repairable` for the expected old version; otherwise source or target was unreadable or did not fit |
| Entrypoint.RepairAgain | src/skills_sdk/host/entrypoint.py:260-398 | on the state a repair left, a second operation with free names writes nothing, leaves target and recovery as they are, and reports `matching` unless a call fails on its own account |
| Entrypoint.RepairTwice | src/skills_sdk/host/entrypoint.py:401-439 | the first operation makes the repair that is due unless a call fails; after a `repaired` report the second takes place exactly when its names are free, and is as above |
| Locks.LockNameInjective | src/skills_sdk/host/entrypoint.py:70-75 | two targets share a lock file only if they are the same name in the same physical directory, however the path is spelled |
| Locks.Reachable | src/skills_sdk/host/entrypoint.py:401-439 | in every state of every interleaving, whatever the runs read and write, locks and runs inside correspond and each run entered only when its target was free |
| Locks.MutualExclusion | src/skills_sdk/host/entrypoint.py:401-439 | at most one run is inside the protected section of a target |
| Locks.RefusedByItsOwnTarget | src/skills_sdk/host/entrypoint.py:401-439 | a run is refused only while another run holds the same target |
| Locks.StepCommutes | src/skills_sdk/host/entrypoint.py:260-398 | a step of one run and another run as far as it came commute on the shared files, when neither reads nor writes what the other writes |
| Locks.SerialEquivalence | src/skills_sdk/host/entrypoint.py:401-439 | over one shared state of names and files: if no admitted run consults a name that another admitted run writes, then at every moment of every interleaving the files and all reports are those of running the admitted runs one after the other in lock order, also when runs stop early |
| RepairRuns.RunIsConfined | src/skills_sdk/host/entrypoint.py:260-398 | the steps of one repair read only its source, the sibling entrypoints and its own names, and write only its own names |
| RepairRuns.AloneRepairs | src/skills_sdk/host/entrypoint.py:260-398 | on its own a ready repair publishes the source bytes, and keeps the snapshot and the displaced file |
| RepairRuns.AloneReports | src/skills_sdk/host/entrypoint.py:260-398 | what one run on its own reports and leaves, from any files: it refuses a source that does not stand, matches, raises, is indeterminate or repairs, each under its exact condition |
| RepairRuns.ChainDisturbs | src/skills_sdk/host/entrypoint.py:109-134 | a concrete pair of repairs of which the second updates the file that the first installs elsewhere |
| RepairRuns.DisturbedTrace | src/skills_sdk/host/entrypoint.py:401-439 | every such pair has an interleaving in which the first run is blocked at its second source check with its backup retained while the other repairs |
| RepairRuns.NoSerialOrder | src/skills_sdk/host/entrypoint.py:401-439 | no serial order gives those reports |
| RepairRuns.SerialisableIffUndisturbed | src/skills_sdk/host/entrypoint.py:401-439 | all interleavings of two ready repairs of different targets are serialisable if and only if neither publishes a file that makes the other's source check fail |
| Review.ReadWorker | src/skills_sdk/evaluation/content_review.py:179-234 | for every split of the stream into chunks the loop returns or raises as the whole-stream reference does; an unfinished stream within the limit is a timeout at the deadline and an adapter failure when the peer closes or the socket breaks, and beyond the limit an output-limit failure, with the reviewer announced before |
| Review.ConsumeAppend | src/skills_sdk/evaluation/content_review.py:179-234 | the reference can be computed piece by piece: bytes that arrive later do not change what was decided |
| Review.BufferStaysSmall | src/skills_sdk/evaluation/content_review.py:179-234 | an undecided reader holds at most one unfinished line within the wire limit |
| Review.TruncationIsSafe | src/skills_sdk/evaluation/content_review.py:179-234 | a stream of any origin cut anywhere yields the full stream's report, or the timeout at the deadline and the adapter failure at any other end, without an assessment and with no other reviewer |
| Review.Channel.SendPacket | src/skills_sdk/evaluation/content_review.py:93-100 | what reaches the wire is one line within the limit; an oversized packet is replaced by a blocker that keeps its time |
| Review.WorkerReview | src/skills_sdk/evaluation/content_review.py:66-145 | for every codec, adapter and clock the bytes a worker sends are the frames of its script |
| Review.SomeCodecServes | src/skills_sdk/evaluation/content_review.py:66-145 | every adapter and clock has a codec that carries its packets, so the next rows are about real runs |
| Review.WorkerReaderAgree | src/skills_sdk/evaluation/content_review.py:66-234 | for every adapter, clock, chunking, ending and amount of the stream received: the reader reports the worker's own account when all of it came within the time bounds, a timeout without an assessment when it came outside them, and the timeout or failure of the ending when it was cut short; a reviewer is recorded exactly when the `invoked` frame arrived whole |
| Review.AssessmentProvenance | src/skills_sdk/evaluation/content_review.py:179-234 | an assessment comes back exactly for the streams whose first line is a timely `invoked` packet and whose second is a timely `returned` packet, and it is the one that packet carries |
| Review.RaisesExactly | src/skills_sdk/evaluation/content_review.py:179-234 | `OverflowError` escapes exactly when the first complete line holds an overflowing time where a new session reads one, or the second does after a line that started a session |
| Review.TransitionCases | src/skills_sdk/evaluation/content_review.py:201-229 | which packets let the reader go on, which yield an assessment and which make it raise, each if and only if |
| Review.StopCodes | src/skills_sdk/evaluation/content_review.py:201-229 | the code of every packet reported without an assessment: a late one is a timeout, a blocker in time speaks for itself, every other one is an adapter failure, each with its reviewer |
| Review.UnfinishedStream | src/skills_sdk/evaluation/content_review.py:188-194 | what a stream without a deciding line is reported as, for each way it ends |
| Review.OverlongLine | src/skills_sdk/evaluation/content_review.py:198-199 | a complete line beyond the limit is an output-limit failure whatever it holds |
| Review.WholeRun | src/skills_sdk/evaluation/content_review.py:66-145 | the report of a whole run in time for each thing the adapter can do: invalid metadata, oversized metadata, raising at the call or while awaited, an invalid, an oversized and a valid assessment |
| Scanner.ScanJsonStructure | src/skills_sdk/cli/plugin_quality.py:16-54 | the loop's verdict is that of its state machine folded over the text, and on any text, JSON or not, the answer on the pieces it consists of |
| Scanner.VerdictMeans | src/skills_sdk/cli/plugin_quality.py:16-54 | for any text cut into brackets, strings, runs and gaps: it is accepted exactly when every beginning keeps nesting between 0 and 64 and the node count within its limit and all strings and containers are closed; the first beginning that does not names the problem |
| Scanner.SomePieces | src/skills_sdk/cli/plugin_quality.py:16-54 | every text, also a truncated or malformed one, consists of such pieces |
| Scanner.ScannerRefinesMeasures | src/skills_sdk/cli/plugin_quality.py:16-54 | for every JSON value and every serialisation of it with any whitespace and escapes, the scan refuses for depth or node count exactly when the recursive measures exceed the limits |
| Scanner.ScanSource | src/skills_sdk/cli/plugin_quality.py:16-54 | scanning one rendered value adds exactly its nodes and reaches exactly its depth, from any state |
| Scanner.ScanUnits | src/skills_sdk/cli/plugin_quality.py:16-54 | characters inside a string, escaped or not, never change depth or count |
| Matched.RuntimeBudget.BeginProvider | src/skills_sdk/evaluation/matched_execution.py:57-68 | an admitted provider call counts once, and only below its limit and in time |
| Matched.RuntimeBudget.BeginJudge | src/skills_sdk/evaluation/matched_execution.py:57-68 | an admitted judge call counts once, and only below its limit and in time |
| Matched.RuntimeBudget.Finish | src/skills_sdk/evaluation/matched_execution.py:70-75 | a lane finishes only below the time limit |
| Matched.ProviderComplete | src/skills_sdk/evaluation/matched_execution.py:99-113 | one trial's provider calls its adapter at most once, and exactly once when text comes back; text comes back exactly when nothing went wrong |
| Matched.JudgeOnce | src/skills_sdk/evaluation/matched_execution.py:162-192 | a judge is called at most once per trial, after the budget and the guard admit it; the verdict is accepted exactly when nothing went wrong |
| Matched.ExecuteVariant | src/skills_sdk/evaluation/matched_execution.py:343-415 | a variant completes exactly when nothing went wrong, and then used exactly one provider and one judge call |
| Matched.RequireTrialAdapters | src/skills_sdk/evaluation/matched_admission.py:183-196 | accepts exactly the schedules with one fresh, unseen adapter for every role of every trial, and records all of them |
| Matched.Preflight | src/skills_sdk/evaluation/matched_admission.py:132-180 | admits exactly the lanes whose plan, calibrations and variants check out, whose budget covers every trial, and whose complete schedules hold pairwise distinct adapters |
| Matched.RequireCases | src/skills_sdk/evaluation/matched_admission.py:161-168 | the first case that does not pass decides: with its own problem, or as invalid when its schedules are incomplete or repeat an adapter |
| Matched.ExecuteTrial | src/skills_sdk/evaluation/matched_execution.py:343-415 | a finished trial makes its four calls in order; a stopped one made a prefix of them |
| Matched.ExecuteLane | src/skills_sdk/evaluation/matched_execution.py:321-415 | place `c * trials + t` of the receipt holds the pair of case `c` and trial `t`, judged by that trial's own baseline and candidate judge, and the host's calls hold its four adapters in order; a stopped lane keeps exactly the finished prefix with both counts within two of twice its pairs; the lane completes exactly when no gate was late, no plugin guard found a change and nothing else went wrong, and the code names the first of these that holds |
| Matched.Place | src/skills_sdk/evaluation/matched_execution.py:344-400 | what stands at every place of a prefix of the schedule that is followed by the beginning of the next trial |
| Matched.Stop | src/skills_sdk/evaluation/matched_execution.py:370-378 | the code of a stopped lane: lateness before a plugin finding, and a finding before anything else |
| Matched.EachAdapterOnce | src/skills_sdk/evaluation/matched_execution.py:321-415 | in a completed admitted lane every admitted adapter was invoked exactly once and no other adapter at all |
| Matched.LaneCount | src/skills_sdk/evaluation/matched_execution.py:321-415 | the calls of a lane contain an adapter as often as the admitted lists do |
| Calibration.DimensionalJudge.Judge | src/skills_sdk/evaluation/matched_calibration.py:56-84 | every verdict comes with the judgment it was computed from, kept by the wrapper with its own digest; a failed call keeps nothing |
| Calibration.CalibrationJudge.Judge | src/skills_sdk/evaluation/observed_calibration.py:114-136 | a result appears only when the delegate kept exactly one judgment, and it is that judgment's result for this probe and trial; without one something went wrong or the answer was not usable |
| Calibration.BuildWrappers | src/skills_sdk/evaluation/matched_calibration.py:98-115 | one fresh wrapper per declared probe and trial, in that order |
| Calibration.ExecuteScorerCalibration | src/skills_sdk/evaluation/observed_calibration.py:190-236 | results follow the declared order and stop at the first problem, each paired with its own wrapper's judgment; the run completes exactly when nothing went wrong and every answer was usable |
| Calibration.CollectedPrefix | src/skills_sdk/evaluation/matched_calibration.py:122-124 | flattening the wrappers and truncating yields the judgments of the finished slots |
| Calibration.ExecuteMatchedCalibration | src/skills_sdk/evaluation/matched_calibration.py:91-128 | place `p * trials + t` holds the result of probe `p` and trial `t` with the judgment it was computed from, also when the run stops midway, and both pass the receipt's recomputation; the run completes exactly when nothing went wrong and every answer was usable |
| Calibration.ScoreMeans | src/skills_sdk/models/matched_calibration.py:23-41 | a judgment is scored exactly when it answers every dimension from listed underlying references with enough confidence; the score lies between 0 and 1 and full marks score 1 |
| Calibration.ScoreOfAppend | src/skills_sdk/models/matched_calibration.py:35-41 | the score is linear: each dimension adds a fifth of its mark times its weight |
| Calibration.KeptIsBound | src/skills_sdk/evaluation/matched_calibration.py:66-83 | what is kept of a judgment has the same score and digest and names that digest exactly once |
| RuntimeLock.CandidateContent | src/skills_sdk/core/digests.py:26-35 | the loop digests the whole path-NUL-digest-NUL encoding |
| RuntimeLock.EncodeInjective | src/skills_sdk/core/digests.py:26-35 | equal candidate digests force equal file lists when no path holds NUL |
| RuntimeLock.NulPathsCollide | src/skills_sdk/core/digests.py:26-35 | with NUL in a path every two-file list shares its encoding with a one-file list |
| RuntimeLock.CollidesIff | src/skills_sdk/core/digests.py:26-35 | a list shares its encoding with another list, with digests of the same form, if and only if it has two files or more, or its only path has a digest between NULs |
| RuntimeLock.ValidCollidesIff | src/skills_sdk/core/digests.py:26-35 | the same for partners without repeated paths: the two parts of the splitting path must differ |
| RuntimeLock.ProposeShape | src/skills_sdk/lifecycle/planning.py:159-166 | the proposed list keeps every place, replaces the planned key, and appends only a new key |
| RuntimeLock.ProposeKeepsValid | src/skills_sdk/models/lifecycle.py:127-132 | a planned entry keeps the lock valid: keys stay unique |
| RuntimeLock.ProposeRefinesUpdate | src/skills_sdk/lifecycle/planning.py:159-166 | one planned install is one update of the finite map keyed by scope, target and package |
| RuntimeLock.NoChangeIffUnchanged | src/skills_sdk/lifecycle/planning.py:159-166 | `no_change` is reported exactly when the list is unchanged, `install` exactly when the key is new |
| RuntimeLock.OperationMeans | src/skills_sdk/lifecycle/planning.py:160-162 | the operation read off the lock as a map: install for a new key, no change for the same entry, update otherwise |
| RuntimeLock.ReplanIsNoChange | src/skills_sdk/lifecycle/planning.py:159-166 | planning the same entry again is `no_change` |
| RuntimeLock.RunRefinesMap | src/skills_sdk/lifecycle/planning.py:138-166 | any run of plans refines the same run of map updates and keeps the lock valid; the last entry of a key wins |
| RuntimeLock.RunKeepsPlaces | src/skills_sdk/lifecycle/planning.py:138-166 | over any run, entries that are not planned keep value and relative order |
| RuntimeLock.PlansCommute | src/skills_sdk/lifecycle/planning.py:208-209 | plans on distinct keys commute as maps, and as lists exactly when one of the keys is already present |
| Planner.PlansAreConsistent | src/skills_sdk/models/lifecycle.py:180-254 | every plan the planner assembles, planned or blocked, meets every cross-field rule of `InstallPlan`; its id recomputes |
| Planner.PlannerMeetsValidator | src/skills_sdk/lifecycle/planning.py:118-205 | a plan is returned exactly when the single-field text rules hold of the inputs, the validator accepts it, and it is planned exactly when the two receipts agree |
| Planner.PlanMeans | src/skills_sdk/lifecycle/planning.py:30-205 | every field of a returned plan: it describes its inputs, a blocked plan names the first thing that keeps the receipts from agreeing, and a planned one carries the prepared entry with the right operation |
| Planner.RefusalMeans | src/skills_sdk/lifecycle/planning.py:138-158 | the entry itself is refused exactly when the receipts agree and one of its texts is not public-safe |
| Planner.PlanUpdatesTheLock | src/skills_sdk/lifecycle/planning.py:138-205 | a planned transition is one map update on a valid lock, `no_change` exactly when nothing changes, and rolls back to the current lock |
| Planner.ReplanningChangesNothing | src/skills_sdk/lifecycle/planning.py:118-205 | planning again from the proposed lock is accepted with `no_change` |
| Planner.PlanIdBindsPlan | src/skills_sdk/models/lifecycle.py:200-228 | two accepted plans with one id are equal: the id binds the complete plan |
| PluginTree.DirectoryPaths | src/skills_sdk/intake/plugin_normalization.py:91-100 | the result is exactly the directories needed above the skill, its captured directories and its files, sorted by depth and text |
| PluginTree.SortedIsParentFirst | src/skills_sdk/intake/plugin_normalization.py:91-100 | the listing is duplicate-free and every directory follows all directories above it |
| PluginTree.OutputParent.MakeDirectory | src/skills_sdk/intake/plugin_normalization.py:103-130 | exclusive creation: it fails on a missing parent or an existing name and otherwise adds one directory |
| PluginTree.OutputParent.WriteFile | src/skills_sdk/intake/plugin_normalization.py:133-157 | exclusive creation below existing directories; on success exactly the bytes and the masked mode are there |
| PluginTree.OutputParent.CreateDirectories | src/skills_sdk/intake/plugin_normalization.py:117-130 | below a fresh root the listed order never meets a missing parent or an existing name, so it finishes unless a call fails |
| PluginTree.OutputParent.WriteCandidate | src/skills_sdk/intake/plugin_normalization.py:225-259 | writing into a fresh root completes exactly when no call fails, leaves exactly the expected files and directories, reports a partial tree truthfully, and leaves an existing destination untouched |
| PluginTree.FileIsFree | src/skills_sdk/intake/plugin_normalization.py:225-259 | a captured file's place is neither a directory nor an earlier file, and its directories are all needed |
| PluginTree.RejectSourceAncestor | src/skills_sdk/intake/plugin_normalization.py:201-222 | rejects exactly when the source is the parent or one of its physical ancestors |
| PluginCapacity.ExpectedPluginFiles | src/skills_sdk/intake/plugin_normalization.py:296-319 | the listing is the manifest and every wrapped file, strictly sorted by path |
| PluginCapacity.CaptureIsExpected | src/skills_sdk/intake/plugin_normalization.py:296-319 | a capture of the finished tree equals the expected listing, element by element |
| PluginCapacity.TotalIsSum | src/skills_sdk/validation/plugin_capture.py:82-135 | the weight of a tree is the sum over any list of its names |
| PluginCapacity.CandidateMeasures | src/skills_sdk/intake/plugin_normalization.py:322-336 | the written tree holds each directory, file and byte once |
| PluginCapacity.FitsWrappedCapture | src/skills_sdk/intake/plugin_normalization.py:322-336 | the reservation made before writing answers exactly whether the finished tree is within the capture's bounds |
| PluginCapacity.CaptureBounds | src/skills_sdk/validation/plugin_capture.py:82-135 | the capture's bounds on the tree are the five comparisons of the reservation |
| Graph.UnfoldingUnique | src/skills_sdk/evaluation/selected_case.py:505-545 | a graph has at most one finite unfolding from a value |
| Graph.Walk.Plain | src/skills_sdk/evaluation/selected_case.py:505-545 | returns what the value stands for within depth and budget and charges its nodes, or a refusal that is true of every unfolding, and restores `active` on every exit |
| Graph.Walk.PlainChildren | src/skills_sdk/evaluation/selected_case.py:529-543 | the same for the children of a container, in list or sorted-key order |
| Graph.PlainInput | src/skills_sdk/evaluation/selected_case.py:475-479 | returns exactly when the value stands for a tree within depth 32 and the budget, and returns that tree: lists child by child, dictionaries with each key in order beside its own value; a refusal says what every such tree would exceed, or that there is none |
| Graph.UnfoldingDenotes | src/skills_sdk/evaluation/selected_case.py:505-545 | the unfolding by sorted keys pairs every key with the value stored under it |
| Graph.DenotedUnfolds | src/skills_sdk/evaluation/selected_case.py:505-545 | and nothing else does: a tree that pairs each key with its value in order is the unfolding |
| Graph.UnfoldingIsSorted | src/skills_sdk/evaluation/selected_case.py:529-543 | every object of the result lists its keys strictly sorted |
| Graph.NormalisedIsStable | src/skills_sdk/evaluation/selected_case.py:505-545 | wherever the result is stored, its unfolding is itself |
| Graph.NormaliseTwice | src/skills_sdk/evaluation/selected_case.py:505-545 | normalising the result again returns it unchanged |
| Graph.CyclicHasNone | src/skills_sdk/evaluation/selected_case.py:530-532 | a cycle below the root leaves no unfolding, so the graph is refused |
| Graph.AcyclicUnfolds | src/skills_sdk/evaluation/selected_case.py:505-545 | an acyclic region of accepted containers does unfold, shared containers included |
| Graph.Walk.Strict | src/skills_sdk/core/schema_registry.py:132-160 | returns what the value mirrors, with finite numbers and text keys within depth 100, or a refusal that is true of every unfolding, and restores `active` |
| Graph.RequireJsonValue | src/skills_sdk/core/schema_registry.py:132-160 | returns exactly when the value mirrors a tree within depth 100, each entry with its own key and value, and returns that tree |
| Graph.UnfoldingMirrors | src/skills_sdk/core/schema_registry.py:132-160 | a tree is the strict unfolding exactly when it mirrors the containers in their own order |
| Scoring.CaseResultAccepted | src/skills_sdk/models/evaluation_v2.py:116-133 | every case result the evaluator builds passes its own validator |
| Scoring.ReceiptAccepted | src/skills_sdk/models/evaluation_v2.py:151-195 | for all valid inputs the receipt passes its own validator, and its id covers its contents |
| Scoring.OrderDoesNotMatter | src/skills_sdk/evaluation/deterministic_v2.py:136-243 | permuting observations or completed probes leaves the receipt and its id the same |
| Scoring.BetterObservationsNeverScoreLower | src/skills_sdk/evaluation/deterministic_v2.py:81-133 | more signals and fewer commands never lower the score, lose a pass or block a receipt |
| Scoring.PassMeans | src/skills_sdk/evaluation/deterministic_v2.py:81-133 | what a passing and a blocked case mean, without the lists the code builds, and what a result takes over from its observation |
| Scoring.BlockedCaseMeans | src/skills_sdk/evaluation/deterministic_v2.py:91-112 | why a case is blocked: for the observation's own reason, or else for its oracle |
| Scoring.EvaluatedCaseMeans | src/skills_sdk/evaluation/deterministic_v2.py:113-133 | what an evaluated case lists: exactly the expected signals not observed and the forbidden commands observed, in order, and whether an exact output differs |
| Scoring.FirstWrongBlocks | src/skills_sdk/evaluation/deterministic_v2.py:145-218 | the first of the ten checks on scorer, probes and observations that fails gives the blocker, and nothing is evaluated |
| Scoring.EvaluatedMeans | src/skills_sdk/evaluation/deterministic_v2.py:219-243 | when none fails, every case is evaluated with the observation of its id, the receipt is blocked exactly when a case cannot be evaluated, and otherwise the score is the number of cases met over the number of cases |
| Scoring.BlockedExactly | src/skills_sdk/evaluation/deterministic_v2.py:136-243 | an evaluation is blocked exactly when a check fails or a case cannot be evaluated |
| Scoring.CompletedProbes | src/skills_sdk/models/evaluation_v2.py:170-175 | the reported probes are unique, declared and in profile order |
| SelectedCase.AssertionSignals | src/skills_sdk/evaluation/selected_case.py:155-169 | the loop accepts exactly the lists whose assertions are all acceptable, and gives the signals of each in order; the ids it projects are pairwise distinct |
| SelectedCase.AssertionMeans | src/skills_sdk/evaluation/selected_case.py:172-226 | an assertion is accepted exactly when it is a non-blank value of a known kind or good requirements with different ids, and becomes signals with its own terms |
| SelectedCase.ProjectedIdInjective | src/skills_sdk/evaluation/selected_case.py:172-226 | an id determines its index and its requirement |
| SelectedCase.ProjectedIdsAreUnique | src/skills_sdk/evaluation/selected_case.py:577-582 | whatever the acceptance list holds, no two projected ids are equal |
| SelectedCase.Load | src/skills_sdk/evaluation/selected_case.py:241-333 | an acceptable list is loaded, and the definition satisfies the revalidation of ids, oracle and scorer |
| SelectedCase.DeterministicSignals | src/skills_sdk/evaluation/selected_case.py:373-382 | an id is signalled exactly when an assertion with that id holds of the text |
| SelectedCase.DeterministicIdsAreTheirOwn | src/skills_sdk/evaluation/selected_case.py:427-455 | no accepted judge evidence can satisfy a deterministic check: its id is signalled exactly when the check holds |
| SelectedCase.ValidatedObservation | src/skills_sdk/evaluation/selected_case.py:391-461 | completed exactly when the evidence is bound to the output, claims semantic ids only, and carries its result reference; otherwise the first of these that fails names the blocker |
| SelectedCase.EvaluateSelected | src/skills_sdk/evaluation/selected_case.py:391-461 | passes exactly when bound evidence satisfies every semantic id, every deterministic assertion holds and no forbidden command occurs; blocked exactly when the evidence is not bound, with the reason in the one case result; otherwise the score is 1 or 0 |
| LocalCheck.LocalCheck | src/skills_sdk/cli/main.py:551-571 | every result the pipeline can emit is its first-stop outcome and is accepted by the model |
| LocalCheck.PassesExactly | src/skills_sdk/cli/main.py:551-571 | the result passes exactly when the context is readable, intake admits, and every check is clear for the candidate of the intake |
| LocalCheck.EmittedIsAccepted | src/skills_sdk/cli/main.py:480-492 | construction of an emitted result never raises |
| LocalCheck.AcceptedIsEmittedIff | src/skills_sdk/models/local_check.py:64-119 | an accepted result is the outcome of some run exactly when a context blocker, if any, is the pipeline's own |
| LocalCheck.OtherContextTextIsNeverEmitted | src/skills_sdk/models/local_check.py:67-77 | the model accepts context blockers with other text, which no run emits |
| LocalCheckSchema.AppendLocalCheckConstraints | scripts/local_check_schema.py:28-116 | the dictionary the generator leaves accepts the wire form of a result exactly when the result has the stated shape |
| LocalCheckSchema.StageMeans | scripts/local_check_schema.py:16-25 | a stage schema accepts exactly the stages of that name, receipt type and status |
| LocalCheckSchema.SchemaMeansShape | scripts/local_check_schema.py:28-116 | what the whole document says of a result, constraint by constraint |
| LocalCheckSchema.ProjectionIsExact | scripts/local_check_schema.py:28-128 | the document and the checks it names are together the model's validator: neither refuses an accepted result, and what both accept is accepted |
| EvaluationSchema.AppendResultConstraints | scripts/generate_schemas.py:440-518 | the finished dictionary accepts exactly the objects that met its fields before, have unique evidence references and, by status, the stated shape of a passing, failing or blocked case result |
| EvaluationSchema.AppendReceiptConstraints | scripts/generate_schemas.py:530-582 | the finished dictionary accepts exactly the objects that met its fields before, repeat no case result and no probe, and have the stated shape of a completed or blocked receipt with its provider |
| EvaluationSchema.ResultProjectionIsSound | scripts/generate_schemas.py:440-518 | every payload of a case result that the model accepts, with defaults written or left out, has the shape the finished dictionary accepts |
| EvaluationSchema.ReceiptProjectionIsSound | scripts/generate_schemas.py:530-582 | every payload of a receipt that the model accepts has the shape the finished dictionary accepts |
| InstallPlanSchema.AppendInstallPlanConstraints | scripts/runtime_lifecycle_schema.py:287-317 | the finished dictionary accepts exactly the objects that met its fields before, repeat no evidence and have the stated shape of a planned plan, digest patterns included, or of a blocked one |
| InstallPlanSchema.PlanProjectionIsSound | scripts/runtime_lifecycle_schema.py:287-317 | every payload of an install plan that the model accepts has the shape the finished dictionary accepts |
| InstallPlanSchema.PlannerMeetsSchema | src/skills_sdk/lifecycle/planning.py:118-205 | every plan the planner returns has the shape the finished dictionary accepts |

## Left out

- Real system calls, `flock`, sockets, process control and descriptors: only their step semantics are modelled. `os.close` never fails, and `fsync` has no effect on what a crash leaves.
- `Host.FileSystem.Capture`: a capture reads one state atomically; the code's own check for changes during the read is an open choice to refuse.
- `Entrypoint.Source`: the frontmatter and sibling checks of a source file are an open choice to refuse with a `ValueError`.
- `Entrypoint.RepairTwice`: says nothing of a second run whose private names are already taken; of one that a host failure stops, only that it wrote nothing.
- `RepairRuns.SerialisableIffUndisturbed`: stated for two repairs that are ready and whose private names no one else uses; host failures are not part of these runs, and the files of a path's lock directory are not either.
- `Locks.SerialEquivalence`: for three runs and more the condition is sufficient, not shown necessary.
- Asyncio scheduling and timers: a deadline is an event that may come between reads, and only the numeric time checks are kept.
- `Review.WorkerReaderAgree`: the fields of an assessment and the JSON text of a packet are not modelled.
- The stream and cleanup paths of provider adapters and judges, and the snapshot copy of executions (`_snapshot_executions`), whose values are immutable here.
- `Calibration.ExecuteMatchedCalibration`: the checks of `_capability_schedule_problem` and of plan identity are preconditions (the same freshness rule is proved for matched lanes in `Matched.Preflight`); marks and weights are rational, rationales and the candidate and judge of the evidence are left out, and so is the error policy that the observed receipt applies to a complete run.
- `Matched.Preflight`: the checks of plan identity, calibration results and variants are inputs, so only their place in the order of checks is stated.
- `Planner.PlanIdBindsPlan`: the id is the whole digest, where the code keeps its first 24 hexadecimal digits.
- The regular expressions for public-safe and portable text: opaque predicates, applied where the models apply them. Whitespace stripping and type coercion are left out with them.
- The digest of the manifest in a package receipt and fields of receipts that the planner does not read.
- `PluginTree.OutputParent.WriteCandidate`: modes of directories are not modelled, and the capture's record of each payload (digest, size, presence) is a precondition.
- `Graph.RequireJsonValue`: text keys of one mapping are taken as written; two string-subclass keys with equal text, which the code merges, are not merged.
- `Graph.Walk.Plain`: which of several refusals that are all true is raised first is not stated.
- `Scoring.ReceiptAccepted`: the id is the whole digest, where the code keeps its first 24 hexadecimal digits.
- The scenario-set rule on regression cases and the categories of cases: they take no part in scoring.
- `SelectedCase.ValidatedObservation`: the rewriting of private blocker codes and references in a blocked observation is not modelled.
- `SelectedCase.Load`: only the projection of assertions; loading, mode selection and text limits are left out.
- `EvaluationSchema.ReceiptProjectionIsSound`: from model to document only, since the document names cross-object rules it leaves to the model.
- The text constraints (`not` with `pattern`) that the schema generators add to single public-text fields.
- The rest of the command line, registry dispatch, inventory, advisory, coverage, intake and registry models: mostly single-branch rules that would only add easy members.
