# Revolvr: a Dafny model of its restartable transactions and state machines

Revolvr keeps autonomous work on disk, and most of its difficult code exists so that a process may die between any two
file operations. This project models that code in Dafny and proves what holds after every interruption, retry and
interleaving. `dafny verify dfyconfig.toml` checks all of it.

- **Artifact garbage collection** (`Retention*.dfy`). The planner and its validator; the journal validators; one
  artifact's files in the source tree and in quarantine; `ApplyGC` as a transaction of atomic steps. One generic
  invariant (`RetentionInvariant.dfy`) says what every sequence of interrupted, cancelled and rerun invocations keeps on
  any disk; the checkpoint, no-loss and resumption theorems are instances of it. `RetentionFinish.dfy` says exactly
  when an undisturbed invocation finishes, and `RetentionResume.dfy` exactly which operations can always be resumed.
  `RetentionGuards.dfy` needs no invariant: it says what an invocation refuses, leaves alone and must have recorded on
  every disk, reachable or not.
  `Repository` is a class whose methods change files and journal as the code does and are proved to compute that
  transaction.
- **Execution state** (`ExecutionState.dfy`, `TaskPlans.dfy`, `Obligations.dfy`, `Attempts.dfy`, `InputLog.dfy`,
  `InputMeaning.dfy`, `InputCheck.dfy`). The validators and transition checks, what they mean for a whole state read
  field by field, and the facts over whole runs that no line of the code states.
- **Archive and reopen** (`Archive*.dfy`, `Reopen*.dfy`). The five-stage roll-forward commit over disk, Git and ledger,
  and reopening, each with a class that refines it. `ArchiveGuards.dfy` and the last part of `Reopen.dfy` say what an
  invocation refuses, overwrites and removes in every world.
- **Leases** (`Leases.dfy`). The lock orders of all four kinds of operation, over all interleavings.
- **Canonical forms and exact checks** (`Ordering.dfy`, `Findings.dfy`, `TaskDossier.dfy`, `FindingIds.dfy`,
  `Corrections.dfy`).

A process that stops (a crash, an error return, an authority that changed, a lost lease) is modelled by `Fuel`: the
number of atomic steps it still gets. Every intermediate world of a run is the final world of that run under some fuel,
so a statement over all fuels is a statement about every reachable state. SHA-256, JSON and gzip are uninterpreted
functions; where a property needs it, decompression inverts compression (`Faithful`) and digests identify
(`CollisionFree`, `PlanIdentifies`).

## What the proofs found

These are properties that fail as one would first state them. Each has a lemma that reaches the failing case and a lemma
that says, for all inputs, exactly when the code does meet the property.

- Quarantine removal is not atomic. If it stops between the two files of a pruned pair, recovery refuses for good
  (`RemovalCanTear`, `TornForever`); over sound artifacts an undisturbed rerun finishes exactly when no pair is torn
  (`Resumable`).
- The planner admits artifacts that garbage collection cannot carry through: a zero-byte stream (`EmptyArtifactSticks`),
  leftovers that differ from the compressor's output, a manifest that names a gz elsewhere (`ElsewhereSucceedsOnce`). A
  first undisturbed invocation finishes exactly when every artifact is doable (`FirstRunExactly`); the operation can be
  resumed from wherever it stops exactly when every artifact is workable (`ResumableExactly`). No bytes are lost in any
  of these cases (`NoLoss`, `CollectionLosesNothing`).
- A prune checks that the artifact reads as planned only while its quarantine is empty. Resumed after its first rename it
  moves whatever lies at the artifact's paths, even an original nobody planned for (`PruneTakesStray`). `PruneMovesExactly`
  says exactly when a prune moves a file, `PruneFramed` that it never changes or overwrites one.
- The journal validators admit a cancellation recorded after the last action, from which no legal entry leads on
  (`DeadEndAdmitted`). `DeadEndsExactly` shows that this is the only dead end, `CheckpointRefines` that `ApplyGC` never
  writes one.
- The archive's ledger events of stages 2 to 4 are appended after the journal write and inside the stage guard. Stopping
  in between loses the event, and the finished archive does not verify (`EventCanBeMissed`, `LedgerExactly`). The event of
  a reopen has the same window (`ReopenEventCanBeMissed`, `ReopenEventExactly`).
- Staging for the administrative commit always names the active task, whose file is gone by then. `git add` refuses a
  path that is neither in the worktree nor in the index, so a task that was never tracked, or an invocation that stopped
  between staging and commit, strands the archive at stage 3 (`StagingCanStrand`, `StrandedForever`). `RetryFinishes`
  says exactly when a retry finishes; no bytes are lost either way (`RollForward`).
- An invocation removes the active task only if it is exactly the request's, but once the journal is at
  `files_published` it does not look at the archived copy again: if that copy is gone, the retry removes the last one
  (`MissingCopyLosesTask`). After a removal the archived copy holds the bytes if and only if publication was still ahead
  or the copy was there (`ArchiveAccounted`).
- Two active tasks can claim one archive, in two ways: a task file created by hand over the state an abandoned reopen
  left (`AbandonedStateCanClaim`), and lineage attached to the state of another active task (`AttachedLineageCanClaim`).
  Claims stay unique over a whole history exactly when no event meets another active claim (`HarmlessExactly`,
  `AtMostOneClaim`).
- Reopening an archive a second time writes state, task, commit and record and then fails on the first reopen's ledger
  event; a retry reports success from the record. An uninterrupted reopen succeeds exactly when there is no such event
  (`ReopenExactly`).
- An action counter may disappear from one state to the next and return smaller (`CounterMayRestart`); it never falls
  exactly while the action stays listed (`CounterRunExactly`). A plan id may recur with another revision
  (`PlanIdsRecur`); the revision is the same exactly if the id never changed in between (`SameIdExactly`).

Two of the question checks in the input log never fire on their own: consecutive revisions already make identities and
revision keys unique (`AskableIsNew`).

## Model

| member | source | states |
|---|---|---|
| RetentionPlan.ValidatePlan | internal/artifactretention/plan.go:294-354 | Accepts exactly the plans with strictly ordered known paths, recomputed totals, the right export flag and both self-identities; an accepted plan's totals count and sum its actions and its policy is coherent. |
| RetentionPlan.PlanFields | internal/artifactretention/plan.go:294-354 | What a valid plan says in its own fields: known paths in strict order, a compressed identity for every compression, counted totals, an export exactly if it prunes under a policy that asks for one. |
| RetentionPlan.TotalsMean | internal/artifactretention/plan.go:308-340 | Totals are counts and sums over the actions. |
| RetentionPlan.PolicyMeans | internal/artifactretention/policy.go:36-53 | A valid policy allows work, prunes only what is old enough to compress, of an admitted class, with a verified export. |
| RetentionPlan.KnownStreamPathExactly | internal/artifactretention/plan.go:564-577 | Known stream paths are exactly those below a run's own directory that end in their class's suffix. |
| RetentionPlan.CheckActions | internal/artifactretention/plan.go:308-340 | One pass decides well-formedness and order of all actions and sums the totals of the list. |
| RetentionPlan.PlanGC | internal/artifactretention/plan.go:110-292 | For every inventory and policy, refuses exactly malformed requests and future mtimes. Any plan it returns passes the validator; a prune has no pins, is compressed and at least `pruneAfter` old, a compression has no pins, is an original of an admitted class over both thresholds, a pinned candidate or one under disabled mutation is retained; and a wanted action is carried out exactly while count and bytes up to it are within bounds. |
| RetentionPlan.ClassifyJustified | internal/artifactretention/plan.go:210-257 | Every emitted action's kind, reason and size follow from its candidate's age, size, class, pins and the policy. |
| RetentionPlan.BoundHolds | internal/artifactretention/plan.go:258-270 | A wanted action is carried out exactly as long as count and bytes, up to and including it, are within bounds. |
| RetentionPlan.SelectActions | internal/artifactretention/plan.go:210-274 | The planning loop emits for each candidate its classification, demoted exactly when the operation bound is exceeded. |
| RetentionPlan.EmittedSelects | internal/artifactretention/plan.go:209-274 | The mutating actions are exactly the longest path-ordered prefix of eligible artifacts whose count and bytes fit both bounds; the rest is counted as remaining. |
| RetentionPlan.LocallyLongestIsLongest | internal/artifactretention/plan.go:258-270 | A prefix that fits while the next longer one does not is longer than every other fitting prefix. |
| RetentionPlan.PlanGCCorrect | internal/artifactretention/plan.go:209-292 | Planned actions are valid, ordered, correctly totalled, and prunes occur only under a policy that requires an export. |
| RetentionPlan.MutatingOrdered | internal/artifactretention/journal.go:242-250 | The mutating actions of an ordered plan are ordered themselves, hence on distinct paths. |
| RetentionJournal.JournalFromHistory | internal/artifactretention/journal.go:63-101 | Reading the history directory accepts exactly contiguous files forming a legal history, and returns that history. |
| RetentionJournal.HistoryShape | internal/artifactretention/journal.go:193-226 | In every accepted history: one admission, export set once and then fixed, completed paths growing by prefix, `completed` followed only by `cleaned`, nothing after that. |
| RetentionJournal.HistoryBounded | internal/artifactretention/journal.go:128-250 | Non-cancelled entries number exactly the progress recorded, at most the mutating actions plus four. |
| RetentionJournal.DeadEndsExactly | internal/artifactretention/journal.go:193-240 | A valid journal can still reach `cleaned` by legal entries if and only if it is not a cancellation with every action completed. |
| RetentionJournal.DeadEndAdmitted | internal/artifactretention/journal.go:193-226 | After any accepted history with every action completed and not yet `completed`, a cancellation is accepted and nothing leads on from it. |
| RetentionJournal.NextEntryLegal | internal/artifactretention/journal.go:193-240 | From any live journal the next entry of an uninterrupted run is legal and strictly reduces what remains. |
| RetentionJournal.AcceptedIsChained | internal/artifactretention/journal.go:63-101 | An accepted history keeps one plan throughout. |
| RetentionJournal.EntryMeans | internal/artifactretention/journal.go:128-184 | The state check accepts exactly the entries whose progress, export and stage read right, field by field. |
| RetentionJournal.StepMeans | internal/artifactretention/journal.go:193-240 | Between valid entries the transition check accepts exactly the steps that read right, field by field. |
| RetentionJournal.HistoryReads | internal/artifactretention/journal.go:63-101 | Every accepted history, read entry by entry: numbered from one admission on, each entry and step saying what it should, over one consistent plan. |
| RetentionDisk.CompressionResumes | internal/artifactretention/apply.go:333-415 | Wherever a compression stops it stays resumable; it never fails from such a state, and finished means the gz pair alone. |
| RetentionDisk.PruneResumes | internal/artifactretention/apply.go:417-488 | The same for the renames of a prune, finished meaning the pair is wholly in quarantine. |
| RetentionDisk.AppliedReconciles | internal/artifactretention/journal.go:377-476 | Recovery accepts a finished action exactly when its quarantined pair is whole or wholly gone. |
| RetentionDisk.ReadPair | internal/artifactretention/compression.go:69-146 | A compressed pair reads back as the original bytes. |
| RetentionDisk.ProgressRecoverable | internal/artifactretention/apply.go:333-488 | Every configuration of an unfinished action still holds the artifact's bytes. |
| RetentionDisk.ReadMeans | internal/artifactretention/compression.go:69-146 | On any disk, what reading returns has the expected identity, fits the cap, and comes from the original alone or from the gz a canonical manifest names. |
| RetentionDisk.CompressionFramed | internal/artifactretention/apply.go:333-415 | On any disk and wherever it stops: a compression touches no quarantine, writes gz and manifest only for the planned original, removes it only beside them, and reads back as planned when it is done. |
| RetentionDisk.PruneFramed | internal/artifactretention/apply.go:417-488 | On any disk and wherever it stops: every file is where it was or, unchanged, at a free place in quarantine; out of an empty quarantine only what reads as planned moves; done means nothing is left behind. |
| RetentionDisk.PruneMovesExactly | internal/artifactretention/apply.go:417-480 | A prune moves a file if and only if it has a step and a free place and the artifact reads as planned or is unreadable with something already in quarantine. |
| RetentionDisk.PruneTakesStray | internal/artifactretention/apply.go:425-480 | A resumed prune moves an original that was never planned. |
| RetentionDisk.ReconciledMeans | internal/artifactretention/journal.go:377-476 | What recovery accepts, on any disk: the planned pair and no original, or a pruned artifact wholly in quarantine or gone after `completed`. |
| RetentionInvariant.PersistKeeps | internal/artifactretention/journal.go:272-305 | Persisting an entry the disk agrees with keeps the invariant at both the immutable and the checkpoint write; it fails exactly on an illegal entry. |
| RetentionInvariant.ActionKeeps | internal/artifactretention/apply.go:333-488 | On any disk an action changes only its own artifact, within whatever property survives its effects. |
| RetentionInvariant.CancelKeeps | internal/artifactretention/apply.go:515-522 | Cancelling with an action outstanding keeps the invariant, so never records a dead end. |
| RetentionInvariant.SweepKeeps | internal/artifactretention/apply.go:216-226 | Quarantine removal in any order and with any interruption removes only quarantined files. |
| RetentionInvariant.RoundKeeps | internal/artifactretention/apply.go:155-199 | One iteration of the action loop keeps the invariant at every stopping point. |
| RetentionInvariant.RunActionsKeeps | internal/artifactretention/apply.go:155-244 | So do the action loop and completion; success means `cleaned`. |
| RetentionInvariant.RunFromKeeps | internal/artifactretention/apply.go:125-244 | So does the run including the export phase. |
| RetentionInvariant.ApplyKeeps | internal/artifactretention/apply.go:61-245 | One invocation on any disk, from any reachable world, keeps the invariant wherever it stops. |
| RetentionInvariant.RunsKeep | internal/artifactretention/apply.go:61-245 | The invariant holds after every sequence of interrupted, cancelled, failing and rerun invocations. |
| RetentionFinish.RoundExactly | internal/artifactretention/apply.go:155-199 | An undisturbed iteration is refused exactly if its action fails, and otherwise journals it with only its artifact changed. |
| RetentionFinish.LoopRefused | internal/artifactretention/apply.go:155-199 | Undisturbed, the loop is refused if some outstanding action fails. |
| RetentionFinish.LoopCompletes | internal/artifactretention/apply.go:155-215 | Otherwise it runs every outstanding action, records `completed` and goes on to clean up. |
| RetentionFinish.LoadFinds | internal/artifactretention/journal.go:32-61 | In every reachable world loading succeeds with the last history entry. |
| RetentionFinish.FinishesExactly | internal/artifactretention/apply.go:61-245 | On any disk, in any reachable world, an undisturbed invocation finishes or replays if and only if recovery accepts what is journaled and every other action succeeds; otherwise it is refused. |
| RetentionFinish.UnreconciledRefused | internal/artifactretention/journal.go:353-434 | What recovery does not accept is refused with nothing changed. |
| RetentionRuns.CheckpointRefines | internal/artifactretention/journal.go:32-61 | On any disk, for any valid plan: the checkpoint equals the history entry at its own sequence, loading finds the last entry, and that entry is no dead end. |
| RetentionRuns.LagsWithoutBound | internal/artifactretention/journal.go:272-305 | The checkpoint may lag by any amount, and the journal still loads. |
| RetentionRuns.CompressionHolds | internal/artifactretention/apply.go:333-415 | A compression keeps the bytes in the source tree at every stopping point, whatever lies beside them and whether or not it succeeds. |
| RetentionRuns.PruneHolds | internal/artifactretention/apply.go:417-488 | A prune only moves files. |
| RetentionRuns.NoLoss | internal/artifactretention/apply.go:125-239 | On any disk the bytes of a planned artifact can be rebuilt, unless it is pruned, `completed` was recorded with every action listed, and the required export verified earlier. |
| RetentionRuns.ReconcilesExactly | internal/artifactretention/journal.go:353-434 | Over sound artifacts the recovery check accepts a reachable world if and only if no pruned pair is torn. |
| RetentionRuns.Configuration | internal/artifactretention/apply.go:155-199 | Over sound artifacts the journaled actions reconcile, the next is resumable, later ones are untouched. |
| RetentionRuns.Resumable | internal/artifactretention/apply.go:61-245 | Over sound artifacts, after any such sequence one undisturbed rerun reaches the planned outcome if and only if no pair is torn. |
| RetentionRuns.TornForever | internal/artifactretention/journal.go:405-429 | A torn pair makes every later invocation a refusal that changes nothing. |
| RetentionRuns.RemovalCanTear | internal/artifactretention/apply.go:220-222 | From an untouched repository, an invocation whose removal ends after one file leaves a torn pair for good. |
| RetentionInventory.FilesDisjoint | internal/artifactretention/plan.go:564-577 | Two stream artifacts never share a file name. |
| RetentionInventory.WorkableIsSound | internal/artifactretention/plan.go:356-414 | A workable inventoried artifact is made of one set of original bytes, gz and manifest. |
| RetentionInventory.CompletesExactly | internal/artifactretention/apply.go:333-488 | An inventoried artifact completes its planned action and passes recovery if and only if it is nonempty, has no foreign leftovers, and its manifest names its own gz. |
| RetentionInventory.EmptyArtifactSticks | internal/artifactretention/compression.go:131-133 | Compressing a zero-byte artifact removes the original and then fails on every attempt. |
| RetentionInventory.DoableExactly | internal/artifactretention/apply.go:333-488 | A planned action on an inventoried artifact succeeds if and only if the artifact is doable. |
| RetentionInventory.ElsewhereSucceedsOnce | internal/artifactretention/compression.go:113-116 | A pruned artifact whose manifest names a gz elsewhere succeeds once and is refused on recovery. |
| RetentionInventory.InventoriedCarries | internal/artifactretention/plan.go:356-414 | An inventoried artifact carries bytes of the planned identity. |
| RetentionInventory.CollectionLosesNothing | internal/artifactretention/apply.go:61-245 | Plan and apply on any disk the planner accepts: bytes leave only by pruning, after `completed`, with an export verified before. |
| RetentionInventory.FirstRunExactly | internal/artifactretention/apply.go:61-245 | An undisturbed first invocation finishes if and only if every planned artifact is doable. |
| RetentionResume.PlanStartsOperation | internal/artifactretention/plan.go:110-292 | What the planner plans from a workable disk is an operation over sound artifacts. |
| RetentionResume.UnworkableStrands | internal/artifactretention/journal.go:353-434 | Any planned artifact that is not workable makes some stopping point unresumable. |
| RetentionResume.ResumableExactly | internal/artifactretention/apply.go:61-245 | A planned operation can be resumed from wherever it stops without tearing a pair if and only if every planned artifact is workable. |
| RetentionRepository.Repository.PersistJournal | internal/artifactretention/journal.go:272-305 | Leaves exactly the world and status of the specified persist step. |
| RetentionRepository.Repository.CompressArtifact | internal/artifactretention/apply.go:333-415 | Computes the specified compression at every stopping point. |
| RetentionRepository.Repository.WriteCompressed | internal/artifactretention/apply.go:381-408 | Publishes gz and manifest beside the original, or stops as specified. |
| RetentionRepository.Repository.PruneArtifact | internal/artifactretention/apply.go:417-488 | Computes the specified prune at every stopping point. |
| RetentionRepository.Repository.MoveToQuarantine | internal/artifactretention/apply.go:456-480 | The rename loop moves original, gz and manifest in order, refusing a collision and an empty result. |
| RetentionRepository.Repository.RemoveQuarantine | internal/artifactretention/apply.go:216-226 | Removes file by file, the directory last, as specified. |
| RetentionRepository.Repository.ActionLoop | internal/artifactretention/apply.go:155-199 | The loop over all plan actions with its completed set skips exactly the journaled ones and computes the specified run. |
| RetentionRepository.Repository.ResumePlan | internal/artifactretention/apply.go:125-199 | Export phase and action loop compute the specified run. |
| RetentionRepository.Repository.Finish | internal/artifactretention/apply.go:200-244 | Completion, removal and cleaning compute the specified run. |
| RetentionRepository.Repository.CancelJournal | internal/artifactretention/apply.go:515-522 | Records the cancellation as specified. |
| RetentionGuards.EntryGuards | internal/artifactretention/apply.go:61-105 | In every world a disabled or invalid plan, a conflicting journal or checkpoint, a lost export, or effects recovery does not accept are refused with nothing changed; a cleaned operation is replayed with nothing changed. |
| RetentionGuards.ApplyAccounted | internal/artifactretention/apply.go:61-245 | In every world and wherever it ends: artifacts without a mutating action are left alone, history is never rewritten, and no quarantined file disappears unless `completed` is recorded with every action and, where required, an export verified in that very world. |
| RetentionGuards.LoopNeedsExport | internal/artifactretention/apply.go:155-199 | Whatever journal and disk: while a prune is outstanding whose required export is missing, the loop does not finish and moves nothing into or out of quarantine. |
| RetentionGuards.CancelHonoured | internal/artifactretention/apply.go:155-164 | A cancelled context stops the run before its next action, with no artifact changed and only a cancellation recorded. |
| RetentionRepository.Repository.Collect | internal/artifactretention/apply.go:61-245 | The whole invocation computes the specified run, keeps every guarded invariant on any disk, and over sound artifacts succeeds only with the planned outcome; in every world it is accounted for and obeys the entry guards. |
| RetentionRepository.SkippedExactly | internal/artifactretention/apply.go:121-124 | A path is in the completed set if and only if its action is among those journaled. |
| InputLog.NumbersExact | internal/autonomous/state.go:1036-1045 | A valid log uses each number from 1 to its transition sequence exactly once. |
| InputLog.SnocExactly | internal/autonomous/state.go:1032-1163 | Adding the next event keeps a log valid if and only if it is a legal ask, answer or resume. |
| InputLog.Replay | internal/autonomous/state.go:1032-1163 | Every valid log is the record of a legal machine run in which answers target the newest question. |
| InputLog.ValidIffRun | internal/autonomous/state.go:1032-1163 | The valid logs are exactly the records of legal runs. |
| InputLog.TransitionAppends | internal/autonomous/state.go:1611-1631 | A transition between valid logs is legal exactly when the later run extends the earlier one; new events carry numbers above the old sequence. |
| InputMeaning.InputExactly | internal/autonomous/state.go:1032-1163 | A log is accepted if and only if, read position by position, each question supersedes the one before with consecutive revisions and its own decision, each answer picks an offered option of the question newest at its time, each resume names its exact answer, nothing is answered or resumed twice, and the numbers are 1 to the sequence. |
| InputCheck.CheckQuestions | internal/autonomous/state.go:1047-1094 | The question loop accepts exactly the valid question lists with admissible numbers. |
| InputCheck.CheckAnswers | internal/autonomous/state.go:1095-1136 | The answer loop accepts exactly the valid answer lists. |
| InputCheck.CheckResumes | internal/autonomous/state.go:1137-1158 | The resume loop accepts exactly the valid resume lists. |
| InputCheck.ValidateInput | internal/autonomous/state.go:1032-1163 | The whole check accepts exactly the records of legal runs, which are exactly the logs that read right as a whole. |
| InputCheck.AskableIsNew | internal/autonomous/state.go:1061-1082 | Consecutive revisions alone make every question identity new. |
| TaskPlans.ValidatePlan | internal/autonomous/state.go:474-527 | Accepts exactly plans with distinct step ids, at most one active step, a predecessor from revision 2 on, and all steps finished if completed. |
| TaskPlans.CheckPlanTransition | internal/autonomous/state.go:1699-1760 | Accepts exactly: under the same id, the same plan with finished steps and completion kept; under another, the next revision naming this one, shared step ids meaning the same, every finished step present. |
| TaskPlans.PlanRun | internal/autonomous/state.go:1699-1760 | Over any run plans never disappear, finished steps stay with id, description and status, and the revision is the first plus the number of plan-id changes. |
| TaskPlans.PlanIdsRecur | internal/autonomous/state.go:1736-1741 | A legal run may return to an earlier plan id with another revision. |
| TaskPlans.SameIdExactly | internal/autonomous/state.go:1699-1760 | Where a run shows the same plan id twice, the revision is the same if and only if the id never changed in between. |
| Attempts.CheckCounters | internal/autonomous/state.go:877-895 | In 64-bit arithmetic without overflow, accepts exactly when the true sum is within the total. |
| Attempts.CheckEvents | internal/autonomous/state.go:927-952 | Accepts exactly the logs in which every completion matches an earlier admission and nothing repeats. |
| Attempts.EventsExactly | internal/autonomous/state.go:927-952 | The check event by event accepts exactly the logs that are numbered upwards within the sequence, admit and complete no attempt twice, and precede every completion by its own admission. |
| Attempts.CompletionsInject | internal/autonomous/state.go:940-950 | Completions inject into earlier admissions with the same action, decision, strategy and source. |
| Attempts.OpenMeans | internal/autonomousarchive/coordinator.go:679-689 | On a valid log an attempt is open if and only if admitted and not completed, and some attempt is open exactly when the counts differ. |
| Attempts.AttemptInFlight | internal/autonomousarchive/coordinator.go:679-689 | The map loop returns whether an attempt is open, for valid logs whether the counts differ. |
| Attempts.RunKeeps | internal/autonomous/state.go:1633-1697 | Over any run events and action stops are append-only, a last failure stays, totals and consumption are monotone, action budgets permanent, limits frozen from the first admission on. |
| Attempts.StateFields | internal/autonomous/state.go:866-974 | What every state of a run satisfies field by field: counts and budgets in range, one counter, budget and stop per action, and a log that reads right. |
| Attempts.CounterStepExactly | internal/autonomous/state.go:1648-1656 | A legal step keeps an action's counter from falling if and only if the action is still listed or had no count. |
| Attempts.CounterRunExactly | internal/autonomous/state.go:1648-1656 | Over any run a counter never falls if and only if its action stays listed while it has a count. |
| Attempts.CounterMayRestart | internal/autonomous/state.go:1648-1656 | A legal run in which an action counter vanishes and returns smaller. |
| ExecutionState.OneWayDoors | internal/autonomous/state.go:1481-1592 | Over any run: finalization, circuit breaker and terminal lifecycles are never left; authority, admission, evidence and times of a finalization are written once and its stage never goes back; lineage rules. |
| ExecutionState.DoorsExclude | internal/autonomous/state.go:1381-1450 | No run holds both a finalization and a circuit breaker. |
| ExecutionState.StateFields | internal/autonomous/state.go:1207-1450 | Every state of a run, field by field: lineage, which lifecycles go with terminal detail, breaker, question and finalization, and finalization evidence from its stage on, in time order. |
| ExecutionState.WaitsOnNewest | internal/autonomous/state.go:1388-1412 | A state waiting on a typed question waits on the newest one, from the latest decision, with no resume recorded; waiting without one means none was asked. |
| ExecutionState.EvidencePermanent | internal/autonomous/state.go:1481-1560 | Over any run plan steps, attempt accounting and the input log's machine run are only extended. |
| Obligations.CheckCriteria | internal/autonomous/state.go:1762-1781 | The map loop accepts exactly the legal changes of the acceptance criteria. |
| ExecutionState.ObligationsPermanent | internal/autonomous/state.go:1762-1801 | Over any run every criterion stays with its requirement and source and does not become pending again, every finding stays and keeps a terminal status, and a latest decision stays. |
| ExecutionState.DecisionsNotReused | internal/autonomous/state.go:1297-1347 | No decision id stands for two decisions, within a state or from one to the next. |
| ExecutionState.CompletionExactly | internal/autonomous/state.go:1381-1530 | With all completion gates and transition rules, completion is reachable by legal steps if and only if there is no circuit breaker and no other terminal lifecycle. |
| ExecutionState.CompletedState | internal/autonomous/state.go:1446-1476 | A completed state: at least one criterion, each settled with evidence or rationale, no open finding, a completed plan of finished steps, a latest decision to complete, finalization at state completion. |
| ExecutionState.CompletedDischarged | internal/autonomous/state.go:1446-1609 | Whatever run led to completion, every criterion, finding and finished step of any earlier state is there, unchanged in meaning, and settled. |
| ArchiveSafety.PersistKeeps | internal/autonomousarchive/coordinator.go:564-591 | Writing the next stage over a disk ready for it keeps the invariant at both writes. |
| ArchiveSafety.EventKeeps | internal/autonomousarchive/coordinator.go:526-543 | Ensuring an event never conflicts and adds at most that event. |
| ArchiveSafety.PublishKeeps | internal/autonomousarchive/coordinator.go:206-237 | Publication writes archive files only and can be resumed anywhere. |
| ArchiveSafety.RemoveKeeps | internal/autonomousarchive/storage.go:388-432 | Removing the active task keeps its bytes at the archived path. |
| ArchiveSafety.CommitKeeps | internal/autonomousarchive/coordinator.go:421-492 | Committing makes the one administrative commit or finds it again at HEAD after an interruption. |
| ArchiveSafety.ReconcileKeeps | internal/autonomousarchive/git.go:166-221 | A commit made before an interruption is proved by HEAD and not repeated. |
| ArchiveSafety.ArchiveKeeps | internal/autonomousarchive/coordinator.go:186-304 | One invocation from any reachable world keeps the invariant; in a quiet repository where the task can be staged it is not refused, and undisturbed it finishes. |
| ArchiveRuns.RollForward | internal/autonomousarchive/coordinator.go:186-304 | After any interruptions and retries: exact task bytes at one path, active file gone only from `files_published` on, history equal to the journal stage or one more, at most one commit, finished archives verify. |
| ArchiveRuns.RetryFinishes | internal/autonomousarchive/coordinator.go:130-304 | A retry rewrites no record, drops no commit and goes back no stage; undisturbed it finishes if and only if the active task can still be staged or the commit is already made. |
| ArchiveRuns.StrandedForever | internal/autonomousarchive/coordinator.go:464-466 | Once staged without a commit, no later invocation finishes while `git add` refuses unmatched paths. |
| ArchiveWindows.StagingCanStrand | internal/autonomousarchive/coordinator.go:459-483 | From an untouched repository, an invocation that stops right after staging leaves an archive no later one finishes. |
| ArchiveWindows.EventCanBeMissed | internal/autonomousarchive/coordinator.go:238-279 | From an untouched repository, for each of stages 2 to 4, one interruption and one undisturbed retry end in a finished archive whose ledger does not verify. |
| ArchiveSafety.StrandedKeeps | internal/autonomousarchive/coordinator.go:421-492 | A stranded archive is refused at the commit and stays stranded. |
| ArchiveRuns.EventFate | internal/autonomousarchive/coordinator.go:238-279 | The event of stage 2, 3 or 4 exists exactly if the stage was reached and no invocation stopped between its journal write and the event. |
| ArchiveRuns.LedgerExactly | internal/autonomousarchive/verify.go:155-184 | No event kind repeats; a finished archive has its first and last event once and its ledger verifies if and only if no invocation stopped in one of the three windows. |
| ArchiveGuards.EntryGuards | internal/autonomousarchive/coordinator.go:130-184 | In every world, a request that conflicts with the journal, its manifest or the repository's state is refused with nothing changed. |
| ArchiveGuards.PublishFrame | internal/autonomousarchive/coordinator.go:206-237 | In every world publication writes the request's files where nothing is and ends with all of them there. |
| ArchiveGuards.RemoveFrame | internal/autonomousarchive/storage.go:388-432 | In every world only the exact task is removed, and only its file. |
| ArchiveGuards.CommitFrame | internal/autonomousarchive/coordinator.go:421-492 | In every world a commit step that succeeds names HEAD, which archives the request; one that does not leaves the branch alone. |
| ArchiveGuards.ArchiveAccounted | internal/autonomousarchive/coordinator.go:130-304 | In every world and wherever it stops: nothing recorded or published is overwritten, the journal only moves to a recorded stage, at most one commit is added, a removed task was exactly the request's and its bytes are archived if and only if publication was ahead or the copy was there, and stage 4 means HEAD archives the request. |
| ArchiveGuards.MissingCopyLosesTask | internal/autonomousarchive/coordinator.go:194-250 | With the journal at `files_published` and the archived copy gone, a retry removes the last copy of the task. |
| ArchiveVerify.VerifyHistory | internal/autonomousarchive/verify.go:134-153 | Accepts exactly five records, each of its own stage and of this operation, the last two naming its commit. |
| ArchiveVerify.VerifyArchiveLedger | internal/autonomousarchive/verify.go:155-184 | Accepts exactly a run completed with the journal's commit and, for each of the five kinds, one event, of this operation. |
| ArchiveRepository.Coordinator.PersistStageRecord | internal/autonomousarchive/coordinator.go:564-591 | Leaves exactly the world and status of the specified stage write. |
| ArchiveRepository.Coordinator.EnsureArchiveEvent | internal/autonomousarchive/coordinator.go:526-543 | The search loop and append compute the specified event step. |
| ArchiveRepository.Coordinator.Publish | internal/autonomousarchive/coordinator.go:206-237 | Computes the specified publication at every stopping point. |
| ArchiveRepository.Coordinator.RemoveExact | internal/autonomousarchive/storage.go:388-432 | Computes the specified removal: only the active task goes, only if it is exactly the request's, and any other content is refused untouched. |
| ArchiveRepository.Coordinator.CommitFiles | internal/autonomousarchive/coordinator.go:421-492 | Computes the specified reconciliation or commit. |
| ArchiveRepository.Coordinator.FinishLedger | internal/autonomousarchive/coordinator.go:281-299 | Computes the specified last stage, event and run completion before the record. |
| ArchiveRepository.Coordinator.ArchiveRequest | internal/autonomousarchive/coordinator.go:130-304 | The whole invocation computes the specified run, keeps the invariant and leaves the archive rolled forward; in every world it obeys the entry guards and is accounted for. |
| Reopen.ValidateExistingReopen | internal/autonomousarchive/reopen.go:213-252 | The loop over tasks decides conflict, clear or recovering exactly by the claims on the archive. |
| Reopen.AttemptKeepsUnique | internal/autonomousarchive/reopen.go:94-176 | A reopen attempt stopped anywhere keeps claims unique. |
| Reopen.HarmlessExactly | internal/autonomous/state.go:1550-1552 | Any other event keeps claims unique if and only if the task or lineage it brings meets no other active claim on the same archive. |
| Reopen.AtMostOneClaim | internal/autonomousarchive/reopen.go:94-252 | Over any history of crashed, retried and competing reopens and other task activity, claims are unique at every moment if and only if every event was harmless. |
| Reopen.AbandonedStateCanClaim | internal/autonomousarchive/reopen.go:213-252 | A task file created by hand over an abandoned reopen's state makes a second claim. |
| Reopen.AttachedLineageCanClaim | internal/autonomous/state.go:1550-1552 | Lineage attached to the state of a second active task makes a second claim. |
| Reopen.ReopenResumes | internal/autonomousarchive/reopen.go:94-211 | Wherever attempts stopped, an unrecorded reopen is refused only for another reopen's event, and a recorded one returns at once. |
| Reopen.ReopenExactly | internal/autonomousarchive/reopen.go:155-177 | From a clean unclaimed repository an uninterrupted reopen succeeds if and only if the ledger holds no other reopen's event; the refused one leaves everything but the event. |
| Reopen.ReopenEventExactly | internal/autonomousarchive/reopen.go:168-175 | The reopened event exists if and only if it did before, or the reopen is recorded, no attempt stopped between record and event, and no earlier reopen had one. |
| Reopen.ReopenEventCanBeMissed | internal/autonomousarchive/reopen.go:168-175 | From a ready repository, stopping after the record leaves a reopen whose retry succeeds without an event. |
| Reopen.ReplayExactly | internal/autonomousarchive/reopen.go:76-92 | In every world a request is replayed if and only if its operation is recorded for the same archive, task and basis and the task and its state are there; a recorded one that differs is refused; neither changes anything. |
| Reopen.ReopenGuards | internal/autonomousarchive/reopen.go:213-252 | In every world, an unreadable state, another claim, a taken identity, another state file, or a dirty or foreign path refuses the reopen with nothing changed. |
| Reopen.ReopenFramed | internal/autonomousarchive/reopen.go:94-178 | In every world and wherever it stops, an attempt adds only its own task, state, record, event and commit, records only over a proved commit, and reports success only with all of them in place. |
| Reopen.SucceedsExactly | internal/autonomousarchive/reopen.go:94-178 | In every world an undisturbed reopen succeeds if and only if it is unrecorded, may begin, and neither HEAD nor the ledger tells of another. |
| ReopenRepository.Reopener.WriteFiles | internal/autonomousarchive/reopen.go:147-158 | State first, then task, as specified. |
| ReopenRepository.Reopener.CommitAndRecord | internal/autonomousarchive/reopen.go:155-211 | Commit, record and event as specified. |
| ReopenRepository.Reopener.ReopenRequest | internal/autonomousarchive/reopen.go:71-178 | The whole request computes the specified run and keeps claims unique; in every world it replays exactly the recorded same reopen, changes nothing when it is recorded or may not begin, writes only its own files, record, event and commit, and succeeds only with all of them in place. |
| Leases.SectionsNeverOverlap | internal/artifactretention/apply.go:563-621 | Over all interleavings no two mutating sections of collection, archive, reopen or direct runs overlap. |
| Leases.SectionHolds | internal/artifactretention/apply.go:563-621 | Which locks each kind of operation holds in its section, exactly. |
| Leases.NoCircularWait | internal/autonomousarchive/coordinator.go:113-128 | No interleaving leads to a circular wait. |
| Leases.NeverStuck | internal/autonomousexec/lease.go:15-39 | While any process exists one of them can move. |
| Ordering.OrderFree | internal/audit/types.go:608-627 | Sorting forgets input order whenever elements the order cannot tell apart are equal. |
| Ordering.CheckUnique | internal/audit/types.go:640-656 | The seen-set loop accepts exactly lists with unique keys. |
| Findings.ValidateFinding | internal/audit/types.go:377-439 | Accepts exactly findings with a hyphenated id, known significance, citations of known files by their own artifact and digest at lines they have, cited unique files and symbols, and unique known criteria with known impacts. |
| Findings.CheckCitations | internal/audit/types.go:390-409 | The citation loop accepts exactly valid citations and collects exactly the cited files and symbols. |
| Findings.NormalizeFinding | internal/audit/types.go:608-627 | Produces a sorted copy of all four lists and changes nothing else. |
| Findings.CitationsTotal | internal/audit/types.go:392-396 | Validation makes the citation sort key total up to equality. |
| Findings.FindingOrderFree | internal/audit/types.go:372-375 | The canonical form of a valid finding does not depend on the order of its lists. |
| Findings.UncheckedCitationsDiffer | internal/audit/types.go:613-622 | Without the artifact check the canonical form would depend on order. |
| Findings.EntriesOrderFree | internal/audit/types.go:585-605 | Permuting files, and symbols within files, leaves the normalized list unchanged. |
| Findings.DossierInputOrderFree | internal/audit/types.go:580-606 | The canonical dossier input does not depend on the order of files, sources, symbols, edges or prior findings. |
| Findings.NormalizeInput | internal/audit/types.go:580-606 | Produces a normalized copy. |
| TaskDossier.ValidateAndSortRuns | internal/autonomous/dossier.go:397-457 | Accepts exactly run lists with unique ids, this task, an action's own profile, and ordered times, and returns them newest first. |
| TaskDossier.RunsOrderFree | internal/autonomous/dossier.go:450-455 | The canonical run list, and the newest kept under any limit, do not depend on input order. |
| TaskDossier.ValidateAndSortSources | internal/autonomous/dossier.go:459-535 | Accepts exactly guidance (text) or receipt (nonempty) lists with unique ids and paths and returns them sorted. |
| TaskDossier.SourcesOrderFree | internal/autonomous/dossier.go:492-533 | The canonical source list does not depend on input order. |
| TaskDossier.ValidateAssessment | internal/autonomous/optional_role.go:178-231 | Accepts exactly assessments whose evidence is current and of the role, and whose selection is known, unique and supports the disposition. |
| TaskDossier.AssessmentOrderFree | internal/autonomous/optional_role.go:233-261 | The identity's canonical form does not depend on the order of evidence or selections. |
| FindingIds.ScannedIffMatches | internal/autonomous/contracts.go:719-734 | The scanner's character test accepts exactly words joined by single hyphens, the first beginning with a letter. |
| FindingIds.ValidFindingId | internal/autonomous/contracts.go:719-734 | The scanning loop decides the language of the regular expression: lower-case letters, digits and single inner hyphens, a letter first. |
| FindingIds.ValidateFindingIds | internal/autonomous/contracts.go:705-717 | Accepts exactly lists of well-formed ids without repetition. |
| Corrections.CheckPartition | internal/autonomous/correction.go:91-107 | The count map accepts exactly when resolved and remaining are disjoint with union the cited findings. |
| Corrections.ValidateCorrection | internal/autonomous/correction.go:75-132 | Accepts exactly outputs that answer for each cited finding once and for nothing else, or for a well-formed failure and no finding, with a fitting outcome. |
| Corrections.OutcomeMeaning | internal/autonomous/correction.go:116-129 | Corrected means all findings resolved, failed none, partial some remaining. |

## Left out

- File modes, links, fsync, path cleaning and temporary files: each write, rename and removal is one atomic step.
- SHA-256, JSON and gzip: uninterpreted, with the assumptions named above; format checks on text, digests and times are dropped or kept as nonemptiness.
- Garbage collection: the authority check before each action, lease checks, read errors and the stale-plan check at admission are stopping points rather than computed; the ledger export is a set of verified identities.
- Garbage collection: a manifest that names another planned artifact's gz is treated like one that names a file outside the plan; several operations after one another are not modelled.
- Byte sums in the planner are unbounded integers; only the attempt counters are modelled in 64-bit arithmetic.
- Inventory's walk over the ledger, pin collection and the search for control references: candidates and pins are inputs.
- Execution state: optional-role occurrences and workspace evidence (append-only lists once more), and the record formats of questions, answers and resumes beyond identities, numbers and options; the current question's decision is compared by its id.
- Archive: preparing the manifest from task, state and ledger is a fixed result; unrelated dirty paths, other archives, secrets and active writers are one condition of the invocation; a Git command that fails is one refusal, and of its reasons only the unmatched path is computed.
- Archive verification other than history and ledger: commit content, completion evidence and lineage detail.
- Reopen: verification of the archive before reopening is assumed to have passed, and projecting the archived task is a fixed result.
- Leases: lock files are exclusive locks freed when their process ends; inner locks a direct run takes besides Git administration are not modelled.
- Child publication, finalization, workspaces, queue, daemon, database, prompts, schemas and rendering are not part of this model.
