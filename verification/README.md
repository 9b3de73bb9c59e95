# A verified model of AIFactory's build engine

This project models, in Dafny, the parts of AIFactory that decide what a build may run, what counts as done, and what
counts as proof, and proves what those parts promise.

- **Wave engine.** `ImplementationPlan`, `WaveScheduler`, `ParallelRunner`, `ParallelIntegration`, `CompletionGate` and
  `Coder` follow the source step by step: subtask objects and the canonical plan are updated in place, waves are selected
  first-fit, sessions run, merges and gates are sequential. `WaveRun` gives a run a meaning as a value (its list of
  waves), and the runner is proved to perform such a run. `WaveLaws` and `IntegrationLaws` then prove what holds of every
  run, for every answer of the outside world: order, safety, progress, accounting, bounds, the canonical plan.
  `AnswerLaws` says it of the answers themselves: who is merged, gated, reported and COMPLETED.
- **Plan admission.** `DependencyGraph` (three-colour depth-first search) and `PlanCompleteness` (the checklist), tied to
  the wave engine in `Admission`: when does an accepted plan run to the end? `TrustedPlan` is signing, verification and key
  rotation, over the plan texts of `JsonText`.
- **Import closure.** `ImportClosure`: the worklist behind the label "deterministic".
- **Inbox.** `Inbox`: posters, drainers and lock-free readers as interleaved steps, with crashes, lock timeouts and failed
  writes.
- **Guardrails.** `Guardrails`: counters of a turn against the full history of its calls.
- **Parsers and records.** `UnifiedDiff`, `LineBreaks`, `SecurityReviewer` and `DiffText` (scanning a diff, as lines and as
  the text the lines come in), `GateRunner` and `GateEvidence` (gate results printed, stored, bound to a tree, read back),
  `Mentions`.
- **Counting gates.** `Ratchet`, `PairCount`, `PlanProgress`, `Allowlist`.

`Basics` and `Text` hold stock helpers. `dafny verify dfyconfig.toml` checks everything.

## How to read it

Methods and classes are the source's loops and objects; each is proved against a specification function or predicate, and
the lemmas named below are about that specification. What a definition computes, where a method and its specification share
it, is said again by a lemma without that definition (names that end in `Iff`, `Is` or `Are`): by its inputs, literals
and positions alone. The outside world (sessions, merges, gate answers, git, the linter,
HMAC, cosine similarity, regular expressions of rules) enters as arbitrary functions or parameters, so every statement
holds whatever they answer.

## Where the code does not do what its documentation says

Each is stated as an exact condition or shown by a lemma with an instance.

- A plan that passes the completeness check can still stall: a dependency on a subtask of another phase never becomes
  complete inside the wave runner, which only looks at its own phase. `CompletePhaseSucceedsIff` gives the exact
  condition, `AcceptedPlanStalls` a plan of two subtasks.
- The coder's parallel step says a phase was "handled" whenever any of its subtasks is complete, also when this run
  completed none. `HandledMeansProgressIff` gives the exact condition, `HandledWithoutProgress` a phase and its run.
- A completion hook whose bookkeeping fails before the gate is asked answers "complete": the runner then reports a subtask
  complete that no gate has seen and that the plan does not list as COMPLETED. `ReportMatchesPlanIff` gives the exact
  condition, `CompleteWithoutGate` a run.
- A stalled or failing phase is meant to fall back to one subtask at a time. A run that raises is swallowed, and its phase
  stays enabled even if its earlier waves failed (`MaybeRunParallelPhase`).
- `before_call` tests the tool's failure count, but that test can never fire: the call that reaches the threshold has
  already halted the turn (`NotHaltedMeansBelow`).
- Draining is exactly-once only for a drain that comes back: one that is killed, or cannot unlock, between replacing the
  file and returning has marked its messages read and returns none of them. `DeliveredExactlyOnceIff` and
  `LostIffLossStep` give the exact condition, `LossAfterReplace` the two runs. Without `flock` the lock is a no-op, and two
  drains can return the same message (`WithoutLockDeliveredTwice`).
- The diff scanner splits its text at every line break Python knows, not only at line feeds. A form feed or a Unicode
  separator inside a line of the diff cuts it: of an added line the rest is not scanned (`FormFeedHidesAFinding`), and
  after any other line the numbers shift. `TextRead` gives the exact condition for every diff, `PlainTextReadIff` the same
  line by line. The scanner also loses an added line whose text begins with "++ ", misnumbers lines added after a
  "\ No newline" marker of the same hunk, and lets a range-like pattern in a section heading override the header's own
  range, and strips outer white space from file names (`DiffRead`). A carriage return that closes a line is dropped and does
  no other harm (`ChoppedTextRead`).
- A gate name with a colon spoils the summary when it is read back; a comma does not (`SummaryReadsBackIff`).
- The gate marker is bound to the HEAD that is read after the gates have run: a commit made meanwhile takes over their
  result. `EvidenceRanHereIff` gives the exact condition over runs, `CommitDuringGates` an instance;
  `EvidenceRanOnThisTree` says what holds when no gate step moves HEAD.
- The key-variable separator is unambiguous only for an authority that neither holds a double underscore nor ends in an
  underscore (`KeyedVariableReadsBackIff`).
- A signature covers its fields joined by bars, and does not always cover where one field ends. `SignedAloneIff` gives the
  exact condition: no bar inside the approver (one at its beginning does no harm) or the time (one at its end does none),
  and no bar-separated part of the key id that is "1" or "2" and stands last or before a non-empty rest. `TwoReadings` has
  an instance with a bar in the key id, and one without any: key id "2".
- The ratchet judges the base side of a moved file under the rules of its new path, and looks for renames everywhere: a
  move to a stricter path, or from outside the scope, raises the total and is accepted (`PureMoveRisesIff`,
  `MoveFromOutsideIsAccepted`). It also splits git's list at white space, so a changed file with white space in its name is
  not checked at all (`CheckedIff`, `SpacedNameIsNotChecked`).

## Model

| member | source | states |
|---|---|---|
| `WaveScheduler.SelectReadyWave` | apps/backend/implementation_plan/scheduler.py:151-203 | the loop returns the first-fit wave: plan order, only ready members, none in conflict with one reserved before it or in flight, and every position passed over could not have joined |
| `WaveScheduler.ChosenIff` | apps/backend/implementation_plan/scheduler.py:82-203 | position by position: in the wave if and only if pending, not completed, with completed dependencies, a slot left by earlier choices, and no id or file, all footprints known, shared with one in flight or chosen before |
| `WaveScheduler.WaveMembersAreCompatible` | apps/backend/implementation_plan/scheduler.py:82-92 | two members of one wave have known, disjoint files and do not depend on each other |
| `WaveScheduler.EmptyWaveIffNothingReady` | apps/backend/implementation_plan/scheduler.py:151-203 | with a free slot and nothing in flight, no wave is formed if and only if no subtask is ready |
| `WaveScheduler.WaveIsDetermined` | apps/backend/implementation_plan/scheduler.py:172-203 | first-fit leaves no choice: two waves selected from the same inputs are equal |
| `ParallelRunner.RunParallelPhase` | apps/backend/agents/parallel_runner.py:96-239 | the loop terminates; its statuses, report, canonical plan, order of hook calls and metadata errors are those of a run of the phase and of the way that run ends; when the announcement of a wave raises, they are those of the waves before it, and there is no report |
| `ParallelRunner.SettleMember` | apps/backend/agents/parallel_runner.py:172-219 | one member after its session: merge only after success, completion asked only after the merge, completed only when accepted, otherwise failed |
| `WaveLaws.NoSubtaskStartsTwice` | apps/backend/agents/parallel_runner.py:146-150 | only pending subtasks start, and none starts in two waves: a lost one is never retried in the phase |
| `WaveLaws.DependenciesCompleteFirst` | apps/backend/agents/parallel_runner.py:146-219 | in every run each dependency of a started subtask was complete before the phase or was accepted in an earlier wave |
| `WaveLaws.WavesAreSafe` | apps/backend/agents/parallel_runner.py:20-23 | every wave of every run has at most `workers` members, pairwise on disjoint known files |
| `WaveLaws.StuckNeverStarts` | apps/backend/agents/parallel_runner.py:132-134 | a set of unfinished subtasks each waiting for a member of the set, or for an id that is never completed, never starts |
| `WaveLaws.CyclicNeverStarts` | apps/backend/agents/parallel_runner.py:132-134 | nothing on a dependency cycle, or leading into one through unfinished subtasks, ever starts |
| `WaveLaws.DependentsOfLostNeverStart` | apps/backend/agents/parallel_runner.py:174-207 | nothing that depends, through any chain, on a subtask that failed ever starts |
| `WaveLaws.CycleAlwaysStalls` | apps/backend/agents/parallel_runner.py:152-164 | a phase with an uncompleted cycle always ends stalled |
| `WaveLaws.EveryIdIsAccountedFor` | apps/backend/agents/parallel_runner.py:140-239 | every id is completed, failed or remaining; the three are disjoint, except that remaining holds failed ids on a no-progress exit |
| `WaveLaws.OkIffAllComplete` | apps/backend/agents/parallel_runner.py:84-87 | `ok` holds if and only if every subtask is complete |
| `WaveLaws.EndedRunIsMaximal` | apps/backend/agents/parallel_runner.py:140-235 | a run that has ended cannot be continued by another wave |
| `WaveLaws.OutcomeExists` | apps/backend/agents/parallel_runner.py:140-239 | whatever the hooks answer, a phase has a run that ends, with a report |
| `WaveLaws.OutcomeIsDetermined` | apps/backend/agents/parallel_runner.py:140-239 | the verdicts of the hooks determine the waves and the ending of a phase |
| `WaveLaws.WaveSizesAddUp` | apps/backend/agents/parallel_runner.py:140-219 | no wave is empty and the wave sizes sum to the number started, at most the number unfinished |
| `WaveLaws.WaveBounds` | apps/backend/agents/parallel_runner.py:140-239 | waves are at most the unfinished count n, and an ok run has workers * waves >= n |
| `WaveLaws.ChainBound` | apps/backend/agents/parallel_runner.py:140-239 | an ok run has at least as many waves as the longest chain of unfinished dependencies |
| `WaveLaws.SucceedsIffSchedulable` | apps/backend/agents/parallel_runner.py:132-164 | when nothing fails, a phase ends ok if and only if its unfinished subtasks are pending and their dependencies can be ranked within the phase |
| `ParallelIntegration.PhaseHooks.RunSubtask` | apps/backend/agents/parallel_integration.py:504-743 | a session leaves the canonical plan alone and succeeds if and only if it returned without an error, nothing after it raised, and git metadata is clean; evidence and metadata error stay recorded when a later step raises |
| `ParallelIntegration.PhaseHooks.MergeSubtask` | apps/backend/agents/parallel_integration.py:768-783 | a failed merge puts the id back to PENDING |
| `ParallelIntegration.PhaseHooks.GatedMarkComplete` | apps/backend/agents/parallel_integration.py:70-115 | COMPLETED is written only when no gate refused or raised |
| `ParallelIntegration.PhaseHooks.MarkComplete` | apps/backend/agents/parallel_integration.py:785-826 | completion uses the child's evidence, else the shared ledger's; a refusal or gate error puts the id back to PENDING; a bookkeeping error before the gate answers "complete" and writes nothing |
| `AnswerLaws.VerdictIff` | apps/backend/agents/parallel_integration.py:504-826 | which of the five verdicts a subtask gets, said of the answers of session, git, merge, bookkeeping, gates and test evidence |
| `AnswerLaws.HooksCalledIff` | apps/backend/agents/parallel_runner.py:165-219 | over any run, a merge is tried if and only if the session was started, returned cleanly and left git metadata unchanged, and completion is asked for if and only if it also merged |
| `AnswerLaws.ReportedIff` | apps/backend/agents/parallel_runner.py:165-239 | over any run, who is reported complete and who failed, said of the answers alone |
| `AnswerLaws.PlanSays` | apps/backend/agents/parallel_integration.py:745-826 | when writes persist, which started subtask the canonical plan has as COMPLETED, PENDING or IN_PROGRESS, said of the answers alone |
| `AnswerLaws.TamperedIsNeverMerged` | apps/backend/agents/parallel_integration.py:608-617 | a session that changed git metadata is never merged, gated or reported complete |
| `AnswerLaws.BuildEndsIff` | apps/backend/agents/parallel_integration.py:850-853 | a metadata error is collected, which ends the build, if and only if a started session ran to its end and changed git metadata |
| `IntegrationLaws.PlanAfterRun` | apps/backend/agents/parallel_integration.py:745-826 | after any run a started id has the status its verdict gives it and an unstarted one is untouched |
| `IntegrationLaws.OtherPhasesUntouched` | apps/backend/agents/parallel_integration.py:404-428 | ids outside the phase keep their status, whatever is written |
| `IntegrationLaws.NewlyCompletedIffAccepted` | apps/backend/agents/completion_gate.py:61-146 | an id is newly COMPLETED in the plan if and only if session, merge and completion gate all accepted; after a failed merge or a refusal it is PENDING |
| `IntegrationLaws.ReportMatchesPlanIff` | apps/backend/agents/parallel_integration.py:794-805 | report and plan agree on whether a subtask is complete if and only if the bookkeeping did not fail before its gate was asked |
| `IntegrationLaws.CompleteWithoutGate` | apps/backend/agents/parallel_integration.py:794-805 | one pending subtask whose bookkeeping fails: the run ends ok and reports it complete, and the plan says IN_PROGRESS |
| `IntegrationLaws.AcceptedInOrder` | apps/backend/agents/parallel_runner.py:165-219 | an accepted id had its session, then its merge, then its completion gate |
| `IntegrationLaws.DependencyAcceptedBeforeSession` | apps/backend/agents/parallel_runner.py:146-219 | each unfinished dependency was accepted before the session of its dependent ran |
| `Coder.IsPhaseParallelEligible` | apps/backend/agents/parallel_runner.py:252-289 | eligible if and only if there is more than one worker and two pending subtasks that the plan declares, or the footprints prove, independent |
| `Coder.EligibleIff` | apps/backend/agents/parallel_runner.py:252-289 | eligible means: more than one worker, and two pending subtasks that the plan declares safe, or that do not depend on each other and have known, disjoint files |
| `Coder.Coder.MaybeRunParallelPhase` | apps/backend/agents/coder.py:1454-1531 | a phase is sent if and only if it is loaded, owned, not disabled and eligible; one that came back stalled or failed in part is disabled and never sent again; a tampered session ends the build; a run that raises is swallowed, whatever its waves did, and the phase stays enabled |
| `Coder.HandledMeansProgressIff` | apps/backend/agents/coder.py:1470-1531 | "handled" agrees with "this run completed a subtask" if and only if it completed one or none was COMPLETED before |
| `Coder.HandledWithoutProgress` | apps/backend/agents/coder.py:1530-1531 | a finished subtask and two independent ones that fail: eligible, run in one wave, handled, no progress |
| `DependencyGraph.IsAcyclic` | apps/backend/trusted_plan.py:392-409 | terminates; True comes with a topological order from the blackening order, False with a real cycle on the grey path |
| `DependencyGraph.DepthFirst.Visit` | apps/backend/trusted_plan.py:397-407 | the recursion blackens its node after all its known dependencies, or finds a cycle |
| `DependencyGraph.TopologicalOrderExcludesCycles` | apps/backend/trusted_plan.py:392-409 | a topological order rules out every cycle, self-loops included |
| `DependencyGraph.AcyclicIffOrdered` | apps/backend/trusted_plan.py:392-409 | the graph restricted to known nodes is acyclic if and only if it has a topological order |
| `PlanCompleteness.CheckPlanCompleteness` | apps/backend/trusted_plan.py:319-389 | accepts if and only if the plan has every part, ids are unique, dependencies are known and there is no cycle; the reasons are listed in order |
| `PlanCompleteness.ChecklistIff` | apps/backend/trusted_plan.py:319-389 | the checklist said of the records alone: parts present, good records, distinct ids over all phases, dependencies on other records, no circle of records |
| `PlanCompleteness.ComplaintIff` | apps/backend/trusted_plan.py:328-389 | which reasons the check gives: each is given if and only if what it says is so |
| `PlanCompleteness.CompletePhaseSucceedsIff` | apps/backend/trusted_plan.py:319-389 | when nothing fails, a phase of an accepted plan runs to ok if and only if its unfinished subtasks are pending and none depends on another phase |
| `PlanCompleteness.SinglePhasePlanSucceeds` | apps/backend/trusted_plan.py:319-389 | an accepted plan of one phase runs to ok, when every session, merge and gate succeeds, if and only if its unfinished subtasks are pending |
| `PlanCompleteness.AcceptedPlanStalls` | apps/backend/trusted_plan.py:319-389 | two phases of one subtask each, the second depending on the first: accepted, nothing fails, and the second phase stalls at once |
| `Admission.RunIfComplete` | apps/backend/trusted_plan.py:319-389 | a plan is run if and only if it is complete; with all-accepting answers the runner's result is ok exactly under that condition, and for one phase exactly when its unfinished subtasks are pending |
| `TrustedPlan.LoadKeyring` | apps/backend/trusted_plan.py:111-138 | the loop builds the keyring that the entries of the variables define, later ones winning |
| `TrustedPlan.AuthorityIs` | apps/backend/trusted_plan.py:126-138 | a variable whose stripped, folded name has no double underscore registers under that name, unless it is empty |
| `TrustedPlan.KeyedIs` | apps/backend/trusted_plan.py:132-138 | else the first double underscore ends the authority and the rest is the key id; both are stripped, and neither may be blank |
| `TrustedPlan.KeyedVariableReadsBackIff` | apps/backend/trusted_plan.py:125-138 | a keyed variable, in any case, registers under authority/kid if and only if the authority has no double underscore and no trailing underscore |
| `TrustedPlan.LegacyVariableReadsBack` | apps/backend/trusted_plan.py:125-138 | a variable without a key id registers under its authority |
| `TrustedPlan.RetireReadsBack` | apps/backend/trusted_plan.py:141-149 | appending a token to the retired list retires that token and nothing else |
| `TrustedPlan.RetiredAre` | apps/backend/trusted_plan.py:141-149 | the retired tokens are the non-blank parts of the list, stripped and folded |
| `TrustedPlan.VerifyIff` | apps/backend/trusted_plan.py:225-311 | a plan verifies if and only if its envelope is whole and supported, its key id is not retired, and the envelope is what signing with the keyring's key gives |
| `TrustedPlan.VerdictIs` | apps/backend/trusted_plan.py:225-311 | every outcome of verification and the order of its tests, said of the envelope, the folded approver and key id, keyring, retired tokens and the digest of the joined text |
| `JsonText.RenderedObject` | apps/backend/trusted_plan.py:162-164 | the canonical text of any object is closed by its last character and not before, whatever its strings hold |
| `JsonText.ObjectTextsAreApart` | apps/backend/trusted_plan.py:162-164 | so no such text is a proper beginning of another |
| `TrustedPlan.DeterminedIff` | apps/backend/trusted_plan.py:180-188 | joined supported metadata determines approver, time, version and key id if and only if no bar stands inside the approver (after its first character) or the time (before its last), and no part of the key id can be taken for a version |
| `TrustedPlan.SignedAloneIff` | apps/backend/trusted_plan.py:167-188 | the signed bytes belong to no other plan and supported metadata, key id included, under exactly that condition |
| `TrustedPlan.TwoReadings` | apps/backend/trusted_plan.py:174-188 | two payloads with a second reading: one whose key id holds a bar, and one whose key id is "2" and that holds none at all |
| `TrustedPlan.AcceptedMeansSigned` | apps/backend/trusted_plan.py:257-311 | tamper evidence, for any digest: a plan that verifies with a signature made for metadata with one reading is the plan and envelope that were signed, key id included, unless these two keyed texts differ and have the same digest |
| `TrustedPlan.TamperEvidenceApplies` | apps/backend/trusted_plan.py:191-311 | whatever the digest, a signed plan that verifies and meets every premise of that theorem exists |
| `TrustedPlan.KidCannotBeSwapped` | apps/backend/trusted_plan.py:174-178 | a signature under one key id verifies under another only if the digest of the other payload, which differs, is the same |
| `TrustedPlan.RetiringOnlyRejects` | apps/backend/trusted_plan.py:225-254 | retiring more never accepts what was rejected |
| `TrustedPlan.AddingOnlyAccepts` | apps/backend/trusted_plan.py:111-138 | a new variable that registers under a fresh id never rejects what was accepted |
| `TrustedPlan.ApprovedVerifiesUntilRetired` | apps/backend/trusted_plan.py:26-43 | through any rotation in the documented order, a plan approved at any point verifies if and only if its key id is not retired |
| `TrustedPlan.CurrentSignerVerifies` | apps/backend/trusted_plan.py:42-43 | at every point of a rotation what the current signer signs verifies |
| `TrustedPlan.RetiredForGood` | apps/backend/trusted_plan.py:37-39 | no later step of a rotation brings a retired key id back |
| `TrustedPlan.DocumentedRotation` | apps/backend/trusted_plan.py:42-43 | adding a fresh key, moving the signer and retiring the old key id is such a rotation, and retires exactly that id |
| `TrustedPlan.LegacyDeploymentIsSound` | apps/backend/trusted_plan.py:34-36 | a deployment with one legacy key is a state rotations can begin in |
| `ImportClosure.ClosureOf` | scripts/gen_autonomy_matrix.py:551-592 | terminates; the local set is exactly the resolvable modules reachable from the entry, names the union of their imports, each dynamic import listed once |
| `ImportClosure.ClosureSeesClients` | scripts/gen_autonomy_matrix.py:725-739 | the names of a closure hold a pinned client if and only if some import path reaches one |
| `ImportClosure.ClosureSeesDynamic` | scripts/gen_autonomy_matrix.py:534-592 | the closure lists a dynamic import if and only if some import path reaches one |
| `ImportClosure.EntryLabel` | scripts/gen_autonomy_matrix.py:691-739 | "deterministic" if and only if no import path of any length, the spawned script's included, reaches a client or a dynamic import |
| `ImportClosure.IsClientIff` | scripts/gen_autonomy_matrix.py:478-487 | a client is one of eight packages, or a dotted name inside one |
| `ImportClosure.InsideAClientIsReached` | scripts/gen_autonomy_matrix.py:725-728 | a reachable module that imports a client's package or anything inside it is enough for "model-assisted" |
| `Inbox.RunKeepsInv` | apps/backend/agents/inbox.py:48-84 | every interleaving of posts, drains and reads, with timeouts, failed reads, writes and unlocks, and kills, keeps the protocol's invariant |
| `Inbox.PostedExactlyOnce` | apps/backend/agents/inbox.py:169-191 | a post that returned, or whose unlock failed, has appended its message once; one that raised before left nothing |
| `Inbox.DeliveredExactlyOnceIff` | apps/backend/agents/inbox.py:126-148 | when every call is over, each message is unread and returned by nobody, or returned by exactly one drain, if and only if its taker was neither killed nor unable to unlock after the replace |
| `Inbox.TakenExactlyOnce` | apps/backend/agents/inbox.py:126-148 | each message is unread in the file and taken by nobody, or read and taken by exactly one drain |
| `Inbox.NeverReturnedTwice` | apps/backend/agents/inbox.py:126-148 | at any moment no message is returned twice, and a read one is about to be returned, returned or lost |
| `Inbox.LostIffLossStep` | apps/backend/agents/inbox.py:73-84 | a message is lost if and only if the schedule kills its drain, or fails its unlock, between replace and return |
| `Inbox.LossAfterReplace` | apps/backend/agents/inbox.py:136-148 | the two shortest such runs: the message is read in the file and no call returned it |
| `Inbox.ReturnedIsTaken` | apps/backend/agents/inbox.py:126-148 | a returned drain has returned exactly what it took, in file order; one that gave up returns and takes nothing |
| `Inbox.PeekSeesACommittedList` | apps/backend/agents/inbox.py:97-123 | a lock-free read sees a list that was committed at some moment |
| `Inbox.WithoutLockDeliveredTwice` | apps/backend/agents/inbox.py:56-84 | with the lock a no-op, two drains run to their end and both return the same message |
| `Inbox.DrainNeverRaises` | apps/backend/agents/inbox.py:126-148 | a drain never raises, whatever fails around it |
| `Inbox.NeverStuck` | apps/backend/agents/inbox.py:48-84 | while a call is not over some call can go on without a failure: there is no deadlock, whoever was killed or timed out |
| `Inbox.RunIsShort` | apps/backend/agents/inbox.py:48-191 | a run has at most four steps for each call |
| `Inbox.RunCanEnd` | apps/backend/agents/inbox.py:48-191 | from wherever a run has come, kills and failures included, it can be carried to its end without another failure |
| `Guardrails.ToolCallGuardrailController.BeforeCall` | apps/backend/agents/guardrails.py:132-165 | the verdict before a call is the one the full history defines |
| `Guardrails.ToolCallGuardrailController.AfterCall` | apps/backend/agents/guardrails.py:167-205 | the counters and the halt go on agreeing with the full history, and so does the verdict |
| `Guardrails.BeforeVerdictIs` | apps/backend/agents/guardrails.py:132-165 | the verdict before a call, from the last N calls of its signature and their last N successes |
| `Guardrails.AfterVerdictIs` | apps/backend/agents/guardrails.py:167-205 | the verdict after a call, from the last calls of its signature and of its tool |
| `Guardrails.HaltedIff` | apps/backend/agents/guardrails.py:191-205 | halted if and only if at some point a failing call left the last M calls of its tool all failed |
| `Guardrails.NotHaltedMeansBelow` | apps/backend/agents/guardrails.py:132-165 | while the turn is not halted every tool is below its threshold |
| `Guardrails.HaltIsFinal` | apps/backend/agents/guardrails.py:203-205 | a halt is never undone |
| `Guardrails.CountersStayWithinLimits` | apps/backend/agents/guardrails.py:108-205 | in a run where every executed call was allowed, no counter exceeds its threshold |
| `Guardrails.HaltEndsTheRun` | apps/backend/agents/guardrails.py:132-205 | such a run is halted if and only if some tool reached its threshold, and only its last call can have done so |
| `Guardrails.RefusedNeverRuns` | apps/backend/agents/guardrails.py:132-165 | a call that is refused once never runs again in the turn, and its counters stand still |
| `Guardrails.FailingRunIsShort` | apps/backend/agents/guardrails.py:167-205 | a run over T tools without a success executes at most T*(M-1)+1 calls |
| `SecurityReviewer.IterAddedLines` | apps/backend/agents/security_reviewer.py:99-120 | splitting the text and looping over its lines yields the items of the scan it defines, for any text |
| `SecurityReviewer.ScanConcat` | apps/backend/agents/security_reviewer.py:99-120 | scanning is compositional over any split of the lines |
| `SecurityReviewer.HunkStartIs` | apps/backend/agents/security_reviewer.py:95-113 | what the greedy pattern captures on any line: the number of the last range, with or without a count, after the leading "@@ " |
| `SecurityReviewer.HeaderReadsBack` | apps/backend/agents/security_reviewer.py:95-120 | the greedy pattern finds the new-file start line of any printed header with a plain section heading |
| `SecurityReviewer.DiffRead` | apps/backend/agents/security_reviewer.py:99-120 | over the lines of a diff, any files and hunks, names closed by a tab included: the scan is exactly its added lines with their true numbers if and only if every hunk is legible and, where it adds lines, its file is named as the scanner strips it |
| `SecurityReviewer.PlainDiffReadIff` | apps/backend/agents/security_reviewer.py:95-120 | over the lines, with plain section headings, that is, for each added line: its text does not begin with "++ ", no no-newline marker precedes it in its hunk, and stripping does not change the name of its file |
| `UnifiedDiff.AddedAreInPlace` | apps/backend/agents/security_reviewer.py:99-120 | what "its true number" means: each added line stands at that place of the new file, in order, under the file's name |
| `UnifiedDiff.PathIsRead` | apps/backend/agents/security_reviewer.py:104-107 | a path printed with git's "b/" is found again |
| `SecurityReviewer.ScanOfConcatenatedDiffs` | apps/backend/agents/security_reviewer.py:99-120 | over lines, scanning concatenated diffs is concatenating their scans |
| `SecurityReviewer.ScanDiffStatic` | apps/backend/agents/security_reviewer.py:123-139 | the findings are those of every rule that matches, item by item in order |
| `LineBreaks.SplitOfJoin` | apps/backend/agents/security_reviewer.py:103 | printed lines are split into the pieces of each, none reaching into the next |
| `LineBreaks.SplitsAt` | apps/backend/agents/security_reviewer.py:103 | all of `str.splitlines`: ten break characters, a carriage return takes a following line feed along |
| `DiffText.TextRead` | apps/backend/agents/security_reviewer.py:99-120 | for the text of any diff: the scan is exactly its added lines with their files and numbers if and only if, walking the printed lines, each added line is one piece, no header and met at its own number, and no other piece looks like an added line |
| `DiffText.TextReadIffLegible` | apps/backend/agents/security_reviewer.py:99-120 | when no line holds a line break, that is: every hunk is legible and, where it adds lines, its file is named as stripped |
| `DiffText.PlainTextReadIff` | apps/backend/agents/security_reviewer.py:95-120 | with plain heads and headings, that is: stripping does not change the name of a file that gains lines, no added text begins with "++ " or holds a line break, nothing before an added line of the hunk is counted too much, and no remnant looks like an added line |
| `DiffText.FormFeedHidesAFinding` | apps/backend/agents/security_reviewer.py:103 | an added line with a form feed: legible, matched by a rule, read only up to the form feed, and let through by the gate |
| `DiffText.StaticScanConcat` | apps/backend/agents/security_reviewer.py:123-139 | the static scan of the text of concatenated file diffs is the concatenation of their scans, whatever their hunks hold |
| `DiffText.ChoppedTextRead` | apps/backend/agents/security_reviewer.py:99-120 | a carriage return that closes a line of a hunk is dropped and does no other harm: the exact condition for any text, up to those |
| `DiffText.GateBlocksIff` | apps/backend/agents/security_reviewer.py:142-158 | the gate blocks the text of a diff that, up to closing carriage returns, is read as it is meant if and only if some added line matches a rule at or above the threshold |
| `SecurityReviewer.SeverityOrder` | apps/backend/agents/security_reviewer.py:35-37 | "info" < "low" < "medium" < "high" < "critical"; nothing reaches an unknown threshold, and an unknown severity only "info" |
| `DiffText.GateAtHighIff` | apps/backend/agents/security_reviewer.py:142-158 | at the default threshold: blocked if and only if some added line matches a rule of severity "high" or "critical" |
| `DiffText.ReportedAre` | apps/backend/agents/security_reviewer.py:123-139 | the findings of such a text are exactly the matches: severity, category, file, number, and the first 200 characters of the stripped line |
| `GateRunner.RunGates` | apps/backend/agents/gate_runner.py:657-711 | one result a gate, in order: skipped without an exit code or with the gate's skip code, passed with exit 0, failed otherwise |
| `GateRunner.SkippedLintersAre` | apps/backend/agents/coder.py:1378-1388 | the linters listed as skipped are those no gate ran for ("eslint" runs as "lint"), as often as CI names them and in its order |
| `GateRunner.SummaryReadsBackIff` | apps/backend/agents/gate_runner.py:714-716 | parsing a printed summary gives back the statuses if and only if no gate name has a colon |
| `GateRunner.ExecutedMeansNotAllSkipped` | apps/backend/agents/gate_runner.py:925-954 | for such names, "executed" holds if and only if some gate was not skipped and the first name does not begin like the no-gates sentence |
| `GateRunner.FailureMeansAFailingGate` | apps/backend/agents/gate_runner.py:957-961 | for such names, "failure" holds if and only if some gate failed |
| `GateEvidence.EvidenceReadsBackIffBound` | apps/backend/agents/gate_runner.py:831-912 | a stored marker gives its evidence back if and only if its HEAD is bound to the tree it is read against |
| `GateEvidence.MarkerReadsBackIff` | apps/backend/agents/gate_runner.py:831-912 | the same spelled out: the text of the marker, whose HEAD is compared, and the four ways to be bound |
| `GateEvidence.EvidenceIsAboutThisTree` | apps/backend/agents/gate_runner.py:846-912 | over any run of commits, gate runs and marker copies, returned evidence was recorded at the current HEAD, or a branch tip when there is no worktree, or at an unknown HEAD |
| `GateEvidence.EvidenceRanOnThisTree` | apps/backend/agents/gate_runner.py:846-912 | over any run in which no gate step moves HEAD, returned evidence was produced by gates that ran on the tree it is returned for (as far as the HEADs are known) |
| `GateEvidence.EvidenceRanHereIff` | apps/backend/agents/gate_runner.py:831-843 | over any run, evidence returned for a readable worktree from a marker with a HEAD was produced on that HEAD, or an unknown one, if and only if the gate step that wrote it did not move HEAD |
| `GateEvidence.CommitDuringGates` | apps/backend/agents/coder.py:1378-1435 | a commit while the gates run: their evidence is returned for a HEAD they did not run on |
| `GateEvidence.GateStepSettles` | apps/backend/agents/coder.py:1272-1308 | after a gate step on a finished plan the marker is current, unless the step raised: then nothing is recorded and the next step on the same tree runs again |
| `GateEvidence.RunOncePerTree` | apps/backend/agents/coder.py:1294-1308 | until the tree moves or another marker arrives, the gates of a settled build never run again |
| `GateEvidence.NewCommitRunsAgain` | apps/backend/agents/coder.py:1294-1308 | a marker that is not about this tree reads as nothing, and the next gate step runs and replaces it |
| `GateEvidence.RecordedResultsReachTheReader` | apps/backend/agents/gate_runner.py:714-961 | printed, stored and read back, the evidence of plainly named gates says "executed" and "failed" exactly when it was so |
| `GateEvidence.EveryLinterIsRecorded` | apps/backend/agents/coder.py:1378-1435 | every linter of CI has an entry in what the step records: its gate's, or one that says skipped |
| `GateEvidence.StepReachesTheReader` | apps/backend/agents/coder.py:1378-1435 | from exit codes to the reader of a bound marker: one outcome for each gate, then one "skipped" for each linter no gate ran for |
| `GateEvidence.NoGatesIsNoEvidence` | apps/backend/agents/coder.py:1368-1374 | a step that detects no gate records that, and the reader sees no executed gate in it |
| `GateEvidence.SpecDir.RunTrailingGates` | apps/backend/agents/coder.py:1246-1435 | the gate step runs only on a finished plan without a current marker; unless it raises it stores the summary of every gate and uncovered linter, bound to the HEAD at its end |
| `Mentions.MatchesAre` | apps/backend/agents/mentions.py:121-131 | a left-to-right search returns matches of its pattern in order, without overlap |
| `Mentions.MatchesCover` | apps/backend/agents/mentions.py:121-131 | a position where a pattern matches begins a match or lies inside one |
| `Mentions.FencedIs` | apps/backend/agents/mentions.py:86-88 | a fenced span goes from three back ticks to the next three that do not overlap them |
| `Mentions.InlineIs` | apps/backend/agents/mentions.py:89 | an inline span goes from a back tick to the next one on the line |
| `Mentions.UrlAtIff` | apps/backend/agents/mentions.py:82-84 | where a URL begins: a letter after no word character, scheme characters, "://" and a visible character |
| `Mentions.MaskedByAny` | apps/backend/agents/mentions.py:121-136 | a position is masked if and only if a fenced, an inline or a URL span holds it |
| `Mentions.UrlMaskedIff` | apps/backend/agents/mentions.py:82-84 | a position is inside a URL if and only if one begins at or before it with no white space between |
| `Mentions.InlineMaskedIff` | apps/backend/agents/mentions.py:86-89 | a position is inside inline code if and only if an odd number of back ticks precedes it on its line and another follows |
| `Mentions.ParseMentions` | apps/backend/agents/mentions.py:139-169 | the loops and the sort return the references that the text defines |
| `Mentions.ParsedExactly` | apps/backend/agents/mentions.py:139-169 | exactly the unmasked positions that satisfy the sigil guards, each with the longest legal body, at strictly increasing offsets |
| `Mentions.StandsIff` | apps/backend/agents/mentions.py:68-80 | such a reference character by character: its sigil, what may not stand before it, the characters of its body, and that no longer body begins there |
| `Mentions.OneRefPerSigil` | apps/backend/agents/mentions.py:72-89 | a reference starts at a position if and only if a guarded sigil stands there unmasked, and then only one |
| `Mentions.SpansNeverOverlap` | apps/backend/agents/mentions.py:93-108 | spans do not overlap and each is its sigil followed by its value |
| `Mentions.RecipientIffParsedAtStart` | apps/backend/agents/mentions.py:215-230 | a message is routed to a recipient if and only if parsing the left-stripped text finds that mention at offset 0 |
| `Ratchet.NothingRegressedIff` | scripts/cq_ratchet.py:474-489 | no code regressed if and only if no code's count rose, absent codes counting zero |
| `Ratchet.RenameSources` | scripts/cq_ratchet.py:420-441 | the loop builds the map the rename lines define, later ones winning |
| `Ratchet.RenamesAre` | scripts/cq_ratchet.py:420-441 | a path's source is the one on the last line that renames something to it |
| `Ratchet.RenamesInjective` | scripts/cq_ratchet.py:420-441 | when each file is moved to one place only, no two new paths share a source |
| `Ratchet.ChangedPythonFiles` | scripts/cq_ratchet.py:103-117 | the loop keeps, in order, the words of git's output that name a file in scope |
| `Ratchet.CheckedIff` | scripts/cq_ratchet.py:103-117 | a changed file in scope is checked if and only if its name holds no white space |
| `Ratchet.SpacedNameIsNotChecked` | scripts/cq_ratchet.py:111-115 | any edit of a file with white space in its name is accepted, and changes the total by exactly what it brings |
| `Ratchet.Judge` | scripts/cq_ratchet.py:590-605 | every changed file is regressed, improved or unchanged as its counts and their sums say; regressions are listed in order |
| `Ratchet.OutcomeIs` | scripts/cq_ratchet.py:463-489 | regressed: some code counts for more in the head file than in the file it came from, both judged under the new path; improved: none does, and the sum is smaller |
| `Ratchet.CleanIffAccepted` | scripts/cq_ratchet.py:612 | the exit is clean if and only if no code rose in any changed file |
| `Ratchet.TotalNeverIncreases` | scripts/cq_ratchet.py:444-489 | an accepted diff, renames from anywhere included, never increases a code's total over the files in scope, if neither a moved file counts for more at its new path than it did before, nor a file with white space in its name for more than before |
| `Ratchet.TotalNeverIncreasesOverHistory` | scripts/cq_ratchet.py:590-612 | nor does any sequence of such diffs |
| `Ratchet.PureMoveRisesIff` | scripts/cq_ratchet.py:463-471 | in any tree a pure move into scope is accepted, changes the total by exactly that difference, and raises it if and only if the file counts for more |
| `Ratchet.MoveFromOutsideIsAccepted` | scripts/cq_ratchet.py:434-441 | a file moved in from outside the scope adds everything it carries to the total, and is accepted |
| `PairCount.FoldsAlikeIff` | scripts/memory_dup_baseline.py:43-44 | texts fold alike if and only if they have the same words, case and white space aside |
| `PairCount.CountPairs` | scripts/memory_dup_baseline.py:80-88 | the pair loop counts the exact and the near pairs of positions |
| `PairCount.PairsAre` | scripts/memory_dup_baseline.py:80-88 | the counts are the sizes of two sets: the positions i < j with the same words, and those with different words and similar vectors |
| `PairCount.ExactCount` | scripts/memory_dup_baseline.py:80-88 | the exact count is the sum of m(m-1)/2 over the distinct folded texts |
| `PairCount.AtMostAllPairs` | scripts/memory_dup_baseline.py:80-88 | exact plus near is at most n(n-1)/2 |
| `PairCount.PairsPermute` | scripts/memory_dup_baseline.py:80-88 | both counts are unchanged by permuting the items, when similarity is symmetric |
| `PlanProgress.StripPlanProgress` | apps/backend/plan_progress.py:45-73 | the loop computes the projection |
| `PlanProgress.EqualProjectionsIffSameContent` | apps/backend/plan_progress.py:16-73 | two plans have equal projections if and only if they differ only in progress keys, or in `chunks` beside a `subtasks` list |
| `PlanProgress.PlanKeyIsFreeIff` | apps/backend/plan_progress.py:16-31 | a new key of a plan leaves the projection unchanged if and only if it is one of twelve |
| `PlanProgress.SubtaskKeyIsFreeIff` | apps/backend/plan_progress.py:32-42 | a new key of a subtask, if and only if it is one of seven |
| `PlanProgress.StripIsIdempotent` | apps/backend/plan_progress.py:45-73 | stripping twice strips no more |
| `PlanProgress.ProgressKeepsApproval` | apps/backend/plan_progress.py:13-42 | no sequence of progress writes, setting or removing keys, under `subtasks` or `chunks`, changes what the approval hash is taken of |
| `Allowlist.LoadAllowlist` | security-lint/security_lint.py:118-192 | no problem is reported if and only if every row is sound and no key comes twice |
| `Allowlist.Reconcile` | security-lint/security_lint.py:272-292 | the three reports are those of the allowed dictionary and the entries, in order, duplicates included |
| `Allowlist.ReportedIff` | security-lint/security_lint.py:272-292 | for any entries: which findings, entries and keys are reported, the last entry of a key deciding its count |
| `Allowlist.NothingReportedIffBalanced` | security-lint/security_lint.py:272-292 | with distinct keys, nothing is reported if and only if every finding has an entry and every entry's key occurs between 1 and `count` times |
| `Allowlist.CleanGateIsTight` | security-lint/security_lint.py:272-292 | behind a clean gate, entries <= findings <= the sum of the counts |
| `Allowlist.Report` | security-lint/security_lint.py:384-429 | the verdict is clean if and only if rows, keys, dates and balance are all in order |

## Left out

- Agent sessions, prompts, memory, providers, events and logging; a session is an arbitrary outcome.
- Concurrency inside one wave: sessions are isolated by contract, so they appear one after another; merges and gates are
  sequential in the source too.
- `ParallelRunner.RunParallelPhase`: an exception out of the announcement of a wave is modelled, one in the middle of a wave
  or after the last is not: the hooks of `parallel_integration.py` catch theirs (lines 768-805), but logging a refused
  completion (lines 806-814) or writing the final wave report (line 850) could raise. A setup that raises, such as a recursion error on a very long dependency chain, is the coder's
  `ready` flag.
- The sorted order of completed and failed ids in a phase's report: they are sets here.
- Path normalisation of footprints, and the advisory `validate_dependencies` warnings, which change nothing.
- The recursion limit of the depth-first search, and non-text ids and values in a plan document.
- The gates behind the completion predicate (pipeline, testing and deliverable gaps): each is one arbitrary answer.
- The exact import names that parsing one module yields, and how a spawned script is found: a module is its list of imports
  and dynamic-import lines; `_parent_reach` and the shortening of closures for display are not modelled.
- The inbox file is a list of messages, not JSON; a read that fails, for whatever reason, is one step.
- Hashing of tool arguments and results (equal values stand for equal hashes), and the texts of guardrail reasons.
- What the rules' regular expressions match: a rule is an arbitrary predicate.
- Newline translation when a marker is read.
- Nix flakes, sandbox runners, layout and dependency guards, and `GATE_FAILURES.md`.
- Unicode letters, digits and white space in mentions, key names, diff headers and folded texts: ASCII classes stand for
  them. Whether a mention resolves to a known name is not modelled.
- The sorting of keys and the printing of numbers in canonical JSON: `JsonText` renders members in the order given and
  numbers as texts. A plan in `TrustedPlan` is its canonical text.
- The bytes of HMAC (section 2 of RFC 2104): HMAC is any function with 64-character digests.
- Quoted names in git's lists and diffs: a path is what git prints.
- `Ratchet.TotalNeverIncreases`: models the per-file linter, whose findings depend on the file and its path alone; the type
  checker half, where a change in one file can alter the errors of another, is not covered. The base is the merge base.
- The cosine itself: similarity is an arbitrary relation, symmetric where that matters.
- Expiry dates of allowlist entries (a list of problems here), running the linter, and the zero-files guard.
