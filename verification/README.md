# A verified model of Nova Voice's planning and durable-agent core

Nova Voice turns an utterance into a plan of tool calls, runs the plan against providers, and keeps
durable state around it: a feed of household events, payments, drafted messages, reminders, rollout
records, memories and voice profiles. This project models the parts of that system whose correctness
depends on order, interruption or arithmetic, and proves what each of them is for.
`dafny verify dfyconfig.toml` checks everything.

**Plans.** `PlanDomain` holds actions, registry answers and the plan check. `PlanExecutor` gives one
loop iteration of the executor as a function of the state (`Pass`) and a run as its iteration
(`After`), under any cancellation schedule and any provider. `ExecutorPasses` explains every recorded
answer. `ExecutorTheorems`, `ExecutorTermination` and `ExecutorMeaning` prove the run-level properties:
failures spread, nothing runs twice, serial actions keep their order, exactly which plans loop for
ever, and that an uncancelled run computes a recursive meaning of the dependency graph in which waves
do not occur. `PlanRunner` is the executor as it is written, with loops over mutable tables, proved to
be a run of `Pass`. `ExecutorContract` and `ExecutorGuarantees` say all of this once more in the terms of
the registry's tables alone: which calls are made, which are not, and what every action gets.
`ExecutorExamples` holds the plans on which the stronger guarantees fail.

**Crash-safe protocols.** `EventFeed`/`EventDelivery`/`EventProgress`, `Transactions` with
`TransactionMoney`, `TransactionCancel`, `TransactionAuthority` and `TransactionOutcome`,
`Communications`/`CommunicationOutcome` and `Commitments`/`CommitmentChanges`/`CommitmentWalks` are step
systems: a state holds the stored
rows together with every suspended call, each step is what one call does between two awaits, and a run
is any sequence of steps, so all interleavings, dropped calls and crashes are covered. Each is proved both ways: what is
stored goes back to a step of the run that asked for it and to an answer of the transport, and what
an operation does when nothing disturbs it is stated in full. `Rollout` and `RolloutEvidence` are the
ladder of stages, with a class for the manager that stores its records.

**Algorithms.** `EditDistance` (two-row Levenshtein distance), `NumberWords`,
`NumberGrammar`, `NumberText`, `EnglishWords` and `PrintedNumbers` (numbers in English, as words and as
strings, and a reader with its own vocabulary that undoes them), `Calendar` (recurrences and catching up), `Briefings` (the
sweep for agenda conflicts), `Consolidation` (merging duplicate memories), `SpeakerMatch` (who speaks),
`Raster` in `Canvas.dfy` and `Png` (pixels, text and image files). `StableSort` is Python's stable sort
and `Options` the usual option type.

Identifiers, tokens and hashes are opaque numbers, and fresh ones are new. Times are instants at a
fixed offset. Money is in minor units. Some claims one might expect of the code are false of it. Each
of these has a run that refutes it and a statement of exactly which step, or which plan, breaks it:

- the durable event cursor never moves back (`RivalsMoveTheCursorBack`, `CursorMovesBackExactlyWhen`);
- what remains of a budget and what is charged to it make up its limit (`PairingMintsMoney`,
  `ConservationBreaksExactlyWhen`);
- a cancelled transaction was not delivered (`StaleCancelHidesDelivery`, `HiddenExactlyWhen`);
- a draft is sent at most once (`RepreviewSendsTwice`, `SecondApprovalExactlyWhen`);
- a recurring commitment never returns to an earlier occurrence (`StaleSaveGoesBack`,
  `OccurrenceGoesBackExactlyWhen`);
- serial actions are invoked in declared order (`CoalescedDependencyBreaksOrder`,
  `SerialOrderBreaksExactlyWhen`);
- every plan with unique ids finishes (`DroppedDependencyStalls`, `FinishesExactlyWhen`).

## Model

| member | source | states |
|---|---|---|
| `PlanDomain.ValidatePlan` | src/nova_voice/domain.py:182-198 | The plan check accepts exactly the plans whose ids are unique and whose dependencies all name strictly earlier actions, and an empty plan when nothing is to be executed. |
| `PlanRunner.Screen` | src/nova_voice/service.py:2272-2307 | Screening reports no invalid action iff all are acceptable, and then maps exactly the coalesced duplicates, each to the first action of its signature. |
| `PlanRunner.ExecutePlan` | src/nova_voice/service.py:2254-2559 | Unless every action is acceptable, all are refused and nothing runs; otherwise the loop ends after the stated number of passes and returns the report of exactly that run, which for a valid, uncancelled plan with distinct orders is its recursive meaning. The provider calls actually made are those of the run, no action or signature twice. It asks for unique ids and a run that finishes. |
| `PlanRunner.Ledger.Append` | src/nova_voice/service.py:2334-2341 | Recording one answer updates the results, the table by id and the pending actions together, as the abstract state says. |
| `PlanRunner.Triage` | src/nova_voice/service.py:2419-2510 | One walk over the ready actions settles or queues each of them just as the wave-free specification decides. |
| `PlanRunner.LaunchWave` | src/nova_voice/service.py:2514-2550 | A leading serial action runs alone, otherwise the leading parallel-safe ones run together; each is asked of its provider exactly once, in order, and its answer recorded. |
| `PlanRunner.OnePass` | src/nova_voice/service.py:2380-2550 | One loop iteration, early exits included, is one step of the run. |
| `PlanRunner.CoalescedIsLeader` | src/nova_voice/service.py:2274-2307 | The table built during screening agrees with the plan-level definition of a duplicate and of the action it copies. |
| `ExecutorPasses.PassFacts` | src/nova_voice/service.py:2380-2550 | Every pass keeps all earlier answers, and each new answer has one of the legitimate reasons: cancelled, unresolved, blocked, copied, refused or invoked. |
| `ExecutorTheorems.InvokedOnlyWhenDependenciesOk` | src/nova_voice/service.py:2427-2440 | No action reaches a provider unless all its dependencies have already answered ok, under any cancellation schedule. |
| `ExecutorTheorems.OkMeansSatisfied` | src/nova_voice/service.py:2427-2440 | An action that is ok has only ok dependencies. |
| `ExecutorTheorems.FailureSpreads` | src/nova_voice/service.py:2427-2440 | Every action transitively downstream of a result that is not ok is itself not ok. |
| `ExecutorTheorems.InvokedAtMostOnce` | src/nova_voice/service.py:2274-2307 | Each action, and each idempotent signature, reaches a provider at most once in a run. |
| `ExecutorTheorems.NothingIsCalledTwice` | src/nova_voice/service.py:2343-2378 | The log of all provider calls of a run holds no two calls for one action or for one idempotent signature. |
| `ExecutorTheorems.LeaderFacts` | src/nova_voice/service.py:2274-2307 | A duplicate copies the earliest action of its signature, which is declared before it and is no duplicate itself. |
| `ExecutorTheorems.SerialOrderBreaksExactlyWhen` | src/nova_voice/service.py:2397-2550 | A serial action runs alone, and an earlier action is invoked no sooner than it iff, at that moment, the earlier one depends, through any number of steps, on a coalesced duplicate with no answer yet. |
| `ExecutorTheorems.SerialActionsKeepDeclaredOrder` | src/nova_voice/service.py:2514-2550 | In a well-formed plan where no earlier action depends on a coalesced duplicate, a serial action runs alone and strictly after every earlier action that is ever invoked. |
| `ExecutorTheorems.OkMeansInvoked` | src/nova_voice/service.py:2343-2378 | An ok answer of an action that copies nobody comes from an actual provider call. |
| `ExecutorTermination.WellFormedPlansDoNotStall` | src/nova_voice/domain.py:182-198 | Unique ids and backward dependencies rule out every stall. |
| `ExecutorTermination.PassMakesProgress` | src/nova_voice/service.py:2380-2550 | On a plan that cannot stall, each pass settles at least one more action or finishes. |
| `ExecutorTermination.ExecutorTerminates` | src/nova_voice/service.py:2380-2550 | The loop ends within one pass more than there are actions, under any cancellation schedule. |
| `ExecutorTermination.StallableNeverFinishes` | src/nova_voice/service.py:2422-2426 | A plan in which a duplicate is ready while the action it copies can never be settled loops for ever. |
| `ExecutorTermination.StalledRunRepeats` | src/nova_voice/service.py:2419-2512 | After as many passes as it has actions, an uncancelled stallable plan has settled exactly the actions that can be settled, and repeats that state in every later pass. |
| `ExecutorTermination.FinishesUnlessStallable` | src/nova_voice/service.py:2397-2512 | Without cancellation the executor finishes if and only if the plan has no such duplicate. |
| `ExecutorTermination.FinishesExactlyWhen` | src/nova_voice/service.py:2380-2512 | Under any cancellation schedule it finishes if and only if the plan has no such duplicate or cancellation is requested some time. |
| `ExecutorMeaning.ExecutionIsMeaning` | src/nova_voice/service.py:2380-2559 | Whatever waves are formed, each answer equals the recursive meaning of the dependency graph: blocked, else a copy of its source, else the policy refusal, else the provider's answer. |
| `ExecutorMeaning.ReportIsComplete` | src/nova_voice/service.py:2552-2559 | A finished run returns exactly one result an action, sorted by order; with distinct orders, in declared order. |
| `ExecutorMeaning.ExecutionReportsMeaning` | src/nova_voice/service.py:2380-2559 | The report of a finished, uncancelled run of a valid plan with distinct orders is, action by action in declared order, the recursive meaning of the plan. |
| `ExecutorExamples.DroppedDependencyStalls` | src/nova_voice/service.py:1657-1674 | A plan that lost a dependency after validation keeps the executor looping for ever. |
| `ExecutorExamples.CoalescedDependencyBreaksOrder` | src/nova_voice/service.py:2422-2426 | When an earlier action depends on a coalesced duplicate, a later serial action can be invoked before it, although the plan is valid. |
| `ExecutorExamples.CoalescedOrderIsExplained` | src/nova_voice/service.py:2422-2426 | In that plan the overtaken action depends on a coalesced duplicate with no answer yet, as the exact condition says. |
| `ExecutorContract.AllAcceptedMeans` | src/nova_voice/service.py:2272-2307 | A plan is accepted iff each action names, under its own or its provider-qualified tool, a registered call with valid arguments whose tool the turn offered. |
| `ExecutorContract.DuplicateMeans` | src/nova_voice/service.py:2284-2305 | An action is coalesced iff an earlier one has the same call, whose policy is idempotent and whose arguments do not object. |
| `ExecutorContract.RefusalMeans` | src/nova_voice/service.py:2453-2510 | Exactly the calls with a policy that neither forbids nor wants confirmation, and with a registered provider, are not refused; a policy's refusal is "blocked", a missing provider "invalid". |
| `ExecutorGuarantees.OnlyPermittedCallsAreMade` | src/nova_voice/service.py:2380-2550 | Every provider call of a run is for an admitted, permitted action that repeats no earlier call, with all dependencies ok and cancellation not yet requested. |
| `ExecutorGuarantees.EveryPermittedCallIsMade` | src/nova_voice/service.py:2380-2550 | A finished uncancelled run of a valid plan has called the provider for every such action. |
| `ExecutorGuarantees.NoCallIsMadeTwice` | src/nova_voice/service.py:2274-2307 | No two provider calls of a run are for one action or for one idempotent call. |
| `ExecutorGuarantees.AnswersAreAccountedFor` | src/nova_voice/service.py:2343-2550 | Every answer, with its code, is determined: cancelled, blocked by a dependency, a copy of the first action with its call, refused for a reason in the registry, or what the provider's reaction is reported as. |
| `ExecutorGuarantees.ScreenedRefusesAll` | src/nova_voice/service.py:2308-2333 | A refused plan answers "invalid" for exactly the actions at fault and "blocked" for the rest. |
| `ExecutorGuarantees.CancellationAnswersTheRest` | src/nova_voice/service.py:2381-2394 | A pass that finds cancellation requested answers everything still unanswered as cancelled. |
| `ExecutorGuarantees.NothingIsAskedAfterCancellation` | src/nova_voice/service.py:2381-2394 | Neither that pass nor a later one calls a provider. |
| `ExecutorGuarantees.WavesShareOnlyParallelSafe` | src/nova_voice/service.py:2514-2550 | Actions called in one pass with others are marked as parallel-safe in their policies. |
| `ExecutorGuarantees.PutOffOnlyForSerial` | src/nova_voice/service.py:2514-2550 | An action that could run in a pass and is not called in it waits for one declared no later that could run as well and is not marked as parallel-safe. |
| `EventFeed.NothingIsLost` | src/nova_voice/events.py:109-232 | In every run with several consumers, crashes and restarts, each event up to the durable cursor is stored or lies in a recorded gap. |
| `EventFeed.StepKeepsSafe` | src/nova_voice/events.py:115-232 | Every single step between two awaits keeps that, for all suspended consumers as well. |
| `EventDelivery.AnnouncedAtMostOnce` | src/nova_voice/events.py:187-232 | The callback is called at most once for an event id, and only for stored events. |
| `EventDelivery.CursorMovesBackExactlyWhen` | src/nova_voice/events.py:115-160 | In every run, a step lowers the durable cursor iff a consumer saves although the checkpoint it had read for that save was already beyond its target, and its revision is still the current one. |
| `EventDelivery.RivalsMoveTheCursorBack` | src/nova_voice/events.py:115-232 | Two consumers that receive the same two events can take the durable cursor from 2 back to 1. |
| `EventDelivery.SingleConsumerNeverMovesBack` | src/nova_voice/events.py:109-232 | A single consumer that reads the checkpoint when it starts, and is never reset below its cursor, only moves it forward. |
| `EventProgress.EverythingWasReceived` | src/nova_voice/events.py:162-232 | Every stored event was in a response that a consumer took, and every recorded gap runs from right behind a request to right before the first event its response had available. |
| `EventProgress.ResponseTakenExactlyWhen` | src/nova_voice/events.py:66-73 | A response is taken iff its cursors are positive and ascending, its next cursor is the last of them, and it follows the consumer's cursor; otherwise nothing changes. |
| `EventProgress.UndisturbedPoll` | src/nova_voice/events.py:187-232 | A response handled undisturbed is stored, announced where new, and checkpointed, event by event up to the first hole. |
| `EventProgress.UndisturbedReset` | src/nova_voice/events.py:162-232 | A reset first records the gap and checkpoints its end, and the batch then goes on behind it. |
| `EventProgress.ReachMeans` | src/nova_voice/events.py:195-203 | How far that is: every cursor up to there is in the batch, and the next one is not. |
| `EventProgress.ConflictResolvedExactlyWhen` | src/nova_voice/events.py:151-160 | After a conflicting save the consumer goes on iff the durable cursor has reached its target. |
| `Transactions.CommittedAtMostOnce` | src/nova_voice/transactions.py:258-364 | In every interleaving with crashes, the transport is asked to commit a proposal at most once. |
| `Transactions.StepCommitsOnce` | src/nova_voice/transactions.py:161-388 | Every step keeps it, and a proposal that has left the proposed stage never returns to it, even under stale cancellations. |
| `TransactionAuthority.EveryCommitWasAuthorised` | src/nova_voice/transactions.py:258-326 | In every run, whatever the transport is asked to commit had at an earlier step been asked for with the token of the latest preview of the unrevised proposal, or with a budget of its category, currency and counterparty that held its amount. |
| `TransactionAuthority.CommitAcceptedExactlyWhen` | src/nova_voice/transactions.py:266-326 | A commit of a pending proposal is accepted iff it has such a token or budget; it then takes the proposal and charges the budget unless the token sufficed, and otherwise changes nothing. |
| `TransactionAuthority.ApprovalsAreTraced` | src/nova_voice/transactions.py:192-215 | A row's approval is always that of the latest preview, at the revision it had, and unused while the proposal is pending. |
| `TransactionOutcome.EveryOutcomeIsJustified` | src/nova_voice/transactions.py:327-388 | In every run a proposal keeps its terms, is committed with a receipt only if the transport confirmed it with that receipt, failed only if the transport refused it, and cancelled only if that was asked for. |
| `TransactionOutcome.RefusedCommitsAreRefunded` | src/nova_voice/transactions.py:340-356 | In every run nothing stays charged for a proposal that the transport refused. |
| `TransactionOutcome.EveryBudgetWasCreated` | src/nova_voice/transactions.py:217-246 | A stored budget has the terms and the limit it was created with; only what remains of it changes. |
| `TransactionOutcome.NewEntriesExactlyWhen` | src/nova_voice/transactions.py:161-246 | Proposals and budgets are stored as given, unless the id is taken or the amount is not positive. |
| `TransactionOutcome.UndisturbedCommit` | src/nova_voice/transactions.py:327-364 | An accepted commit that nothing disturbs asks the transport once and stores its answer; if refused, a charged budget gets exactly its amount back. |
| `TransactionOutcome.UndisturbedCancel` | src/nova_voice/transactions.py:366-388 | An undisturbed cancellation reverses a committed transaction first, cancels a pending or failed one at once, and leaves others alone. |
| `TransactionMoney.MoneyIsAccountedFor` | src/nova_voice/transactions.py:217-356 | No budget goes below zero, and what remains plus what is charged equals the limit plus unearned refunds. |
| `TransactionMoney.ConservationBreaksExactlyWhen` | src/nova_voice/transactions.py:284-356 | From a reachable state a step ends a budget's conservation iff the transport refuses a commit that names the budget although a token authorised it. |
| `TransactionMoney.ConservedWithoutPairing` | src/nova_voice/transactions.py:284-356 | As long as no call pairs an accepted token with a budget, every budget is conserved. |
| `TransactionCancel.PairingMintsMoney` | src/nova_voice/transactions.py:348-356 | A failed commit with both a token and a budget leaves a budget of 10 holding 20. |
| `TransactionCancel.FreshCancelsHideNothing` | src/nova_voice/transactions.py:366-388 | If no cancellation writes over a row that changed since it was read, a row marked cancelled is never one delivered and not reversed. |
| `TransactionCancel.HiddenExactlyWhen` | src/nova_voice/transactions.py:327-388 | The only steps that hide a delivery: a cancellation written over a delivered, unreversed transaction, or a delivery confirmed for one already marked cancelled. |
| `TransactionCancel.StaleCancelHidesDelivery` | src/nova_voice/transactions.py:366-388 | A cancellation from a stale read leaves a delivered transaction marked cancelled, without its receipt. |
| `Communications.EachSendSpendsItsOwnPreview` | src/nova_voice/communications.py:231-304 | In every interleaving, each transport send consumes a distinct token, issued by a preview of that very draft. |
| `Communications.LeftForGood` | src/nova_voice/communications.py:231-328 | A draft that has left the draft state never returns to it. |
| `Communications.SentAtMostOnceWithoutRepreview` | src/nova_voice/communications.py:254-304 | A draft that is not previewed again once a token was spent is sent at most once. |
| `Communications.SecondApprovalExactlyWhen` | src/nova_voice/communications.py:254-304 | From a reachable state a step gives a draft a second spent approval iff it approves a send of a draft whose unused, current preview token matches while another approval of it is already spent. |
| `Communications.SentTwiceMeansApprovedAgain` | src/nova_voice/communications.py:254-304 | In every run in which a draft was sent twice, some step made such a second approval. |
| `Communications.RepreviewSendsTwice` | src/nova_voice/communications.py:231-304 | Previewing a draft again while its send is under way lets it be sent twice. |
| `CommunicationOutcome.SendAcceptedExactlyWhen` | src/nova_voice/communications.py:254-275 | A send passes iff its token is the one of the latest preview of the pending, unrevised draft and no send has passed on it since; it uses the approval up, and otherwise nothing changes. |
| `CommunicationOutcome.ApprovalsAreTraced` | src/nova_voice/communications.py:231-252 | A row's approval is always that of the latest preview; a pending draft's is used iff a send has passed since. |
| `CommunicationOutcome.EveryOutcomeIsJustified` | src/nova_voice/communications.py:276-328 | In every run a draft is sent with a receipt only if the transport confirmed a send of it with that receipt, its delivery failed only if the transport refused one, and it is cancelled only if that was asked for. |
| `CommunicationOutcome.UndisturbedSend` | src/nova_voice/communications.py:254-304 | A send that nothing disturbs reaches the transport once, with its token, and stores the answer. |
| `CommunicationOutcome.UndisturbedCancel` | src/nova_voice/communications.py:306-328 | An undisturbed cancellation recalls a sent draft first and cancels a pending or failed one at once. |
| `Commitments.DueHasExactlyOneIntervention` | src/nova_voice/commitments.py:74-227 | In every run, with stale saves and crashes, a due commitment has an intervention for its occurrence, and no occurrence ever gets two. |
| `Commitments.StepKeepsAnnounced` | src/nova_voice/commitments.py:63-227 | Every store operation keeps that, for all suspended calls as well. |
| `Commitments.OccurrenceGoesBackExactlyWhen` | src/nova_voice/commitments.py:63-72 | In every run, a step takes a commitment back iff a call saves although the row it had fetched for that save was already past its record and its revision is still the current one; what the call had listed was then out of date by an occurrence. |
| `Commitments.OccurrencesAdvanceWithoutStaleSaves` | src/nova_voice/commitments.py:74-227 | Without stale saves a commitment only moves on, one occurrence at a time. |
| `Commitments.StaleSaveGoesBack` | src/nova_voice/commitments.py:63-138 | Two polls and an acknowledgement can take a commitment from its second occurrence back to its first. |
| `CommitmentChanges.EveryChangeWasAsked` | src/nova_voice/commitments.py:56-227 | In every run each stored commitment was created or is exactly what a poll, event, acknowledgement, snooze or cancellation makes of one it read, and each announcement goes back to a poll that listed the commitment as active, due and within its deadline. |
| `CommitmentChanges.VerdictMeans` | src/nova_voice/commitments.py:77-105 | What a poll does about a commitment, from its times alone: nothing, announce it, count it as missed, or fail where the calendar ends. |
| `CommitmentWalks.UndisturbedPoll` | src/nova_voice/commitments.py:74-138 | A poll that nothing disturbs announces every listed commitment that is due, moves on or closes every missed one, and changes nothing else. |
| `CommitmentWalks.UndisturbedEvent` | src/nova_voice/commitments.py:140-160 | An event makes exactly the listed active commitments that wait for it due, and clears what they waited for. |
| `CommitmentWalks.UndisturbedAcknowledge` | src/nova_voice/commitments.py:162-192 | An acknowledgement completes the commitment, or moves a recurring one to its next occurrence, and is refused iff it awaits none or there is no next. |
| `CommitmentWalks.UndisturbedSnooze` | src/nova_voice/commitments.py:194-211 | Snoozing makes the commitment active again and due at the given time, all else unchanged. |
| `CommitmentWalks.UndisturbedCancel` | src/nova_voice/commitments.py:213-227 | Cancelling changes the status alone. |
| `CommitmentWalks.CreatedExactlyWhen` | src/nova_voice/commitments.py:51-55 | A commitment is stored as given unless its id is taken or its recurrence has no next occurrence. |
| `CommitmentWalks.ConflictExactlyWhen` | src/nova_voice/commitments.py:63-72 | A save that comes too late stores nothing; it ends a firm call, and any other call goes on with its listing. |
| `CommitmentWalks.OnlyPollsGoOnAfterConflicts` | src/nova_voice/commitments.py:106-138 | In every run, calls other than polls end at such a save, and a poll ends only if it announces an occasion that was announced before. |
| `CommitmentWalks.FirstAnnouncementGoesOn` | src/nova_voice/commitments.py:118-137 | A poll goes on after a conflict iff it is itself the first to announce the occasion. |
| `Rollout.EveryReachableRecordIsSound` | src/nova_voice/rollout.py:43-194 | Every reachable record has a chained history ending at its stage, was promoted out of every lower stage since it was last at or below it, has a scope if autonomous, and is revoked iff its last event is a revocation. |
| `Rollout.TransitionKeepsSound` | src/nova_voice/rollout.py:80-194 | Promotion, revocation and rollback each keep that. |
| `Rollout.AllowedMeansClimbed` | src/nova_voice/rollout.py:196-203 | Access to a stage is allowed iff the last event is no revocation and the stage is reached, and then each lower stage was climbed. |
| `Rollout.RevokedFixtureIsAbsorbing` | src/nova_voice/rollout.py:129-194 | A rollout revoked at the fixture stage never changes again. |
| `RolloutEvidence.EveryEntryWasEarned` | src/nova_voice/rollout.py:43-194 | In every interleaving each entry of a history was asked for by the owner: a promotion with passing evidence for the stage it left and the rollout's pins, a revocation of a standing rollout, a rollback to an earlier stage. |
| `RolloutEvidence.TransitionExactlyWhen` | src/nova_voice/rollout.py:80-194 | Which requests are granted, and the whole record each leaves. |
| `RolloutEvidence.RanksAreTheLadder` | src/nova_voice/rollout.py:80-127 | The order of stages used for comparisons is the order of the ladder. |
| `Rollout.RolloutManager.Begin` | src/nova_voice/rollout.py:80-194 | What a manager method does up to its save is one step of the concurrent system: it reads, decides or raises, and remembers the revision it read. |
| `Rollout.RolloutManager.Save` | src/nova_voice/durable/store.py:315-359 | The save succeeds iff the revision is still the one read, then replaces the very record the change was computed from, and otherwise stores nothing. |
| `Rollout.RolloutManager.Apply` | src/nova_voice/rollout.py:80-194 | A method that nothing interrupts stores exactly what a transition yields, at the next revision, and nothing where it raises. |
| `EditDistance.TwoRowDistance` | ops/stt_accuracy.py:60-73 | The two-row loop computes the recurrence in which a match takes the diagonal without a minimum. |
| `EditDistance.DistanceIsLeastCost` | ops/stt_accuracy.py:60-73 | The distance is the least cost of any script of insertions, deletions and substitutions, and is achieved. |
| `EditDistance.NoScriptIsCheaper` | ops/stt_accuracy.py:60-73 | No script that turns one list of words into the other costs less, so taking a match never loses. |
| `EditDistance.ZeroMeansEqual` | ops/stt_accuracy.py:60-73 | The distance is zero iff the lists are equal. |
| `EditDistance.DistanceIsSymmetric` | ops/stt_accuracy.py:60-73 | It is symmetric. |
| `EditDistance.TriangleInequality` | ops/stt_accuracy.py:60-73 | It satisfies the triangle inequality. |
| `EditDistance.DistanceBounds` | ops/stt_accuracy.py:60-73 | It lies between the difference of the lengths and the larger length. |
| `EditDistance.WordErrorRate` | ops/stt_accuracy.py:76-80 | The rate is the least cost for each expected word, zero iff nothing is expected or all was heard, and at most one unless more was heard than expected. |
| `NumberWords.IntegerToWords` | src/nova_voice/speech_normalization.py:108-131 | The loop over groups of three digits produces the grouped cardinal, for negative and digit-by-digit numbers too. |
| `NumberWords.RoundTrip` | src/nova_voice/speech_normalization.py:96-131 | A reader of English numbers gets back every integer, from 10^15 upward included. |
| `NumberWords.CardinalsAreDistinct` | src/nova_voice/speech_normalization.py:108-131 | Different integers are spoken differently. |
| `NumberText.SpellingIsRead` | src/nova_voice/speech_normalization.py:14-36 | A reader with a vocabulary of its own reads every spelling, cardinal and ordinal, as the word it stands for. |
| `NumberText.SpellingsDiffer` | src/nova_voice/speech_normalization.py:14-36 | No two words share a cardinal or an ordinal spelling. |
| `NumberGrammar.CardinalIsGrammatical` | src/nova_voice/speech_normalization.py:96-131 | Below 10^15 a number is spoken group by group with falling scales, "and" standing behind hundreds and before a last group below a hundred, and nowhere else. |
| `NumberGrammar.LargeIsDigitByDigit` | src/nova_voice/speech_normalization.py:115-116 | From 10^15 on it is spoken digit by digit, without a leading zero. |
| `NumberGrammar.SignsAreSpoken` | src/nova_voice/speech_normalization.py:111-114 | Zero is "zero", and a negative number its opposite behind "minus". |
| `PrintedNumbers.EndingIsOrdinal` | src/nova_voice/speech_normalization.py:25-36 | The table of endings, with its "th" for words that have no entry, turns the spelling of every word into its ordinal spelling. |
| `PrintedNumbers.IntegerText` | src/nova_voice/speech_normalization.py:108-131 | The string printed for an integer is its spelled words with single spaces, and reads back as the integer. |
| `PrintedNumbers.PrintedCardinalRoundTrip` | src/nova_voice/speech_normalization.py:108-131 | Splitting the printed string at its spaces and reading the words gives back every integer. |
| `PrintedNumbers.OrdinalToWords` | src/nova_voice/speech_normalization.py:134-138 | Changing what follows the last space changes the last word only, and the resulting string is read back to the integer. |
| `PrintedNumbers.PrintedOrdinalRoundTrip` | src/nova_voice/speech_normalization.py:134-138 | Splitting the ordinal's string and reversing the ending of its last word gives back every integer. |
| `PrintedNumbers.PrintedNumbersAreDistinct` | src/nova_voice/speech_normalization.py:108-138 | Two different integers share neither their cardinal nor their ordinal string. |
| `Calendar.RecurrenceIsLater` | src/nova_voice/commitments.py:20-36 | The next occurrence is a valid Gregorian moment at the same time of day, at least one day later, and at least 28 days an interval month. |
| `Calendar.MonthlyStep` | src/nova_voice/commitments.py:29-35 | A monthly step lands exactly the interval months on, on the same or the last day of the month, and fails iff that is past the last year. |
| `Calendar.MonthlyOccurrences` | src/nova_voice/commitments.py:29-35 | n monthly steps land n times the interval months on, on the minimum of the start day and the lengths of all months visited. |
| `Calendar.CatchUp` | src/nova_voice/commitments.py:88-91 | The catch-up loop ends at the first occurrence after now, or fails at the end of the calendar. |
| `Calendar.OrdinalsAreContiguous` | src/nova_voice/commitments.py:20-36 | The day numbering that all comparisons of dates rest on counts every day of the Gregorian calendar once. |
| `Calendar.OrdinalIsClosed` | src/nova_voice/commitments.py:20-36 | That numbering equals the closed formula of the proleptic Gregorian calendar. |
| `Calendar.MonthLengths` | src/nova_voice/commitments.py:29-35 | Every month has its Gregorian length. |
| `Calendar.RecurrenceExistsExactlyWhen` | src/nova_voice/commitments.py:20-36 | A rule has a next occurrence iff its interval is between 1 and 365, its frequency is supported and the year 9999 is not passed; days and weeks are counted out to the microsecond. |
| `Calendar.CaughtUpIsFirst` | src/nova_voice/commitments.py:88-91 | Catching up yields exactly the first occurrence after now. |
| `Briefings.SweepOne` | src/nova_voice/briefings.py:46-58 | Stopping at the first slot that starts too late misses no overlap with a later one. |
| `Briefings.Conflicts` | src/nova_voice/briefings.py:34-59 | The sweep with its early exit reports what comparing all pairs of sorted slots reports, in that order. |
| `Briefings.ConflictsAreTheOverlaps` | src/nova_voice/briefings.py:34-59 | A pair of agenda items is reported exactly once if both are timed and each starts before the other is over, an item without a later end lasting half an hour, and never otherwise. |
| `Briefings.ConflictsAreExact` | src/nova_voice/briefings.py:46-58 | A reported conflict names the earlier item first and starts when the later one does. |
| `StableSort.SortIsStable` | src/nova_voice/briefings.py:45 | Elements that tie keep their order. |
| `Consolidation.MemoryPalace.Consolidate` | src/nova_voice/memory_server.py:138-177 | Every record ends as the specification of one listed record says, and the merged count equals the drop in active records. |
| `Consolidation.MemoryPalace.GroupByClaim` | src/nova_voice/memory_server.py:143-155 | The table holds exactly the active records of every claim that has any, in listing order, each claim listed once. |
| `Consolidation.OneActivePerClaim` | src/nova_voice/memory_server.py:138-177 | Afterwards no two active records share owner, type and text, and the set of active claims is unchanged. |
| `Consolidation.SupersededPointsAtWinner` | src/nova_voice/memory_server.py:158-173 | Each newly superseded record points at an active record of its claim that is maximal by pinning and then recency. |
| `Consolidation.SecondRunMergesNothing` | src/nova_voice/memory_server.py:138-177 | Consolidating again changes nothing, in whatever order the records are then listed. |
| `SpeakerMatch.BestActive` | src/nova_voice/speaker_profiles.py:365-384 | Grouping by person yields the best eligible template, its score, and the best score of any other person or -1.0. |
| `SpeakerMatch.AcceptedExactlyWhenStandingOut` | src/nova_voice/speaker_profiles.py:473-483 | A global match is accepted iff some template clears the threshold, is beaten by none, and leads every template of any other person by the margin; the accepted one does. |
| `SpeakerMatch.Recognize` | src/nova_voice/speaker_profiles.py:439-493 | Which of the four outcomes a recognition has, and for which template: the conversation's own, a standing-out match, the best stranger, or a new one. |
| `SpeakerMatch.TermsAppearInOrder` | src/nova_voice/speaker_profiles.py:63-73 | The greedy search succeeds iff there are terms and some increasing placement of them in the evidence exists. |
| `Raster.Canvas.Create` | ops/deterministic_png.py:88-93 | Dimensions that are not positive are refused; otherwise every pixel shows the background. |
| `Raster.Canvas.Rect` | ops/deterministic_png.py:100-107 | For all arguments, also negative or oversized, exactly the pixels inside rectangle and canvas are recoloured, in a buffer of unchanged length. |
| `Raster.Canvas.Text` | ops/deterministic_png.py:115-148 | Exactly the union of the clipped, scaled glyph cells is painted, and the cursor ends at x plus the text width. |
| `Raster.UpperCaseDrawsAlike` | ops/deterministic_png.py:131-132 | A message whose characters have no glyphs of their own covers exactly the pixels of its upper-case form. |
| `Raster.UnknownDrawsNothing` | ops/deterministic_png.py:131-132 | Characters without a glyph, also in upper case, cover no pixel. |
| `Raster.Canvas.ToPng` | ops/deterministic_png.py:150-174 | The row-by-row encoder writes the file of the picture the canvas shows, or fails where a size exceeds its field. |
| `Png.ScanlinesRoundTrip` | ops/deterministic_png.py:150-157 | Taking the filter bytes off the scanlines (section 6.2 of RFC 2083) gives back the pixel bytes. |
| `Png.FileRoundTrip` | ops/deterministic_png.py:150-174 | A reader that checks the signature, every length and every checksum gets back the dimensions and all pixel bytes of every file written. |

## Left out

- ExecutePlan: asks for unique ids, which the plan check establishes and dropping actions keeps; what the executor would do with two actions of one id is not modelled. A run that never finishes has no result to state; FinishesExactlyWhen says which those are and StalledRunRepeats what they do.
- FinishesExactlyWhen: takes the cancellation flag as read anew in every pass; a stalled pass awaits nothing, so in a single-threaded event loop only a request made before the stall can still be read.
- SentAtMostOnceWithoutRepreview: one direction over whole runs; SecondApprovalExactlyWhen gives both directions step by step.
- ConservedWithoutPairing: one direction over whole runs; ConservationBreaksExactlyWhen gives both directions step by step.
- FreshCancelsHideNothing: one direction over whole runs; HiddenExactlyWhen gives both directions step by step.
- OccurrencesAdvanceWithoutStaleSaves: one direction over whole runs; OccurrenceGoesBackExactlyWhen gives both directions step by step.
- SingleConsumerNeverMovesBack: one direction over whole runs; CursorMovesBackExactlyWhen gives both directions step by step.
- The executor's provider answers carry the id of the action they answer; a foreign id, which would break the final sort, is not modelled. How a call in flight reacts to cancellation is part of the provider's answer; cancellation of the whole task, turn bookkeeping and the cap of six actions are left out.
- A signature is the canonical call itself; rendering arguments as JSON text, and values that render alike, are not modelled.
- The wave of parallel-safe actions records its answers in order, as the gathered results are; no interleaving inside a wave is visible to the executor.
- The managers of events, transactions, communications and commitments are step functions on values, because a method body cannot be suspended at an await; what they update in place is the system state.
- Events: payloads, retention, expiry, the feed's authentication and pruning; the callback is taken to be set.
- Transactions: audit rows, health, reversal receipts, proposals created in another stage and budgets that are not active; a token's hash stands for the token.
- Communications: resolving contacts while drafting, the content of a draft, which nothing changes once it is created, and audit rows.
- Commitments: parsing rule strings (a rule is its frequency and interval), daylight saving, delivery fields and timestamps, validation of the record's own fields, and the check that a snooze lies in the future.
- Rollout: the text of reasons and the contents of evidence artifacts beyond what promotion checks.
- PrintedNumbers: years, decimals and the regular expressions that find numbers in a text are left out.
- Briefings: parsing of dates and titles; an item is its start, its end and its place in the agenda.
- Consolidation: case folding and splitting of texts (a text is its words), the count of conflicts reported for review, a clock that advances during a merge, and other writers between two puts.
- SpeakerMatch: embeddings, cosine arithmetic, updating and activating templates, and the expiry of pending ones; scores are whole millionths.
- SpeakerMatch.BestActive: which of several persons with exactly equal best scores is named is left open; such a tie is never accepted while the margin is positive.
- Canvas: the font is a parameter, because its table is data; horizontal and vertical lines are rectangles of extent one.
- Png: the compressor and the checksum are parameters, the compressor only required to be undone on the data at hand; the reader understands filter type 0 alone.
- The resampling windows of the accuracy report, HTTP and satellite endpoints, storage engines, rendering, telemetry and settings.
