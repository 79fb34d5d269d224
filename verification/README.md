# FaultLane: verified model of the server's protocols

FaultLane is a crash-analytics server. Its difficult logic is a set of transaction protocols over Postgres
rows and a few algorithms around them. This project models those parts and proves what they keep.

Tables are maps, a committed SQL statement or a short locked transaction is one atomic step, and any number of
actors interleave and may stop at any step. The code that changes rows or buffers in place is written as classes
and methods with loops; each such method is proved against the step function of the state machine it belongs to,
and the theorems are proved about all runs of that machine.

| files | what they model |
| --- | --- |
| `AlertModel`, `AlertInvariants`, `AlertTheorems` | conditions and deliveries of the alert engine as one state machine |
| `AlertDelivery` | what its tables show: when a delivery may be sent, how long leases and retries last, how it ends |
| `AlertEvaluation`, `AlertPayload`, `AlertEngine` | its evaluators, the payloads they build, and its workers at work on the tables |
| `RuleScheduler`, `AlertTick` | which rules a scheduler tick evaluates, and which of them fail |
| `IngestModel`, `IngestTheorems`, `IngestStore` | registering, uploading, committing, cleaning up and reconciling a crash object |
| `UploadChunks`, `RateLimit` | cutting the request body into parts; the two request counters |
| `Grouping`, `Rollups`, `RollupMeaning`, `RollupRepair`, `RollupTriggers`, `Overview` | two-stage grouping, the daily rollup cache and what its cells mean, its repair, the triggers that keep it, and the overview read from it |
| `Redaction`, `JsonPaths`, `ResultRedaction`, `ResultIndex`, `Ordering` | data rules: text redaction, redaction of a whole result, context facets |
| `Keyset`, `Paging` | cursor pages over a changing table |
| `PartUpload` | resuming a multipart upload in the CLI |
| `Membership` | the last owner of an organization |

`dafny verify dfyconfig.toml` checks everything.

## Results that are conditions

Some properties hold only under a condition. Each is proved in both directions.

- A redaction pattern is always removed from every text, under every valid list of patterns it can be in, if and
  only if it does not overlap the placeholder `[REDACTED]` (`Redaction.AlwaysRemovedExactlyWithoutOverlap`).
  Patterns without brackets never overlap it. `Redaction.BracketPatternLeaks` gives a concrete leak.
- The same condition decides idempotence: under every valid list whose other patterns do not overlap, redacting twice
  is redacting once if and only if the pattern does not overlap (`Redaction.AlwaysIdempotentExactlyWithoutOverlap`).
- An evaluation of a rule goes through if and only if every observed scope is active already or has a payload of at most
  16 KiB, every scope to recover has one, and scopes have 1 to 200 bytes
  (`AlertEngine.AlertStore.EvaluateIssueRulePages`, `EvaluateObservations`).
- The rule scheduler serves every rule in ceil(N/1000) ticks if no rule fails, and none once a rule that keeps failing has
  reached the front: an error ends the tick before the failing rule is stamped (`RuleScheduler.FairExactlyWithoutFailures`).
  In that lemma the failing rules are an input. `AlertTick.EvaluateRulesOnce` derives them from the tables: exactly the
  rules that cannot be evaluated now. A rule that observes an inactive scope with an oversized payload stays among them,
  and over any number of ticks only the rules that were ahead of it are still evaluated (`AlertTick.RunScheduler`).
  Setup and schema bound every part of a payload but one: with a `PUBLIC_BASE_URL` of at most 2000 characters a payload
  always fits, with one of more than 16384 it never does (`AlertPayload.OnlyALongBaseUrlBlocks`). Database errors are the
  other way to fail.
- An activation decided on a stale "no row" read keeps the alert invariant if and only if the scope is still at
  generation 1 when it writes (`AlertTheorems.StaleActivationExactly`, with a run that breaks it in
  `StaleActivationBreaksTheTables`). What it costs: the transitions up to the old generation create no delivery
  (`StaleActivationSilencesTheScope`).
- The object of a commit is safe for ever if and only if it is still in the store and no reconcile pass has its key in
  hand (`IngestTheorems.CommitIsSafeExactlyBeforeSelection`, with a run that loses it in `LateCommitLosesItsObject` and
  one in which a late commit is safe in `LateCommitAfterAFailedDeleteIsSafe`).
- A repaired day stays counted under every later transaction (`RollupTriggers.RunKeepsCounts`). Two things break it. A
  repair reads its day in one statement and writes it in later ones without a lock: it leaves the day counted if and only
  if nothing changed a count of the day in between (`RollupTriggers.RepairCountsExactlyWhatItRead`; an event stored in
  between is missing from the total, `EventDuringARepairIsLost`). And pointing an event at another result without writing
  its search row keeps the day counted if and only if no key of the event changes by it
  (`RollupTriggers.ResultAloneKeepsCountsExactly`); the worker always writes the search row first.
- Rollup totals over a counted window equal the raw totals if and only if no key of the window is longer than 512
  characters (`Rollups.BranchesAgreeExactlyWhenKeysFit`); a day can be repaired if and only if no two groups of it
  share a stored key and no key is empty (`RollupRepair.RollupStore.RepairDay`). Platform `a/b` with
  architecture `c` beside `a` with `b/c` is such a clash (`RollupRepair.SlashedPlatformsClash`).

## Assumptions

- The database clock is monotone. Lease tokens, event ids and object keys are fresh. Rule and evaluator clocks are arbitrary.
- SQL statements and short locked transactions are atomic; unique keys are those of the migrations.
- For the rollup triggers: an event that has a result has the search row of that result, as the worker writes both in one
  transaction and a migration filled in the older rows; releases that events name exist, by a foreign key.
- A request commits, or gives up, within one hour of registering its key; that hour is the reconcile grace period.
- The object store's `complete` and `delete` are atomic, but may report a failure after having taken effect.
- Generations stay below the `i64` maximum where the alert invariant is claimed: the code saturates there.
- Hashes are injective; a send result, a clock reading, a serialized length and an issue filter are arbitrary inputs.

## Model

The main results come first, then the lemmas and methods they rest on.

| member | source | states |
| --- | --- | --- |
| `AlertInvariants.ReachableStatesAreGood` | apps/server/src/alerts.rs:1940-2021 | every state that any interleaving of transitions, leases, expiries, finishes and first-activation races reaches from empty tables satisfies the five-part invariant over conditions, deliveries and claims |
| `AlertTheorems.ScopeHistory` | apps/server/src/alerts.rs:1680-1796 | a scope is active exactly at odd generations and has exactly one delivery for each generation from 1 on, alternating triggered and recovered |
| `AlertTheorems.SuppressedPairsAreNeverSent` | apps/server/src/alerts.rs:1747-1791 | over all runs the recovery of generation g+1 is suppressed exactly when the trigger of g is, and then neither was or ever will be leased |
| `AlertTheorems.LeasesAreBounded` | apps/server/src/alerts.rs:1945-2004 | no delivery is claimed more often than max_attempt, a suppressed one never |
| `AlertTheorems.FinishTakesEffectExactlyForTheLatestClaim` | apps/server/src/alerts.rs:2242-2278 | a finish changes the row if and only if its claim is the newest and still leased; a stale finish changes nothing |
| `AlertTheorems.TerminalRowsAreFinal` | apps/server/src/alerts.rs:1946-1953 | delivered, dead, unknown and suppressed rows are never touched again by any continuation |
| `AlertTheorems.EveryDeliveryCanSettle` | apps/server/src/alerts.rs:1940-2021 | from every good state each delivery can still reach a final state |
| `AlertTheorems.WorkIsBounded` | apps/server/src/alerts.rs:1944-2021 | any run commits a bounded number of worker transactions on one delivery |
| `AlertTheorems.RacingFirstActivations` | apps/server/src/alerts.rs:1678-1746 | any number of evaluators that all read no row and activate leave generation 1 with one delivery |
| `AlertTheorems.StaleActivationExactly` | apps/server/src/alerts.rs:1678-1746 | an activation decided on a stale "no row" read keeps the invariant if and only if the scope still is at generation 1 |
| `AlertTheorems.StaleActivationSilencesTheScope` | apps/server/src/alerts.rs:1717-1796 | after a stale activation resets a scope that was at generation g, no run creates a delivery for it until it has passed g again, so g-1 transitions are silent |
| `AlertDelivery.DeliveriesWaitOutQuietHours` | apps/server/src/alerts.rs:1763-1818 | the delivery of a committed change of state is due at the first second that is outside quiet hours, and over every continuation nobody leases it before |
| `AlertDelivery.RecoveryIsSilentExactlyInQuietHours` | apps/server/src/alerts.rs:1747-1791 | a scope that recovers suppresses its trigger and its recovery exactly if quiet hours had not yet let the trigger out, whatever happened in between |
| `AlertDelivery.LeasesLastThirtySeconds` | apps/server/src/alerts.rs:1991-2004 | for 30 seconds, or until its worker reports, no run hands a leased delivery to anyone else or touches it, and after 30 seconds it is due again |
| `AlertDelivery.RetriesWait` | apps/server/src/alerts.rs:2248-2260 | after its n-th failed try a delivery is leased by nobody for 15 n seconds, over every continuation, and can be leased then |
| `AlertDelivery.DeliveriesEndAsReported` | apps/server/src/alerts.rs:2242-2278 | over every run a delivery is delivered exactly if its newest claim reported so under its lease, unknown exactly if it could not tell, dead exactly if it failed for good or its last lease ran out |
| `AlertEngine.AlertStore.EvaluateIssueRulePages` | apps/server/src/alerts.rs:1364-1416 | true means the active scopes are exactly the matching issues, each row with what was observed of it and moved on by one generation exactly if its state changed; false that nothing was recovered; without a page limit it fails exactly when some matching issue cannot become active or some stale scope cannot be recovered; both loops end |
| `AlertEngine.AlertStore.EvaluateObservations` | apps/server/src/alerts.rs:1301-1324 | activate what is observed, recover the rest: goes through exactly when all of it can, and then observed scopes are active with their observation, the others have recovered with the payload they had, and every row moved on by one generation exactly if its state changed |
| `AlertTick.EvaluateRulesOnce` | apps/server/src/alerts.rs:1242-1290 | a whole tick over the tables is a tick of the scheduler model in which exactly the rules that cannot be evaluated now fail, and blocked scopes stay blocked |
| `AlertTick.RunScheduler` | apps/server/src/alerts.rs:1217-1290 | any number of ticks over the tables, with observations that change from tick to tick: while some scope blocks a rule, the evaluations that go through and the rules still ahead of it add up to the rules that were ahead of it |
| `RuleScheduler.FairExactlyWithoutFailures` | apps/server/src/alerts.rs:1242-1290 | for every fixed set of failing rules: after a warm-up ceil(N/1000) ticks evaluate every rule if the set is empty, and none if it is not |
| `RuleScheduler.OneFailingRuleStarvesTheRest` | apps/server/src/alerts.rs:1254-1281 | while one rule keeps failing, whatever else fails or recovers, the evaluations that still go through number at most the rules that were ahead of it |
| `IngestTheorems.NothingLostNothingLeaked` | apps/server/src/crash_ingest.rs:440-488 | at every moment a stored object is referenced by a committed event or listed as an orphan, and a committed event has its object |
| `IngestTheorems.CommittedObjectsAreNeverDeleted` | apps/server/src/crash_ingest.rs:678-757 | no later request or reconcile pass deletes the object of a committed event |
| `IngestTheorems.OneEventPerCrash` | apps/server/src/crash_ingest.rs:771-911 | all accepted answers for one crash guid name one event, and at most one of them says it is new |
| `IngestTheorems.EachEventHasOneObjectAndOneJob` | apps/server/src/crash_ingest.rs:771-903 | every committed event has exactly one object row and one job, and nothing else has |
| `IngestTheorems.CommitIsSafeExactlyBeforeSelection` | apps/server/src/crash_ingest.rs:724-757 | the object of a commit stays in the store over every continuation if and only if it is there and no pass has its key in hand; within the grace period both hold |
| `IngestStore.IngestTables.SubmitCrash` | apps/server/src/crash_ingest.rs:410-493 | a whole request is a run that registers once and uploads under its own crash guid; an accepted answer names an event of this project and guid with its object and job, its own exactly if it is new; without faults a crash that already has an event is answered with that one; an unwanted object is gone or listed with its failed deletion |
| `UploadChunks.UploadSession.StoreRequest` | apps/server/src/crash_ingest.rs:572-663 | what is spooled, digested and uploaded are the same bytes; success is the verdict on the stream; failure aborts |
| `RateLimit.CountersCountAdmissions` | apps/server/src/crash_ingest.rs:919-1004 | in every live bucket each counter equals the requests admitted and stays within its limit |
| `RateLimit.RefusedExactlyAtTheLimit` | apps/server/src/crash_ingest.rs:919-983 | after any history a request is refused exactly if the 60 seconds of its minute have already let through the limit of its project or of its address |
| `RateLimit.MinutesStayWithinLimits` | apps/server/src/crash_ingest.rs:919-983 | over every history no minute lets through more requests of a project or of an address than the limits say |
| `RateLimit.RemainingIsExact` | apps/server/src/crash_ingest.rs:975-982 | the advertised remaining is exactly how many further requests this address alone gets admitted |
| `RollupRepair.RollupStore.RepairDay` | apps/server/src/project_rollups.rs:152-203 | repair succeeds exactly for storable days, makes the day exact, and then every cell means what the columns say; other days stay, and nothing changes on failure |
| `RollupRepair.RepairProjectRollups` | apps/server/src/project_rollups.rs:59-127 | invalid spans and unknown projects change nothing; success is exactly a valid span of storable days, all exact afterwards, with both backfills run and every reported number exact |
| `RollupMeaning.CountedDayMeans` | apps/server/src/project_rollups.rs:168 | on a counted day each cell is the number of events or issues that the raw columns say: by microsecond of arrival, release or "unmapped", platform and architecture or "unknown", crash type, state, symbolication, first and last sighting |
| `RollupMeaning.SymbolicationIsCounted` | apps/server/src/project_rollups.rs:168 | failed and quarantined events count as failed even with a search row, otherwise the search row decides, otherwise awaiting_symbols counts as missing and the rest as processing |
| `RollupTriggers.RunKeepsCounts` | migrations/20260815190000_bounded_dashboard_search.sql:29-488 | a day whose cells are all right stays so over every run of ingests, event updates, published results, removals, issue changes and repairs, whatever the cache holds for other days |
| `RollupTriggers.LiveBranchesAgreeExactlyWhenKeysFit` | apps/server/src/dashboard.rs:841-908 | after any such run rollup branch and raw branch agree on the tables as they are then, for every key of a dimension, if and only if no key of the window is cut |
| `RollupTriggers.RunKeepsRows` | migrations/20260815190000_bounded_dashboard_search.sql:29-488 | over any run a day that was counted without rows at zero has a row exactly for what counts something |
| `RollupTriggers.RepairCountsExactlyWhatItRead` | apps/server/src/project_rollups.rs:152-203 | a repair written after other transactions leaves its day counted if and only if they changed no count of the day |
| `RollupTriggers.ResultAloneKeepsCountsExactly` | migrations/20260815190000_bounded_dashboard_search.sql:256-290 | an update of an event's current result alone keeps its day counted if and only if no cut key of the event changes |
| `Rollups.BranchesAgreeExactlyWhenKeysFit` | apps/server/src/dashboard.rs:841-908 | over a window of counted days rollup branch and raw branch agree on every key of a dimension if and only if no key was cut |
| `Rollups.DimensionsAddUpToTheTotal` | apps/server/src/project_rollups.rs:168 | on each counted day the rows of every event dimension add up to event_total |
| `Grouping.TwoStagesAreOne` | apps/server/src/project_rollups.rs:168 | grouping finely and summing up coarsely is grouping coarsely, for every table and every pair of groupings |
| `Redaction.AlwaysRemovedExactlyWithoutOverlap` | apps/server/src/data_rules.rs:291-324 | a validated pattern is removed under every valid list and text if and only if it does not overlap |
| `Redaction.AlwaysIdempotentExactlyWithoutOverlap` | apps/server/src/data_rules.rs:444-450 | under every valid list whose other patterns do not overlap, redacting twice is redacting once if and only if the pattern does not overlap |
| `Redaction.ReplaceKeepsTheGaps` | apps/server/src/data_rules.rs:444-450 | replacing cuts the text at the leftmost occurrences of the pattern, puts [REDACTED] there and keeps everything else |
| `Redaction.CutIsUnique` | apps/server/src/data_rules.rs:444-450 | there is one such way to cut a text, so the replacement is determined |
| `ResultRedaction.ResultIsRedactedWhereListed` | apps/server/src/data_rules.rs:259-266 | redacting a result is redacting exactly the texts at the listed paths |
| `ResultRedaction.RedactionTouchesOnlyListedPaths` | apps/server/src/data_rules.rs:326-442 | every path keeps its kind, keys, length and leaf, except texts at listed paths |
| `ResultIndex.ResultDocument.RedactAndIndex` | apps/server/src/data_rules.rs:259-266 | the document ends up redacted at the listed paths and the facets are those of the redacted document |
| `ResultIndex.FacetsAreClean` | apps/server/src/data_rules.rs:259-266 | facets of a redacted result name indexed keys only and hold no pattern, even after the cut at 512 characters |
| `Paging.StayingRowsAreListedExactlyOnce` | apps/server/src/dashboard.rs:471-503 | a completed walk lists every row that keeps matching with its key exactly once, for all page limits |
| `PartUpload.UploadArtifact` | apps/cli/src/symbol_upload.rs:294-387 | rejects a view before anything is sent or read, fails when the file does not open, and otherwise sends exactly the missing parts with their own bytes of the file; completed plus transferred bytes are the artifact size |
| `PartUpload.EveryByteIsInExactlyOnePart` | apps/cli/src/symbol_upload.rs:299-340 | the parts tile the artifact without gap or overlap |
| `Membership.RunsKeepAnOwner` | apps/server/src/auth.rs:1273-1404 | an organization with an owner keeps one over any interleaving of first checks, locked commits and abandoned requests |
| `Membership.OwnershipIsLostExactly` | apps/server/src/auth.rs:1273-1404 | over any run an owner stays one throughout if and only if no step commits, under the lock, an owner's request to end that ownership while another owner remains |
| `Membership.WithoutOwnersTheTopIsFixed` | apps/server/src/auth.rs:1273-1404 | owners and admins stay exactly who they are over whole runs in which no caller is an owner under the lock, even if it was one at its first check |
| `AlertInvariants.StepKeepsInv` | apps/server/src/alerts.rs:1666-1796 | each single one of these steps, by any actor, keeps the invariant |
| `AlertInvariants.OnlyTheLatestClaimHoldsTheLease` | apps/server/src/alerts.rs:2260-2274 | a claim whose token matches a leased row is the newest claim of the row and the only one that matches |
| `AlertInvariants.RecoverySuppressesBothOrNeither` | apps/server/src/alerts.rs:1747-1791 | recovering a scope suppresses the waiting trigger and its own delivery together, or neither |
| `AlertInvariants.LeaseKeepsInv` | apps/server/src/alerts.rs:1991-2004 | leasing a claimable row under a fresh token keeps the invariant |
| `AlertInvariants.FinishKeepsInv` | apps/server/src/alerts.rs:2242-2278 | any finish, current or stale, keeps the invariant |
| `AlertInvariants.TransitionKeepsInv` | apps/server/src/alerts.rs:1666-1796 | any evaluation of any scope keeps the invariant, including one that is rejected |
| `AlertInvariants.RacedActivationKeepsInv` | apps/server/src/alerts.rs:1678-1746 | an activation that raced with the first one keeps the invariant |
| `AlertInvariants.RunKeepsInv` | apps/server/src/alerts.rs:1940-2021 | every run of these steps keeps the invariant |
| `AlertTheorems.AttemptCountsLeases` | apps/server/src/alerts.rs:1991-2004 | the attempt column counts the leases a run has handed out |
| `AlertTheorems.WorkLowersRank` | apps/server/src/alerts.rs:1944-2021 | every claim, finish and final expiry lowers a measure of the row, and nothing ever raises it |
| `AlertTheorems.SelectedRowIsAlwaysUpdated` | apps/server/src/alerts.rs:1946-2004 | the locked update, or the final expiry, always matches the row the candidate query selected |
| `AlertTheorems.UnfinishedRowsWakeUp` | apps/server/src/alerts.rs:1946-1953 | exactly the unfinished rows become selectable, and they do at their wake time |
| `AlertTheorems.QuietDelayEndsQuietHours` | apps/server/src/alerts.rs:1798-1818 | the delay is zero exactly outside quiet hours, otherwise it ends at the first instant that is no longer quiet |
| `AlertDelivery.DelayIsTheQuietWait` | apps/server/src/alerts.rs:1798-1818 | the delay is the least wait until a second that does not lie in the cyclic interval of quiet hours |
| `AlertDelivery.TransitionEvaluates` | apps/server/src/alerts.rs:1666-1796 | what any evaluation leaves behind in conditions and deliveries, for every state of the tables |
| `AlertDelivery.NoLeaseBefore` | apps/server/src/alerts.rs:1946-2004 | a row that is nobody's and not due before a moment is leased by nobody before it, in any run |
| `AlertDelivery.LeaseLasts` | apps/server/src/alerts.rs:1946-2004 | a leased row stays as it is until its lease runs out or its worker reports, in any run |
| `AlertEvaluation.TransitionMovesOneScope` | apps/server/src/alerts.rs:1666-1796 | a transition sets its own scope's state and no other condition, and a failed one nothing |
| `AlertEvaluation.OtherRulesAreUntouched` | apps/server/src/alerts.rs:1364-1521 | evaluating one rule leaves the conditions of all other rules alone |
| `AlertEvaluation.StaleAreTheActiveNonMatching` | apps/server/src/alerts.rs:1480-1503 | the recovery query selects exactly the active scopes whose issue no longer matches |
| `AlertEngine.ClaimTraceIsARun` | apps/server/src/alerts.rs:1944-2020 | the transactions of one claim loop are a run of the state machine |
| `AlertEngine.BuryingShrinksTheBacklog` | apps/server/src/alerts.rs:1964-1990 | each turn of the claim loop that buries a row leaves fewer to bury, so the loop ends |
| `AlertEngine.AlertStore.TransitionCondition` | apps/server/src/alerts.rs:1666-1796 | the evaluation transaction is the machine's transition step; in the columns: refused exactly over 200 bytes of scope or 16384 of a changed payload, otherwise the new generation with its stamped payload, and a delivery that was never tried, is tried three times at most, and is due when quiet hours are over |
| `AlertEngine.AlertStore.Candidate` | apps/server/src/alerts.rs:1946-1953 | a selectable row that no other transaction holds, or none when there is none |
| `AlertEngine.AlertStore.ClaimDelivery` | apps/server/src/alerts.rs:1940-2021 | rows whose last lease ran out become dead, at most one row, the one due longest, is leased for 30 seconds under the fresh token with its attempt counted, all other rows stay, and it comes back empty only with nothing due |
| `AlertEngine.AlertStore.FinishDelivery` | apps/server/src/alerts.rs:2242-2286 | the outcome is written under the latest lease only, with state, failure code, delivery time and a retry wait of 15 seconds for each attempt, and the answer says whether it was |
| `AlertEngine.AlertStore.RecoverScopes` | apps/server/src/alerts.rs:1509-1518 | exactly one recovery for each selected scope, in order, up to the first whose stored payload no longer fits; recovered scopes are inactive and no other row moved |
| `AlertEngine.AlertStore.RecoverIssueConditions` | apps/server/src/alerts.rs:1475-1521 | the paged recovery ends, goes through exactly when every stale scope can be recovered, and then leaves active the scopes that were active and match |
| `AlertEngine.AlertStore.RecoverAbsentConditions` | apps/server/src/alerts.rs:1326-1354 | for any rule and any payloads: goes through exactly when every absent scope can be recovered, with one transition each, and then leaves active the observed ones |
| `AlertTheorems.StaleActivationBreaksTheTables` | apps/server/src/alerts.rs:1678-1746 | a run of two transitions to generation 2, after which an activation on a stale "no row" read breaks the invariant |
| `AlertEngine.AlertStore.ActivateScopes` | apps/server/src/alerts.rs:1388-1397 | one activation for each observation, in order, up to the first that cannot become active; nothing but observed scopes moved |
| `AlertEvaluation.CanActivateIsStable` | apps/server/src/alerts.rs:1388-1397 | whether a scope can become active does not depend on the activations before it in the same evaluation |
| `AlertEvaluation.RestIsTheSame` | apps/server/src/alerts.rs:1475-1503 | whether the stale scopes can be recovered does not depend on the activations before |
| `AlertEvaluation.EvaluationIsUpToDate` | apps/server/src/alerts.rs:1301-1416 | after activating what is observed and recovering the rest, every scope of the rule is as observed, recovered, or untouched |
| `AlertEvaluation.BlockedStaysBlocked` | apps/server/src/alerts.rs:1727-1733 | an observed inactive scope whose payload fits at no clock is still blocked after the evaluation, also for a later payload that is too large |
| `AlertTick.EvaluateRule` | apps/server/src/alerts.rs:1292-1324 | one rule of either kind goes through exactly when it can, and then each of its scopes is as observed or recovered; a blocked one fails and stays blocked; rows of other rules are left alone |
| `AlertTick.BlockedRulesFail` | apps/server/src/alerts.rs:1270-1271 | blocked rules are among the failing ones of every tick |
| `AlertTick.BlockedTick` | apps/server/src/alerts.rs:1254-1281 | a tick over the tables of a blocked rule evaluates exactly the rules that leave the places ahead of it |
| `AlertTick.TickKeepsReady` | apps/server/src/alerts.rs:1254-1281 | after such a tick the rule is still blocked by the same scope in every later round, whatever the other rules observe there |
| `AlertPayload.OnlyALongBaseUrlBlocks` | apps/server/src/alerts.rs:1639-1733 | with bounded names a payload is small for a base URL of at most 2000 characters, and for one of more than 16384 it fits at no clock |
| `AlertPayload.OrdinaryPayloadsGoThrough` | apps/server/src/alerts.rs:1292-1354 | an evaluation whose observed and stored payloads are that small goes through |
| `AlertPayload.LinkOfBase` | apps/server/src/alerts.rs:1645-1653 | the link is the base without its trailing slashes and the path of the project or issue |
| `RuleScheduler.SchedulerIsFair` | apps/server/src/alerts.rs:1242-1290 | without failures any ceil(N/1000) consecutive ticks evaluate each of N rules |
| `RuleScheduler.WaitingRulesAreServed` | apps/server/src/alerts.rs:1248-1281 | any ceil(n/1000) consecutive ticks without failures evaluate every one of n rules that wait in front |
| `RuleScheduler.TickApproachesFailure` | apps/server/src/alerts.rs:1254-1281 | a tick evaluates nothing when a failing rule is in front, and otherwise moves a rule from before it to behind it |
| `RuleScheduler.TickUsesUpAhead` | apps/server/src/alerts.rs:1248-1281 | in a tick with a failing rule the evaluated rules and the rules still ahead of it add up to the rules that were ahead of it |
| `RuleScheduler.ServedGoToTheBack` | apps/server/src/alerts.rs:1271-1281 | after a tick without failures the waiting rules that are left still come before all others |
| `RuleScheduler.FailingRuleStopsTheScheduler` | apps/server/src/alerts.rs:1270-1281 | a rule that keeps failing reaches the front of the page and then no tick evaluates anything |
| `RuleScheduler.Scheduler.SelectDue` | apps/server/src/alerts.rs:1248-1254 | the page is the first thousand rules, never evaluated first, then longest ago, then by id |
| `RuleScheduler.Scheduler.EvaluatePage` | apps/server/src/alerts.rs:1254-1281 | rules are stamped in page order up to the first error |
| `RuleScheduler.Scheduler.EvaluateRulesOnce` | apps/server/src/alerts.rs:1242-1290 | one tick is a tick of the model |
| `RuleScheduler.FullPageOfWaiting` | apps/server/src/alerts.rs:1248-1254 | a tick takes a thousand waiting rules or all of them |
| `IngestTheorems.StepKeepsInv` | apps/server/src/crash_ingest.rs:440-488 | every step of any request or reconcile pass keeps the write-ahead invariant |
| `IngestTheorems.RunKeepsInv` | apps/server/src/crash_ingest.rs:440-488 | every run of requests and reconcile passes keeps the write-ahead invariant |
| `IngestTheorems.OneCommittedEventPerCrash` | apps/server/src/crash_ingest.rs:823-872 | at most one event per crash guid is ever committed |
| `IngestTheorems.RunKeepsIdentity` | apps/server/src/crash_ingest.rs:440-488 | over any run a request is registered once and uploads under one guid |
| `IngestTheorems.ReconcileSelectsOnlyDeadKeys` | apps/server/src/crash_ingest.rs:728-735 | a key a reconcile pass may select belongs to no event, now or later |
| `IngestTheorems.UnreferencedObjectsCanBeCollected` | apps/server/src/crash_ingest.rs:724-757 | every unreferenced object can be collected from any good state |
| `IngestStore.IngestTables.FindEvent` | apps/server/src/crash_ingest.rs:771-780 | the event that owns a crash guid, or none |
| `IngestStore.IngestTables.LookupEvent` | apps/server/src/crash_ingest.rs:771-803 | a guid that has an event answers with it and leads to cleanup of the new object |
| `IngestStore.IngestTables.CommitEvent` | apps/server/src/crash_ingest.rs:811-903 | object row, event, job and orphan removal happen together, or the taken guid rolls all back |
| `IngestStore.IngestTables.AdoptEvent` | apps/server/src/crash_ingest.rs:836-872 | a losing insert answers with the winner's event |
| `IngestStore.IngestTables.CleanupObject` | apps/server/src/crash_ingest.rs:678-695 | cleanup deletes the object and then its listing, or counts the failed attempt, while others interleave |
| `IngestStore.IngestTables.InsertEvent` | apps/server/src/crash_ingest.rs:804-911 | the insert half of the transaction, with an uncertain commit left for reconciliation |
| `IngestStore.IngestTables.PersistEvent` | apps/server/src/crash_ingest.rs:760-912 | look up, then insert or adopt, with other requests in between |
| `IngestStore.IngestTables.UploadAndPersist` | apps/server/src/crash_ingest.rs:441-480 | upload, inspection and persistence under the guid of the request |
| `IngestStore.IngestTables.SelectOrphans` | apps/server/src/crash_ingest.rs:724-735 | up to sixteen due keys |
| `IngestStore.IngestTables.ReconcileKey` | apps/server/src/crash_ingest.rs:736-757 | one selected key: delete object, then row, or postpone it |
| `IngestStore.IngestTables.ReconcileOrphans` | apps/server/src/crash_ingest.rs:724-757 | a whole pass is a run that keeps the invariant |
| `IngestTheorems.LateCommitLosesItsObject` | apps/server/src/crash_ingest.rs:724-757 | a run in which a request outlives its grace period, is selected, and a commit then loses its object |
| `IngestTheorems.LateCommitAfterAFailedDeleteIsSafe` | apps/server/src/crash_ingest.rs:736-757 | a run in which the pass fails to delete the object and moves on, after which a late commit keeps its object for ever |
| `IngestTheorems.RunKeepsOutOfReach` | apps/server/src/crash_ingest.rs:724-757 | a committed event that is no orphan and in no pass's hand stays that way over every run |
| `UploadChunks.VerdictIsOkExactlyWithinTheLimit` | apps/server/src/crash_ingest.rs:596-641 | absent failures an upload succeeds exactly when its stream is whole and 0 < size <= the limit |
| `UploadChunks.FullPartsSize` | apps/server/src/crash_ingest.rs:622-636 | all parts but the last are exactly one chunk long |
| `UploadChunks.PartIsSlice` | apps/server/src/crash_ingest.rs:622-653 | part k is the slice of the body from k chunk sizes on, and not empty |
| `UploadChunks.UploadSession.Feed` | apps/server/src/crash_ingest.rs:622-636 | the cutting loop sends every part that fills up and keeps the rest |
| `UploadChunks.UploadSession.FinishUpload` | apps/server/src/crash_ingest.rs:638-662 | the last, shorter part and the completion |
| `RateLimit.RateLimiter.ApplyRateLimits` | apps/server/src/crash_ingest.rs:919-983 | both counters move together, or neither; refused exactly if the minute has reached one of the limits, and otherwise the reply says how many more it lets through |
| `RateLimit.CountersAreByMinute` | apps/server/src/crash_ingest.rs:926-960 | two requests share a counter exactly if they are of one project, or one address of it, and of one minute |
| `RateLimit.RateLimiter.SelectExpired` | apps/server/src/crash_ingest.rs:937-943 | up to 128 unlocked rows whose two minutes are over, and all of them when there are fewer |
| `RateLimit.AddressCountersSumToProject` | apps/server/src/crash_ingest.rs:919-1004 | the address counters of a live bucket add up to the project counter |
| `RateLimit.AdmissionKeepsTheSum` | apps/server/src/crash_ingest.rs:944-959 | an admission raises the sum of the address counters of its bucket by one |
| `RateLimit.OnlyAdmittedRequestsCount` | apps/server/src/crash_ingest.rs:944-974 | a rejected request changes no counter |
| `Grouping.SumOfCounts` | apps/server/src/project_rollups.rs:168 | counts of a selection of groups add up to the rows selected |
| `Grouping.SumGroups` | apps/server/src/project_rollups.rs:168 | the second stage as a loop over the groups |
| `RollupRepair.TwoStagesCountTheEvents` | apps/server/src/project_rollups.rs:168 | grouping the joined rows with their nulls and merging the nulls afterwards counts each dimension's events directly |
| `RollupRepair.RollupStore.EventBuckets` | apps/server/src/project_rollups.rs:168 | the temporary table gets every group of the six event dimensions with its exact count |
| `RollupRepair.RollupStore.TemporaryTable` | apps/server/src/project_rollups.rs:162-174 | the temporary table also gets the issue rows, the regressed one even at zero |
| `RollupRepair.StorableIsInsertable` | apps/server/src/project_rollups.rs:191-197 | when the day's events do not clash the insert violates no constraint |
| `RollupRepair.InsertableIsStorable` | apps/server/src/project_rollups.rs:191-197 | when the insert violates no constraint the day's events do not clash |
| `RollupRepair.PlainDaysAreStorable` | apps/server/src/project_rollups.rs:168-197 | a day whose platforms hold no slash and whose keys have 1 to 512 characters can be repaired, and its totals are those of the raw branch |
| `RollupRepair.SlashedPlatformsClash` | apps/server/src/project_rollups.rs:168-197 | a concrete day of two events whose platform keys collide, which cannot be repaired |
| `RollupRepair.ReplacedDayIsExact` | apps/server/src/project_rollups.rs:183-197 | after delete and insert every row of the day holds the direct count under its cut key, and no row is missing or left over |
| `RollupRepair.GroupIsUnderItsKey` | apps/server/src/project_rollups.rs:191-197 | on a day without clashes the events under a stored key are exactly one group |
| `Rollups.WindowCountIsTheEvents` | apps/server/src/dashboard.rs:769-791 | the day counts of a window add up to the events received between its bounds |
| `RollupRepair.RollupStore.RepairRange` | apps/server/src/project_rollups.rs:129-150 | day after day up to the first failing day; the reported row count is the saturated number of rows in the range |
| `RollupRepair.VectorTable.FillBatch` | apps/server/src/project_rollups.rs:212-219 | a batch fills up to a thousand unlocked rows and is short only when it took them all |
| `RollupRepair.VectorTable.Backfill` | apps/server/src/project_rollups.rs:205-247 | the loop ends, reports what it filled, and leaves only rows that were locked at its last batch |
| `Rollups.CachedTotalCountsCutKeys` | apps/server/src/dashboard.rs:841-892 | over a counted window each cached total is the number of events with that cut key |
| `Rollups.EventTotalsAgree` | apps/server/src/dashboard.rs:769-791 | the headline number of events agrees without any condition on keys |
| `Rollups.IssueTotalsAgree` | apps/server/src/dashboard.rs:769-791 | the totals of new and regressed issues of the window agree with direct counts |
| `Rollups.ExactDaysAreCounted` | apps/server/src/dashboard.rs:799-816 | on a repaired day every cell the overview reads is the direct count, an absent row reading as zero |
| `Overview.DistributionTotalIsTheEvents` | apps/server/src/dashboard.rs:841-883 | the total_count of every distribution is the number of events of the window |
| `RollupMeaning.PlatformsAreCounted` | apps/server/src/dashboard.rs:858 | where platforms have no slash a cell counts one pair of platform and architecture |
| `RollupMeaning.ReleasesAreCounted` | apps/server/src/project_rollups.rs:168 | a release counts the events mapped to it, "unmapped" the others |
| `RollupMeaning.CrashTypesAreCounted` | apps/server/src/project_rollups.rs:168 | crash types and processing states count the events that have them, "unknown" the events without a crash type |
| `RollupMeaning.LongKeysAreCounted` | apps/server/src/project_rollups.rs:191-197 | a key of 512 characters counts every event whose key begins with it, and no longer key has a cell |
| `RollupMeaning.TotalsAreCounted` | apps/server/src/project_rollups.rs:168-174 | the totals count arrivals, first sightings and last sightings of regressed issues between midnights |
| `Overview.AllIssuesAreCounted` | apps/server/src/dashboard.rs:769-791 | the issue_total over all days is the number of issues |
| `Overview.AllStatesAreCounted` | apps/server/src/dashboard.rs:945-955 | the processing states over all days count every event in that state |
| `Overview.DistributionRows` | apps/server/src/dashboard.rs:1012-1033 | the bars shown and the other count add up to the total, and there is an other count exactly when bars were cut off |
| `RollupTriggers.StepKeepsCounts` | migrations/20260815190000_bounded_dashboard_search.sql:29-488 | each single transaction keeps every counted day |
| `RollupTriggers.AppliedCell` | migrations/20260815190000_bounded_dashboard_search.sql:29-86 | a cell that holds what a list of deltas takes from it changes by exactly their net amount: neither guard nor deletion interferes |
| `RollupTriggers.DeltasLeaveNoZeroRows` | migrations/20260815190000_bounded_dashboard_search.sql:74-85 | deltas leave no row at zero |
| `RollupTriggers.UpdateMoves` | migrations/20260815190000_bounded_dashboard_search.sql:148-287 | the deltas of the update trigger move the event from the view the trigger supposes to the updated one, in every dimension and across days |
| `RollupTriggers.SearchMoves` | migrations/20260815190000_bounded_dashboard_search.sql:350-429 | the deltas of the search trigger move the event from the columns of the old search row to those of the new one |
| `RollupTriggers.IssueMoves` | migrations/20260815190000_bounded_dashboard_search.sql:437-482 | the deltas of the issue trigger move the issue between the days of its first sighting and of its regression |
| `RollupTriggers.PublishKeepsCounts` | apps/server/src/worker.rs:1491-1600 | the three statements of a publication, each with its trigger, together keep the counts, though the cache is ahead of the tables in between |
| `RollupTriggers.ViewsAreCounted` | apps/server/src/project_rollups.rs:168 | counting the views of the tables is the direct count |
| `RollupTriggers.RepairOfACountedDayChangesNoCount` | apps/server/src/project_rollups.rs:152-203 | repairing a day the triggers kept right changes no count |
| `RollupTriggers.EventDuringARepairIsLost` | apps/server/src/project_rollups.rs:152-203 | an event ingested between the read and the write of a repair is missing from the total of its day |
| `Redaction.RedactTextInOrder` | apps/server/src/data_rules.rs:444-450 | the loop over the patterns computes the sequential replacement |
| `Redaction.PatternIsRemoved` | apps/server/src/data_rules.rs:444-450 | a pattern that does not overlap the placeholder occurs nowhere afterwards, whatever later patterns insert |
| `Redaction.RedactionIsCompleteAndIdempotent` | apps/server/src/data_rules.rs:444-450 | with patterns that do not overlap the placeholder no pattern is left and redacting again is the identity |
| `Redaction.BracketFreePatternsDoNotOverlap` | apps/server/src/data_rules.rs:291-324 | validated patterns without brackets never overlap the placeholder |
| `Redaction.BracketPatternLeaks` | apps/server/src/data_rules.rs:444-450 | a concrete list and text where a pattern is left |
| `Redaction.ValidateRules` | apps/server/src/data_rules.rs:291-324 | accepts exactly at most 32 visible patterns of up to 256 and together 4096 bytes that are not inside the placeholder, and 32 keys of up to 128 plain characters; returns the same entries, longest pattern first, without repetition, and still acceptable |
| `Redaction.DistinctIsNoLarger` | apps/server/src/data_rules.rs:295-318 | dropping duplicates keeps the lists within their bounds |
| `Redaction.StoredRulesAreStable` | apps/server/src/data_rules.rs:315-318 | sorted lists without repetition that have the same entries are the same |
| `Redaction.RulesFromRow` | apps/server/src/data_rules.rs:278-289 | validating stored rules again returns them unchanged |
| `Ordering.SortDistinct` | apps/server/src/data_rules.rs:315-318 | sort and dedup keep the elements and order them strictly |
| `Ordering.CanonicalIsUnique` | apps/server/src/data_rules.rs:315-318 | a sorted list without repetition is determined by its elements |
| `Common.TextBeforeIsLexicographic` | apps/server/src/data_rules.rs:315-318 | the order of texts: after a common beginning the one that ends, or has the smaller character, comes first |
| `JsonPaths.RedactWhereIsIdempotent` | apps/server/src/data_rules.rs:412-450 | redaction at any set of paths is idempotent for non-overlapping patterns |
| `JsonPaths.LookupAfterRedaction` | apps/server/src/data_rules.rs:399-442 | redaction commutes with following a path |
| `JsonPaths.OneAfterTheOther` | apps/server/src/data_rules.rs:326-361 | redacting two disjoint sets of paths one after the other is redacting their union |
| `ResultRedaction.ContextIsWhere` | apps/server/src/data_rules.rs:326-361 | the statements over the crash context redact exactly its listed paths |
| `ResultRedaction.ListedExactly` | apps/server/src/data_rules.rs:326-397 | the covered paths, written out one by one |
| `ResultRedaction.LogIsWhere` | apps/server/src/data_rules.rs:363-370 | the log walker redacts exactly name and tail text |
| `ResultRedaction.NamedIsWhere` | apps/server/src/data_rules.rs:432-442 | a list of field names redacts exactly the texts of those fields |
| `ResultRedaction.ArrayFieldsAreItems` | apps/server/src/data_rules.rs:399-410 | the array walker redacts exactly those fields of every item |
| `ResultRedaction.FrameIsWhere` | apps/server/src/data_rules.rs:382-394 | a frame is redacted at its source file and those of its inlines |
| `ResultRedaction.SymbolicationIsWhere` | apps/server/src/data_rules.rs:372-397 | the frame walker redacts exactly the source files of frames and inlines |
| `ResultRedaction.ResultRedactionIsIdempotent` | apps/server/src/data_rules.rs:259-266 | with non-overlapping patterns a second redaction changes nothing |
| `ResultRedaction.NoPatternIsLeftAtListedPaths` | apps/server/src/data_rules.rs:259-266 | no text at a listed path of a redacted result contains a pattern that does not overlap |
| `ResultIndex.ContextFacets` | apps/server/src/data_rules.rs:452-484 | the facets are sorted by key and value, distinct, and exactly the indexed game data, cut at 512 characters and marked when cut |
| `ResultIndex.FacetListIsUnique` | apps/server/src/data_rules.rs:452-484 | a result and its keys determine the list of facets |
| `ResultIndex.FacetsAreStable` | apps/server/src/data_rules.rs:259-266 | redacting and indexing again gives the same facets |
| `ResultIndex.ResultDocument.RedactCrashContext` | apps/server/src/data_rules.rs:326-361 | the in-place change of the context member |
| `ResultIndex.RedactArrayInPlace` | apps/server/src/data_rules.rs:399-410 | the array walker changes every item's listed fields and nothing else |
| `Keyset.SelectPage` | apps/server/src/issues.rs:241-266 | the first rows past the cursor, in order |
| `Paging.ListPage` | apps/server/src/issues.rs:267-288 | between 1 and 100 rows a page, with a next cursor exactly when rows are left after it |
| `Paging.PageIsNewestFirst` | apps/server/src/issues.rs:241-266 | a page goes back in time from its cursor, and down the ids of one moment |
| `Paging.WalksAreSorted` | apps/server/src/issues.rs:233-288 | a walk lists strictly downwards whatever happens to the table between its pages |
| `Paging.ListedUpToTheCursor` | apps/server/src/dashboard.rs:486-501 | nothing listed so far lies past the cursor |
| `Paging.PassedRowsAreListed` | apps/server/src/dashboard.rs:471-503 | a row that stays is listed once the walk has passed its place |
| `Paging.ListedRowsWereThere` | apps/server/src/dashboard.rs:1035-1058 | a listed row was in the table when its page was read |
| `Paging.UnchangedTableIsListed` | apps/server/src/issues.rs:233-288 | over an unchanging table a completed walk lists the table |
| `PartUpload.PartsAreAdjacent` | apps/cli/src/symbol_upload.rs:337-340 | each part starts where the one before ends, is not empty, and ends inside the artifact |
| `PartUpload.FitsExactly` | apps/cli/src/symbol_upload.rs:299-306 | a view fits exactly with parts of up to 64 MiB, at most 10000 of them, the last of which is needed and enough |
| `PartUpload.ValidPartExactly` | apps/cli/src/symbol_upload.rs:307-327 | a completed part counts exactly if it is in range, of full size or the rest for the last one, and has 16 bytes of checksum |
| `PartUpload.CheckCompleted` | apps/cli/src/symbol_upload.rs:307-327 | accepts exactly the views whose completed parts are in range, distinct, of their own size and with a checksum |
| `PartUpload.CompletedBytesAreBytesIn` | apps/cli/src/symbol_upload.rs:308-327 | the sizes reported for completed parts add up to the bytes of those parts |
| `PartUpload.AssembledPartsAreTheFile` | apps/cli/src/symbol_upload.rs:337-351 | the parts in order are the artifact's bytes |
| `PartUpload.UploadSucceedsExactly` | apps/cli/src/symbol_upload.rs:332-387 | success is exactly an accepted view whose missing parts can all be read and sent |
| `PartUpload.CompletedAndSentPartsAreTheArtifact` | apps/cli/src/symbol_upload.rs:294-387 | if the completed parts hold their bytes, all parts together are the artifact |
| `Membership.CommitKeepsAnOwner` | apps/server/src/auth.rs:1273-1404 | a locked role change or removal never takes the last owner |
| `Membership.AllowedExactly` | apps/server/src/auth.rs:1297-1388 | who may change whom: owners everyone as long as an owner is left, admins only developers and viewers and only to those roles, nobody else anyone |
| `Membership.RolesByPermission` | apps/server/src/auth.rs:264-273 | what each role may do |
| `Membership.ConflictExactlyForTheSoleOwner` | apps/server/src/auth.rs:1435-1453 | the conflict answer is given exactly to the sole owner giving up its own ownership |
| `Membership.CommitByAnAdmin` | apps/server/src/auth.rs:1298-1309 | a caller who is not an owner under the lock changes no owner and no admin |
| `Membership.CommitsAreConfined` | apps/server/src/auth.rs:1273-1404 | a change touches its target alone and needs a caller who may manage members at that moment |
| `Membership.Organization.RequireAnotherOwner` | apps/server/src/auth.rs:1435-1453 | counts the other owners |
| `Membership.Organization.LockedUpdate` | apps/server/src/auth.rs:1297-1324 | the locked update decides and changes as the model's commit |
| `Membership.Organization.LockedRemove` | apps/server/src/auth.rs:1365-1388 | the locked removal decides and changes as the model's commit |
| `Membership.Organization.UpdateMember` | apps/server/src/auth.rs:1273-1341 | a whole request is refused by the first check with nothing changed, or is a check, any steps of other requests, and a commit decided by the members under the lock; an owner is left |
| `Membership.Organization.RemoveMember` | apps/server/src/auth.rs:1343-1404 | the same for a removal |
| `Membership.HandlingIsARun` | apps/server/src/auth.rs:1273-1404 | a handled request with whatever others did in between is a run of the machine and leaves an owner |

## Left out

- Invitations: `accept_invitation` writes a role without the organization lock, so it is outside the last-owner theorem.
- Repair drift: `drifted_rows` also counts rows of other days and projects, because its scope stands in the join condition of a full outer join; nothing is claimed about it.
- Rollup labels: labels are display text and a function of the group; the model assumes they are between 1 and 512 characters. The raw platform query groups by label too, so its totals are compared summed per key.
- Empty keys: a constraint refuses a row with an empty key, and the transaction of the trigger rolls back; such a transaction is no step of `RollupTriggers`. One insert statement stores one event, as in the source.
- Changes during a repair: in `RollupRepair` the tables stay the same during one repair. What another transaction between the read and the write of a day does is stated in `RollupTriggers.RepairCountsExactlyWhatItRead`.
- Dates: `parse_date` is not modelled, days are numbers.
- Crash guid: how it is read from the two names of the manifest (apps/server/src/crash_ingest.rs:1073-1081) is not modelled; a request carries the usable guid, or none.
- Retention: deletion of raw objects by the usage worker, usage accounting and processing after ingest are not part of this model.
- Multipart completion that reaches the object store after a timeout was reported is not modelled.
- AlertEngine.AlertStore.TransitionCondition: the database also checks that the payload's jsonb text has at most 16384 bytes, on both tables and on every write; that text is longer than the compact form the code measures. Failures of this check are not modelled, neither for a changed payload nor for one refreshed without a change.
- AlertInvariants.StepKeepsInv: an activation on a stale "no row" read above generation 1 is no step of the machine, because it breaks the invariant; it is treated in `AlertTheorems.StaleActivationExactly` and `StaleActivationSilencesTheScope`.
- AlertInvariants.ReachableStatesAreGood: the same holds for the runs it covers.
- AlertInvariants.RunKeepsInv: the same holds for the runs it covers.
- AlertTheorems.ScopeHistory: the same holds for the runs it covers.
- AlertEngine.AlertStore.ClaimDelivery: the transactions of one claim call follow each other without another actor in between; runs of the machine interleave them freely.
- RuleScheduler.Scheduler.EvaluatePage: every evaluated rule is stamped; the source does not stamp a rule that was edited or disabled since it was selected.
- RuleScheduler.Scheduler.EvaluateRulesOnce: the same holds for the tick.
- AlertTick.EvaluateRulesOnce: the same holds; rules and observations stay the same during one tick.
- AlertTick.RunScheduler: the same holds for each tick; between ticks the observations may change, but no rule is added, edited or removed.
- RollupRepair.RollupStore.RepairDay: failures of the database and the statement timeout of 30 seconds are not modelled; a repair that fails for them changes nothing either.
- RollupRepair.RepairProjectRollups: the same holds; dates are numbers already, and the drift count is left out.
- RateLimit.AddressCountersSumToProject: the public demo writes address rows for its project into the same table (apps/server/src/public_demo.rs:491) without a project row, so for that project the address counters can exceed the project counter.
- AlertEngine.AlertStore.EvaluateIssueRulePages: failures of the database end an evaluation too; they are not modelled.
- AlertEngine.AlertStore.EvaluateObservations: the same holds after the query of the observations, whose failure is an input.
- AlertTick.EvaluateRule: the same holds.
- Reconcile order: due keys are selected in any order, the source takes the longest untouched first; the theorems hold for every order.
- Clock of an evaluation: all transitions of one evaluation are stamped with one reading of the evaluator's clock; the database clock moves freely.
- Row ids as tie-break: deliveries that are due at the same time are picked in any order.
- JSON tree: a result is one value that the document replaces member by member; the pointers into the tree that the walkers update through are not modelled, except for arrays in `RedactArrayInPlace`.
- Cursor text: the base64, JSON and hash of a cursor are not modelled; a cursor is the key it carries.
- Issue filters and full-text search: an arbitrary set of matching rows.
- PartUpload.CheckCompleted: rejects an out-of-range part number before computing its size; the source computes first and range-checks after, with the same answer.
- PartUpload.UploadArtifact: signing, checking the signed reply, sending and recording a part are one call that succeeds or fails.
- HTTP handlers, headers, sessions, encryption, signatures, DNS, audit rows and configuration: plumbing and library calls.
