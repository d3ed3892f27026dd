# Verified model of the reconciliation and disclosure core

This project models, in Dafny, how measurements from several sources become a reconciled value, how deviations of a
source become discrepancies, how a named party is heard before a discrepancy is published, and the database
protocols and read paths around that. It verifies with

    dafny verify --resource-limit 2000000 --warn-contradictory-assumptions dfyconfig.toml

Each part has a specification (datatypes and functions, one function for one transaction or one computation), a
program where the source updates things in place (methods with loops, or a class whose fields are the tables), proved
equal to the specification, and laws about all inputs, all runs or all reachable states.

| part | specification | program | laws |
|---|---|---|---|
| discrepancy state machine | `Discrepancy` | | `DiscrepancyLaws`, `DiscrepancyRuns`, `DiscrepancyFields` |
| cases, notices, replies, reviews | `ReplyCase` | `CaseRepository` | `RightOfReply`, `ReplyTheorems`, `ReplyOutcomes`, `CaseOutcomes`, `NoticeLaws`, `ReplyLimits`, `CaseOpenings` |
| weighted median | `WeightedMedian` | `WeightedMedian` | `MedianLaws` |
| agreement, confidence, reconciliation | `Agreement`, `Confidence`, `Reconcile` | `Reconciler` | `ReconcileLaws`, `ReconcileResults`, `ReconcileLimits`, `Depth` |
| leases of scheduled cycles | `Leases` | `LeaseTable` | `LeaseLaws`, `LeaseTimes` |
| persistence of completed cycles | `CycleStore` | `CycleRepository` | `CycleLaws`, `CycleRows`, `Resolutions`, `SecondEpisode` |
| snapshot event stream | `SnapshotStream` | `EventStream` | `StreamLaws`, `StreamAccess` |
| canonical JSON | `CanonicalJson` | | `CanonicalJsonLaws`, `PayloadJson` |
| quotas, paging, prices | `Quota`, `Paging`, `Prices` | `Quota`, `Prices` | `QuotaLaws`, `Paging`, `Prices` |

`Outcomes`, `Sorting`, `TextOrder`, `Totals`, `Keys` and `Decimals` hold what several parts share.

## Reading the model

- A database transaction is one atomic step. An error result is a transaction that threw: the tables stay as they were.
  Which rows a locking query with `SKIP LOCKED` returns is a parameter; any answer the query may give is allowed.
- Times are integers in milliseconds; clocks, workers' ids and randomness are parameters. SHA-256 identifiers are
  represented by the parts they are computed from, so they are equal exactly when their parts are.
- Weights, ages and scores are reals: floating-point rounding is not modelled, the rounding of the score to four places
  is. The half-life decay behind a weight is data; it is only used that it lies between zero and the base weight.
- A comparison by locale is code-unit order where identifiers are sorted and any total order of distinct keys where JSON is
  printed.
- A measurement in `ReplyCase` reads, advances and writes the discrepancy in one step.

## What does not hold

Where a promised property fails, the exact condition is proved, with a reachable or concrete case.

- The expiry of a reply window is logged under an identifier made of the discrepancy alone. After a measurement reset a
  second window can begin, but it can never expire, and one such row fails the sweep for all the rows selected with it
  (`ReplyTheorems.ExpirySweepExactly`, `ReplyLimits.SecondWindowCannotExpire`).
- `docs/anchor-case-workflow.md` says that further notices do not restart the reply window. In the code the deadline moves
  if and only if a measurement reset is followed by a notice at another time (`ReplyTheorems.DeadlineMovesExactly`,
  `ReplyLimits.DeadlineMoves`).
- A case opens with one notice per contact. Once all are sent, a reset discrepancy can be pending again if and only if a
  further notice is enqueued, which nothing in the repository but its tests does (`ReplyLimits.BeginsAgainExactly`,
  `ReplyLimits.EnqueueingBegins`, `ReplyLimits.SpentIsReachable`).
- A successful delivery to an internal discrepancy that was resolved or fell to Info in the meantime cannot be recorded: the
  record throws, the notice stays unsent and is due again when its lease runs out (`NoticeLaws.DeliversExactly`).
- Depth, trustline, supply and anchor reserve discrepancies keep one identifier for every episode of a source. A unique
  index lets only one closing event target the first opening, so a closing event is inserted if and only if its
  discrepancy was never closed before. Four cycles that open, close, open and close any such discrepancy end with a call
  that throws (`Resolutions.ClosingInsertedExactly`, `SecondEpisode.SecondClosingThrows`, `SecondEpisode.TwoEpisodesExist`).
- Verified results rest on more than one upstream if and only if the same-upstream cap, after rounding to four places, lies
  below the threshold and, where one source is enough, the best score of a single source does
  (`ReconcileLimits.GuardedExactly`). A cap below the threshold by half a unit of the fourth place or less is no guard
  (`ReconcileLimits.RoundingLiftsTheCap`).
- Verified results represent every expected source class if and only if the threshold lies above the rounded score that is
  left without one of them (`ReconcileLimits.ClassesForcedExactly`). With five expected classes and a threshold of 0.8
  independent sources of four are verified (`ReconcileLimits.FourClassesVerified`).
- A case opens only if the identifier of the event that triggers it has at most 128 characters. Over all runs a case of a
  discrepancy can open if and only if its identifier and those of its cycles are short enough for that
  (`CaseOpenings.OpensExactly`, `CaseOpenings.CanOpenExactly`). Scheduled anchor reserve discrepancies, the only ones of
  named parties, are too long: no case ever opens for one, nobody is notified, and it stays internal
  (`CaseOpenings.ReservesNeverOpen`).
- A measurement rejects a streak at the largest safe integer and a methodology version of more than 100 characters, which
  the identifier rule allows (`DiscrepancyLaws.AdvanceRejectsExactly`).
- An event identifier of more than 128 characters is not an acceptable correction target; all events of anchor reserve
  discrepancies are that long (`DiscrepancyLaws.EventIdIsIdentifierExactly`,
  `DiscrepancyLaws.AnchorReserveEventsCannotBeTargeted`).
- Replaying a history changes nothing if and only if each of its measurements is settled in the final state, which order of
  completion ensures (`DiscrepancyRuns.ReplayChangesNothingExactly`, `DiscrepancyRuns.UnorderedReplayChangesState`).
- Source health is independent of the order of arrival if and only if no source has two different records at its greatest
  time (`CycleLaws.HealthForgetsOrderExactly`).
- The reaper's limit bounds retries, not attempts: releases are free (`LeaseLaws.AttemptsAreUnbounded`).
- The depth tolerance of 50 basis points ends just below 51, and agreement depends on which book is the reference unless
  every gap is below 51 basis points of the smaller amount (`Depth.DeltaWithinExactly`, `Depth.AgreeBothWaysExactly`).

## Model

| member | source | states |
|---|---|---|
| DiscrepancyLaws.IdentifierExactly | lib/contracts/domain.ts:18-18 | an identifier is a letter or digit and up to 127 more letters, digits, dots, underscores, colons and hyphens |
| DiscrepancyLaws.ValidExactly | lib/contracts/domain.ts:734-825 | the schema of persisted states: the standings and counters it allows, and the order of the times |
| DiscrepancyLaws.AdvanceRejectsExactly | lib/reconcile/discrepancy-state.ts:214-355 | an accepted cycle fails if and only if it is out of tolerance and either extends a streak at the largest safe integer or opens an episode under a version longer than 100 characters; the classification throws first if and only if the above-Info streak is that long too |
| DiscrepancyLaws.TransitionNeverRejected | lib/reconcile/discrepancy-state.ts:413-505 | the parse closing a publication action never rejects: the action succeeds if and only if the prior state is valid, the time does not go back and the guard of its branch holds |
| DiscrepancyLaws.TransitionMovesForward | lib/reconcile/discrepancy-state.ts:429-505 | an action changes only publication fields, only forward, and approval of a named party rests on a reviewed response or an expired window |
| DiscrepancyLaws.WithheldIsLeftOnlyByMeasurement | lib/reconcile/discrepancy-state.ts:286-328 | no action leaves withheld; a measurement leaves it only by a fall to Info or a new episode |
| DiscrepancyLaws.EventIdInjective | lib/reconcile/discrepancy-state.ts:140-142 | event identifiers determine discrepancy, cycle and type although identifiers may hold colons |
| DiscrepancyLaws.EventIdIsIdentifierExactly | lib/reconcile/discrepancy-state.ts:140-142 | an event identifier passes the identifier rule if and only if its length, counted from its parts, is at most 128 |
| DiscrepancyLaws.AnchorReserveEventsCannotBeTargeted | lib/reconcile/discrepancy-state.ts:357-411 | no event of a discrepancy and cycle named by digests passes the rule that corrections demand of their target |
| DiscrepancyRuns.StreakIsLongest | lib/reconcile/discrepancy-state.ts:235-240 | the streak function is the length of the longest suffix with the property |
| DiscrepancyRuns.SeverityFromHistory | lib/reconcile/discrepancy-state.ts:144-158 | after any run the counters of an open state are the longest out-of-tolerance and above-Info suffixes of the accepted cycles; severity is Critical exactly when the last three were above Info |
| DiscrepancyRuns.LogIsSound | lib/reconcile/discrepancy-state.ts:246-354 | the events of any run are episodes opened (observed or escalated)* reconverged resolved, each before-snapshot agrees with the previous after-snapshot on the measured fields, and severity never jumps from Info to Critical |
| DiscrepancyRuns.EventIdsDistinct | lib/reconcile/discrepancy-state.ts:314-354 | with distinct accepted cycle identifiers no two events of a run share an identifier |
| DiscrepancyRuns.ReplayChangesNothingExactly | lib/reconcile/discrepancy-state.ts:226-245 | for every history, with publication steps anywhere: no replay of its measurements, in any order and number, changes state or log if and only if nothing is stored in the end or each of them is not newer than the stored state, repeats its cycle, or fails a check |
| DiscrepancyRuns.OrderedReplayChangesNothing | lib/reconcile/discrepancy-state.ts:226-233 | in particular when the cycles were offered in order of completion |
| DiscrepancyRuns.UnorderedReplayChangesState | lib/reconcile/discrepancy-state.ts:243-245 | a history outside that condition, whose replay changes the state |
| DiscrepancyFields.TimesFromHistory | lib/reconcile/discrepancy-state.ts:199-343 | after any run the state was finalized by the last accepted cycle, observed by the last that deviated or closed an episode, first observed by the one that opened the latest episode |
| DiscrepancyFields.EventsTell | lib/reconcile/discrepancy-state.ts:246-343 | an accepted cycle reports the kinds its course calls for, and each event tells the states before and after, the cycle and the methodology |
| DiscrepancyFields.IgnoredExactly | lib/reconcile/discrepancy-state.ts:224-236 | a cycle is ignored if and only if it repeats the last one or completed no later, and then changes nothing |
| DiscrepancyFields.ActionsExactly | lib/reconcile/discrepancy-state.ts:411-514 | on a valid state an action succeeds if and only if it is allowed, and leads to the standing it stands for |
| DiscrepancyFields.StandingFromHistory | lib/reconcile/discrepancy-state.ts:411-514 | after any run the standing is that of the last action since an episode opened or the deviation fell to Info |
| RightOfReply.PerformKeeps | lib/db/anchor-case-repository.ts:150-515 | every transaction keeps the invariant that links stored standing, event log, notices, replies and deadlines |
| RightOfReply.ChainMeaning | lib/reconcile/discrepancy-state.ts:439-495 | the monitor of notice, response, review and expiry entries means what the log positions say, with no reset after the notice |
| ReplyTheorems.EveryApprovalWasHeard | lib/db/anchor-case-repository.ts:450-515 | in every run each approval of a named party follows a delivered notice sent since the last measurement reset, and then a submitted reply that was reviewed or an expiry at least 72 hours after the notice |
| ReplyTheorems.EveryPublicFlagWasHeard | lib/db/anchor-case-repository.ts:339-371 | in every reachable state a public flag was heard in that sense since its last reset |
| ReplyTheorems.OneWindowPerNotice | lib/db/anchor-case-repository.ts:339-371 | a notice starts at most one window, and a discrepancy is expired at most once in all |
| ReplyTheorems.DeadlineAgrees | lib/anchor/case-workflow.ts:145-151 | in every reachable state an awaited reply has a case due exactly 72 hours after the window began |
| ReplyTheorems.ExpirySweepExactly | lib/db/anchor-case-repository.ts:409-448 | the window guard never rejects a selected row; the sweep succeeds if and only if none of its discrepancies was expired before |
| ReplyTheorems.PerformMoves | lib/db/anchor-case-repository.ts:263-515 | the log only grows, and only a measurement reset takes a started publication back to internal or frees its deadline |
| ReplyTheorems.DeadlineMovesExactly | lib/db/anchor-case-repository.ts:341-362 | over any run a deadline that was set changes if and only if a measurement reset is followed by a notice, the last one, at another time |
| ReplyOutcomes.EveryEntryWasWritten | lib/db/anchor-case-repository.ts:263-515 | in any run each log entry was written by a step that may: an approval by an authorized review that approves while named-party publication is allowed, and so on |
| ReplyOutcomes.StandingFollowsLog | lib/db/anchor-case-repository.ts:263-515 | in any run the stored standing, and since when, is the one the log entries of the discrepancy tell |
| ReplyOutcomes.PublicExactly | lib/db/anchor-case-repository.ts:474-491 | in any run a flag is public if and only if its log holds an approval with no reset, withholding or retraction behind it, each approval decided by an authorized review |
| ReplyOutcomes.MeasuredFollowsLog | lib/db/repositories.ts:478-567 | in any run severity, lifecycle and streaks are those of the last logged measurement, when the discrepancy was last observed |
| CaseOutcomes.ReviewDecides | lib/db/anchor-case-repository.ts:450-515 | a review succeeds if and only if it is authorized and allowed to decide so; the flag is public or withheld as decided, the case resolved, all else as before |
| CaseOutcomes.ReplyOrExpiry | lib/db/anchor-claim-repository.ts:350-395 | while a reply is awaited a claimant may reply from the notice on for 72 hours, and from then on the window may be closed, never both |
| CaseOutcomes.ReplyIsStored | lib/db/anchor-claim-repository.ts:353-394 | a reply succeeds if and only if it is authorized, the case in progress and the deadline ahead; it is stored, puts the case under review and answers a waiting notice |
| CaseOutcomes.ResponsesAreInTime | lib/db/anchor-claim-repository.ts:362-393 | in any run each logged response came within 72 hours of a notice with no reset between |
| CaseOutcomes.SweepCloses | lib/db/anchor-case-repository.ts:413-447 | a sweep marks exactly its rows as expired and puts their cases under review |
| CaseOutcomes.SweepExactly | lib/db/anchor-case-repository.ts:409-447 | in any run a sweep succeeds if and only if its rows are different, within the limit, awaited for 72 hours and never expired before |
| CaseOutcomes.CorrectionWithdraws | lib/db/anchor-claim-repository.ts:467-516 | a correction succeeds if and only if it is authorized, its target may be amended and was not amended that way; a retraction takes a public flag back, a correction leaves publication alone |
| CaseOutcomes.AmendmentsAreOnce | lib/db/repositories.ts:570-605 | the other writer amends any earlier entry once each way and touches nothing but the log |
| CaseOutcomes.MeasuresExactly | lib/db/repositories.ts:478-567 | a measurement is stored if and only if the machine accepts it, it keeps the methodology of the row, its events have new keys and it does not close a discrepancy closed before |
| CaseOutcomes.CaseFollowsLog | lib/db/anchor-case-repository.ts:200-515 | in any run a case stands where its log says, or under review after a reply its flag did not wait for |
| NoticeLaws.AttemptsAreCounted | lib/db/anchor-case-repository.ts:263-374 | in any run the recorded attempts of a notice are numbered from one up to its count, and its status fits them |
| NoticeLaws.DeliversExactly | lib/db/anchor-case-repository.ts:263-374 | in any run a delivery of an unsent notice is recorded if and only if its times and lease are right and, for a success on an internal discrepancy, the window can begin |
| NoticeLaws.DeliveryIsRecorded | lib/db/anchor-case-repository.ts:285-374 | a delivery counts one attempt and gives the lease back; an undelivered notice is due again exactly from the next attempt on |
| NoticeLaws.SentForever | lib/db/anchor-case-repository.ts:213-222 | in any run what was sent is never due or changed again |
| NoticeLaws.RequeuedIsDue | lib/db/anchor-case-repository.ts:376-407 | a notice is requeued if and only if it failed for good and someone authorized asks; it is due exactly from then on |
| NoticeLaws.OpeningNotifiesEachContact | lib/anchor/case-workflow.ts:110-142 | a case opens as a draft without deadline, with one unsent notice per contact, due at once |
| NoticeLaws.EnqueuesExactly | lib/db/repositories.ts:769-776 | a further notice is inserted if and only if its columns pass, its key and identifier are new, and case and contact exist |
| NoticeLaws.NoticeKeysAreUnique | lib/db/schema.ts:895-898 | in any run no two notices share an idempotency key |
| NoticeLaws.ClaimLeases | lib/db/anchor-case-repository.ts:207-260 | a claim succeeds if and only if worker, duration, limit and rows are as demanded, and leases exactly its rows, each under a new token, to nobody else until the lease runs out |
| NoticeLaws.LeaseExcludes | lib/db/anchor-case-repository.ts:213-230 | in any run a leased notice goes to no other worker until then, unless its delivery is recorded |
| NoticeLaws.StaleTokenRecordsNothing | lib/db/anchor-case-repository.ts:297-305 | after any run an older token of a notice that was claimed again records nothing |
| ReplyLimits.DeadlineMoves | lib/db/anchor-case-repository.ts:341-362 | two reachable states between which it does, with both deadlines |
| ReplyLimits.BeginsAgainExactly | lib/anchor/case-workflow.ts:97-141 | from any reachable flagged state some run without a further notice makes the discrepancy pending if and only if one of its notices is unsent and bears a usable identifier |
| ReplyLimits.EnqueueingBegins | lib/db/repositories.ts:769-776 | enqueueing a notice under an unused identifier and key makes it pending again |
| ReplyLimits.SpentForever | lib/db/anchor-case-repository.ts:263-515 | a spent discrepancy is never pending or public again unless a notice is enqueued for it |
| ReplyLimits.SpentIsReachable | lib/db/anchor-case-repository.ts:336-362 | a reachable flagged discrepancy, after a reset, whose notices are all sent |
| ReplyLimits.SecondWindowCannotExpire | lib/db/anchor-case-repository.ts:433-446 | a reachable state in which the sweep selects a row and throws on the key of its second expiry |
| CaseOpenings.OpensExactly | lib/anchor/case-workflow.ts:71-97 | in every reachable state a case opens if and only if the discrepancy is eligible, its trigger's identifier has at most 128 characters, and the contacts are well-formed, distinct and verified with no notice yet |
| CaseOpenings.CanOpenExactly | lib/anchor/case-workflow.ts:79-82 | some run with cycle identifiers of a given length opens a case of the discrepancy if and only if its opening event's identifier fits in 128 characters |
| CaseOpenings.NoCaseNoPublication | lib/db/anchor-case-repository.ts:150-205 | in every run a discrepancy without a case is internal |
| CaseOpenings.ReservesNeverOpen | lib/reconcile/anchor-reserve.ts:44-49 | over any run of scheduled cycles no case opens for an anchor reserve discrepancy, no notice of it exists and it stays internal |
| CaseRepository.Repository.OpenEligibleCase | lib/db/anchor-case-repository.ts:150-205 | opens the draft case with one pending notice per contact as specified, or throws and changes nothing |
| CaseRepository.Repository.InsertNotices | lib/db/anchor-case-repository.ts:188-203 | the loop adds exactly the initial notices |
| CaseRepository.Repository.ClaimDueNotifications | lib/db/anchor-case-repository.ts:207-261 | the loop leases exactly the selected notices |
| CaseRepository.Repository.RecordDeliveryAttempt | lib/db/anchor-case-repository.ts:263-374 | records the attempt; the first success of an internal discrepancy begins the window and sets the deadline |
| CaseRepository.Repository.SubmitClaimantReply | lib/db/anchor-claim-repository.ts:350-395 | stores a reply while the deadline lies ahead; the first answers the notice |
| CaseRepository.Repository.ExpireDueReplyWindows | lib/db/anchor-case-repository.ts:409-448 | the loop expires the selected rows in order, all or none |
| CaseRepository.Repository.ReviewAnchorCase | lib/db/anchor-case-repository.ts:450-515 | reviews a received response first, then approves or withholds, all or nothing |
| CaseRepository.Repository.CorrectFlag | lib/db/anchor-claim-repository.ts:467-516 | appends the amendment under a new key and a free target; a retraction withdraws a public flag |
| WeightedMedian.Screen | lib/reconcile/weighted-median.ts:38-55 | the loop finds the fault of the first bad input, or the contributing inputs and the excluded ids |
| WeightedMedian.Select | lib/reconcile/weighted-median.ts:64-78 | the loops find the total and the first position where the running weight reaches half |
| WeightedMedian.Split | lib/reconcile/weighted-median.ts:80-89 | the loop sorts ids into below, at and above the selected value |
| WeightedMedian.ComputeWeightedMedian | lib/reconcile/weighted-median.ts:34-100 | the whole algorithm computes the specified result |
| WeightedMedian.ComputeSafeIntegerWeightedMedian | lib/reconcile/weighted-median.ts:102-109 | the integer instance rejects unsafe values and else is the median by difference |
| MedianLaws.OutcomeExactly | lib/reconcile/weighted-median.ts:42-57 | inputs are accepted if and only if ids are distinct and not empty and weights not negative; there is no median if and only if all weights are zero |
| MedianLaws.SelectsLowerMedian | lib/reconcile/weighted-median.ts:27-33 | the value belongs to an input of positive weight, has less than half of the weight strictly below and at most half strictly above |
| MedianLaws.LowerMedianUnique | lib/reconcile/weighted-median.ts:27-33 | only one value up to ties splits the weight that way |
| MedianLaws.MedianIsSmallestMinimiser | lib/reconcile/weighted-median.ts:102-109 | for integers the value is the smallest of all integers minimising the weighted sum of absolute deviations |
| MedianLaws.MajorityBrackets | lib/reconcile/weighted-median.ts:64-78 | any inputs with more than half of the weight have the value between their least and greatest |
| MedianLaws.IdsAreSharedOut | lib/reconcile/weighted-median.ts:80-99 | the four lists of ids are a partition of the input ids |
| MedianLaws.IdsBySide | lib/reconcile/weighted-median.ts:80-99 | each list names its side of the median, and the excluded the inputs without weight |
| MedianLaws.IntegersExactly | lib/reconcile/weighted-median.ts:102-110 | the integer instance rejects exactly inputs with values beyond the safe integers |
| MedianLaws.MedianForgetsOrder | lib/reconcile/weighted-median.ts:59-63 | permuting the inputs changes neither acceptance nor any part of the result |
| Agreement.ComputeWeightedAgreement | lib/reconcile/agreement.ts:19-36 | the loop computes the agreeing share of the weight, or rejects a negative weight |
| Agreement.ScoreOneExactly | lib/reconcile/agreement.ts:31-35 | among positive weights the score is in the unit interval and 1 if and only if all agree |
| Agreement.AvailabilityOneExactly | lib/reconcile/agreement.ts:38-56 | availability is 1 if and only if every configured source is usable |
| Agreement.DiversityOneExactly | lib/reconcile/agreement.ts:65-90 | diversity is 1 if and only if every expected class is represented; a missing one costs at least one part in their number |
| Agreement.OneMoreVote | lib/reconcile/agreement.ts:6-36 | one more vote adds its weight to the total, and to the agreeing weight if and only if it agrees; the score is their ratio |
| Agreement.EqualShares | lib/reconcile/agreement.ts:38-90 | availability and diversity count sources and classes in equal shares |
| Confidence.ComputeConfidence | lib/reconcile/confidence.ts:38-83 | the cap loop computes the specified score and the caps applied, or rejects the inputs |
| Confidence.ComputesExactly | lib/reconcile/confidence.ts:38-72 | a score is computed if and only if components, coefficients, their sum and the caps are in range; what fails first is reported |
| Confidence.CappedIsLeast | lib/reconcile/confidence.ts:64-73 | the capped score is the least of the start and the caps that apply, whatever their order; no cap is reported exactly when none lowered it |
| Confidence.EachCoefficientWeighs | lib/reconcile/confidence.ts:58-62 | raising one component alone raises the uncapped score by diversity times its own coefficient times the rise |
| Confidence.DiversityScales | lib/reconcile/confidence.ts:63-63 | the uncapped score is proportional to diversity |
| Confidence.ScoreBounds | lib/reconcile/confidence.ts:58-76 | the score lies in the unit interval, below every applying cap and below the diversity, each rounded |
| Reconciler.CheckObservations | lib/reconcile/orchestrator.ts:226-248 | the loop accepts exactly observations that fit the request, with distinct ids and sources, configured exactly |
| Reconciler.AdvanceSources | lib/reconcile/orchestrator.ts:402-445 | the loop advances every usable source and collects states, events and findings, or throws at the first that fails |
| Reconciler.ReconcileMetric | lib/reconcile/orchestrator.ts:184-486 | the whole cycle returns the specified result or exception |
| ReconcileLaws.CountsInOrder | lib/contracts/domain.ts:998-1009 | agreeing, usable, responding and configured sources are counted in that order, excluded ones within the configured |
| ReconcileLaws.ScoreThrowsExactly | lib/reconcile/orchestrator.ts:345-370 | scoring throws if and only if the profile's comparisons contradict each other or an upstream id is empty; the confidence computation itself never throws |
| ReconcileLaws.ClosingParseRejectsExactly | lib/reconcile/orchestrator.ts:455-478 | the closing parse rejects only version names over 100 characters, and always those |
| ReconcileLaws.StatusExactly | lib/reconcile/orchestrator.ts:447-453 | a result is not degraded if and only if there is no source error, all configured sources are usable, enough and agreeing, and the score reaches the threshold |
| ReconcileLaws.VerifiedMeans | lib/reconcile/orchestrator.ts:447-478 | a verified result has no source error and for every configured source a usable observation agreeing with the value; all four counts are equal |
| ReconcileResults.ValueIsMedian | lib/reconcile/orchestrator.ts:264-340 | a result has a value if and only if an observation is usable, and it is their weighted median; without one it is unavailable and all states stay |
| ReconcileResults.ComponentsMean | lib/reconcile/orchestrator.ts:355-368 | each reported component is 1 if and only if nothing it measures is missing |
| ReconcileResults.ContributionsListed | lib/reconcile/orchestrator.ts:468-475 | one contribution for each usable observation, in order, saying whether it agrees |
| ReconcileResults.SourcesReported | lib/reconcile/orchestrator.ts:402-445 | the result carries for each usable source what the discrepancy machine answers, and no other event or finding |
| ReconcileResults.AnsweredIsSound | lib/reconcile/orchestrator.ts:184-262 | a request that is answered has fitting observations of this cycle, one of each source, from sources as configured |
| ReconcileResults.AnsweredRefersToSources | lib/reconcile/orchestrator.ts:226-262 | its errors and earlier states belong to configured sources |
| ReconcileResults.MethodologyExactly | lib/reconcile/orchestrator.ts:108-151 | a methodology is accepted if and only if its versions, half-life, counts, threshold, caps, classes, weights and coefficients are in range |
| ReconcileResults.ProfileExactly | lib/reconcile/orchestrator.ts:198-204 | a profile is accepted if and only if its greatest spread and, if set, its greatest age are positive |
| ReconcileResults.CountsMean | lib/reconcile/orchestrator.ts:302-310 | the counts are those of configured, responding, usable and excluded sources |
| ReconcileLaws.VerifiedNeedsTwoUpstreams | lib/reconcile/orchestrator.ts:386-400 | under guarding caps a verified result of any metric rests on two different upstreams |
| ReconcileLimits.GuardedExactly | lib/reconcile/orchestrator.ts:386-400 | for every sound methodology with usable names: no verified result rests on a single upstream if and only if the rounded same-upstream cap is below the threshold and, where one source is enough, so is the best score of one source |
| ReconcileLaws.VerifiedNeedsAllClasses | lib/reconcile/orchestrator.ts:355-400 | in any metric, a threshold above the rounded score left without one class makes a verified result represent every expected class |
| ReconcileLimits.ClassesForcedExactly | lib/reconcile/orchestrator.ts:363-400 | for every sound methodology with usable names: every verified result represents all expected classes if and only if the threshold exceeds the rounded score left with one class missing |
| ReconcileLimits.FourClassesVerified | lib/reconcile/orchestrator.ts:446-453 | a sound methodology with guarding caps that verifies independent sources of four of its five expected classes |
| ReconcileLaws.OneDerivationNeverVerified | lib/reconcile/trustlines.ts:50-61 | with one constant upstream and the bounds of depth and trustlines no result is verified |
| ReconcileLaws.ResultForgetsOrder | lib/reconcile/orchestrator.ts:264-300 | listing sources, observations and errors in another order leaves the whole result, or the failing check, unchanged |
| ReconcileLaws.StatesFeedNextCycle | lib/reconcile/orchestrator.ts:255-262 | the resulting states pass the check on priors of the next cycle, and sources without usable observation keep theirs |
| ReconcileLimits.RoundingLiftsTheCap | lib/reconcile/confidence.ts:64-77 | a methodology whose caps lie below its threshold and that verifies replicas of one upstream |
| Depth.MaximumDeltaBasisPoints | lib/reconcile/depth.ts:78-89 | the loops compute the greatest bucket deviation |
| Depth.DeltaWithinExactly | lib/reconcile/depth.ts:83-86 | a bucket is within tolerance if and only if its gap is below 51 basis points of the reference |
| Depth.DeltaReachesExactly | lib/reconcile/depth.ts:82-86 | a deviation reaches a number of basis points, up to the ceiling, if and only if the gap is that share of the reference |
| Depth.DeviationIsGreatest | lib/reconcile/depth.ts:78-89 | a book deviates as its most deviating bucket does, and its spread is the same share, at most one |
| Depth.BooksCompare | lib/reconcile/depth.ts:103-112 | books are ordered by their widest bands, and deviate above Info unless they agree |
| Depth.AgreesExactly | lib/reconcile/depth.ts:91-97 | books agree if and only if price terms are equal and every bucket is within tolerance |
| Depth.AgreeBothWaysExactly | lib/reconcile/depth.ts:78-97 | two books agree whichever is the reference if and only if prices are equal and in every bucket both amounts are zero or their gap is below 51 basis points of the smaller |
| Depth.AgreementHasADirection | lib/reconcile/depth.ts:95-97 | two books of which the first agrees with the second but not the second with the first |
| Depth.ProfileIsSound | lib/reconcile/depth.ts:99-138 | the depth comparator is a total preorder, bands and agreement never contradict each other, spread stays within its maximum |
| Depth.DepthIsNeverVerified | lib/reconcile/depth.ts:138-166 | a depth reconciliation under its bounds is never verified |
| LeaseLaws.ReapSettlesExactly | lib/db/scheduler-repository.ts:555-606 | a reap settles exactly the selected rows, each by what the tables said before the first, and counts the verdicts; every other row stands |
| LeaseTable.Scheduler.ReapSelected | lib/db/scheduler-repository.ts:575-601 | the loop settles the selected rows and counts retried, abandoned and finalized, or fails with the first refused update |
| LeaseLaws.LostForever | lib/db/scheduler-repository.ts:462-606 | a lease that lost its row never holds it again in any run |
| LeaseLaws.SettlingLoses | lib/db/scheduler-repository.ts:485-552 | after acknowledging, releasing or failing, the same lease is fenced for good |
| LeaseLaws.OnlyLatestClaimHolds | lib/db/scheduler-repository.ts:433-446 | in every history only the latest claim of a row may change it, and token and attempts equal the number of claims |
| LeaseLaws.ClaimsAreOrdered | lib/db/scheduler-repository.ts:433-446 | later claims of a row carry strictly larger tokens |
| LeaseLaws.TerminalAbsorbs | lib/db/scheduler-repository.ts:485-601 | completed, failed and abandoned rows never change again |
| LeaseLaws.OnlyInsertActivates | lib/db/scheduler-repository.ts:413-606 | no step but the insert adds an active row |
| LeaseLaws.TableIsSound | lib/db/schema.ts:251-279 | in every history the ownership and finalization checks hold, keys are unique, one row is active for a metric and subject, and completed rows point to different cycles with their own key |
| LeaseLaws.HolderAcknowledges | lib/db/scheduler-repository.ts:478-508 | a holder acknowledges if and only if its cycle is durable; the unique index never refuses |
| LeaseLaws.RetriesAreBounded | lib/db/scheduler-repository.ts:585-599 | the reaper puts a row back to pending at most one time fewer than the attempts allowed |
| LeaseLaws.AttemptsAreUnbounded | lib/db/scheduler-repository.ts:510-530 | with claims and releases a row reaches any number of attempts without a retry |
| LeaseTimes.ClaimExactly | lib/db/scheduler-repository.ts:413-463 | a claim runs the picked row if and only if it is due with room in its counters, for the given time; it throws exactly over the duration or a full counter |
| LeaseTimes.ClaimHolds | lib/db/scheduler-repository.ts:440-463 | the lease a claim hands out holds its row, and may be reaped exactly from its end on |
| LeaseTimes.RenewalHolds | lib/db/scheduler-repository.ts:465-479 | a renewal succeeds if and only if the lease holds its row, moves the end and changes nothing else |
| LeaseTimes.ClaimedIsSafe | lib/db/scheduler-repository.ts:413-606 | a claimed lease holds its row in every run that does not give it away and reaps before its end |
| LeaseTimes.RenewedIsSafe | lib/db/scheduler-repository.ts:465-606 | so does a renewed one until its new end |
| LeaseTimes.ExpiresExactly | lib/db/scheduler-repository.ts:558-572 | a lease nobody renews is expired exactly from its end on, whatever happens before |
| LeaseTimes.EnsureExactly | lib/db/scheduler-repository.ts:401-411 | a row is inserted if and only if its id and key are new and its metric and subject have no active row; it is claimable from its scheduled time on |
| LeaseTimes.ReleasedIsClaimable | lib/db/scheduler-repository.ts:510-530 | a released row is claimable again from its scheduled time on |
| LeaseTimes.OnlyHoldersSettle | lib/db/scheduler-repository.ts:481-553 | only a holder settles its row, everybody else is told so and changes nothing |
| LeaseTimes.FailedForGood | lib/db/scheduler-repository.ts:532-553 | a failed row stays failed in every run |
| LeaseTimes.AcknowledgedForGood | lib/db/scheduler-repository.ts:481-508 | an acknowledged row stays completed with the cycle of its key in every run |
| LeaseTimes.ReapSucceedsExactly | lib/db/scheduler-repository.ts:555-606 | in any history a reap succeeds for every answer its query may give, never refused by the index on finalized cycles |
| LeaseTimes.RetriesReachBound | lib/db/scheduler-repository.ts:575-601 | every limit on attempts is reached: one retry less than attempts, then abandoned |
| LeaseTimes.FinalizedOnce | lib/db/schema.ts:209-211 | a cycle becomes durable under its key once, and under one key |
| CycleRepository.Repository.UpsertSourceHealth | lib/db/repositories.ts:417-438 | the loop keeps the fresher record of each source, or throws on a bad failure count |
| CycleRepository.Repository.UpsertDiscrepancies | lib/db/repositories.ts:491-540 | the loop writes the states this cycle finalized under the guard on time and identity |
| CycleRepository.Repository.InsertMeasurementEvents | lib/db/repositories.ts:542-563 | the loop inserts events, closing events with the first opening as target |
| CycleRepository.Repository.PersistCompletedCycle | lib/db/repositories.ts:313-568 | inserts everything, reports a duplicate, or throws and restores the tables |
| CycleLaws.ExactlyOnce | lib/db/repositories.ts:354-372 | over any calls a key owns at most one cycle, each cycle exactly one snapshot, each snapshot at most one announcement |
| CycleLaws.RetryIsDuplicate | lib/db/repositories.ts:361-371 | retrying an inserted call after any others reports a duplicate and changes no table |
| CycleLaws.OwnedKeyExactly | lib/db/repositories.ts:246-255 | a call with an owned key is a duplicate if its identity agrees and throws otherwise |
| CycleLaws.FinalizationIncreases | lib/db/repositories.ts:515-523 | every change of a stored discrepancy carries a strictly later finalization and keeps its identity and first observation |
| CycleRows.InsertedStoresRows | lib/db/repositories.ts:384-567 | an inserted cycle stores each reading under its id, records each contribution for one of them, writes the last state it finalized of each discrepancy and appends its events; nothing stored before is lost |
| CycleRows.WrittenExactly | lib/db/repositories.ts:478-535 | a state is written if and only if it is new or finalized later under the same identity, its times are in order, and no other discrepancy of the source is open beside it |
| CycleRows.CarriesItsParts | lib/db/repositories.ts:318-353 | a call that is not rejected at once carries a matching snapshot, valid states and events of its states |
| CycleRows.RowsAreUnique | lib/db/schema.ts:300-566 | in any run no observation has two readings, no source two in a cycle or two contributions to a snapshot, and one open discrepancy at most for a metric and subject |
| CycleRows.RowsAreReferenced | lib/db/repositories.ts:318-567 | in any run each snapshot fits its cycle, each contribution is backed by a stored reading of its cycle and source, each event belongs to a stored cycle |
| CycleLaws.HealthIsFreshest | lib/db/repositories.ts:421-437 | the stored health of a source is the accepted record observed last, the first among equals |
| CycleLaws.HealthForgetsOrderExactly | lib/db/repositories.ts:417-438 | every order of arrival of a multiset of records leaves the same table if and only if no source has two different records at its greatest time |
| Resolutions.AdvancedEventsAreCoherent | lib/reconcile/discrepancy-state.ts:246-354 | the machine's events belong to a state finalized by their cycle, and at most one opens |
| Resolutions.ResolvedAtMostOnce | lib/db/schema.ts:584-590 | over any run each closing event targets the first opening, and a discrepancy has at most one |
| Resolutions.FirstOpeningIsFirst | lib/db/repositories.ts:538-548 | the opening a closing event targets is the first by time, then by identifier |
| Resolutions.ClosingInsertedExactly | lib/db/repositories.ts:542-563 | in every reachable store a closing event is inserted if and only if its identifier is new, its discrepancy is stored and was opened, and was never closed before |
| Resolutions.SecondResolutionNeverInserted | lib/db/schema.ts:584-590 | a cycle that closes a closed discrepancy again is never inserted |
| SecondEpisode.SecondClosingThrows | lib/db/repositories.ts:507-567 | for every discrepancy, cycles that open, close, open and close it: the first three are inserted and the fourth throws on the taken target |
| Resolutions.MachineResolvesAgain | lib/reconcile/discrepancy-state.ts:246-312 | the machine reopens under the same id and closes again |
| EventStream.Stream.DrainPendingEvents | lib/http/sse.ts:42-49 | the loop sends pending events while there is room and moves the cursor with each |
| StreamLaws.StreamIsExact | lib/http/sse.ts:33-119 | in every interleaving delivered then pending events are a gapless ordered prefix of the log behind the start id, at most the replay limit pending |
| StreamLaws.ConnectExactly | lib/db/snapshot-event-repository.ts:107-127 | a resume id is accepted if and only if it is zero or in the log and the replay fits the window |
| StreamLaws.ReconnectContinues | app/api/v1/events/snapshots/route.ts:56-70 | reconnecting with any received id continues the sequence without gap or repetition, refused only when the backlog outgrew the window |
| StreamLaws.ClosedIsFinal | lib/http/sse.ts:51-64 | once closed nothing more is sent |
| StreamAccess.DenialEnds | lib/http/sse.ts:71-78 | after a denied or failed authorization the stream is closed with one error chunk that says why, and no later run sends anything |
| StreamAccess.DuePollsAuthorize | lib/http/sse.ts:66-72 | a poll whose authorization is due waits for a decision or ends, and sends nothing |
| StreamAccess.ReadsAreAuthorized | lib/http/sse.ts:71-90 | in any run a poll at the log has an authorization that was not due when it began, or was renewed for it |
| StreamAccess.NoReadWithoutGrant | lib/http/sse.ts:71-90 | in any run of an open stream a poll at the log began less than the interval after access was last granted, or is the poll it was granted for |
| StreamAccess.ErrorIsLast | lib/http/sse.ts:57-61 | in any run the retry hint is first and an error is the last chunk of a closed stream |
| StreamAccess.FailedReadEnds | lib/http/sse.ts:97-106 | a failed read, or one beyond the window, ends the stream with the code that says so |
| StreamAccess.GoodReadGoesOn | lib/http/sse.ts:90-108 | a read within the window leaves the stream open, its events delivered or pending |
| StreamAccess.QuietPollBeats | lib/http/sse.ts:93-96 | a quiet poll sends a heartbeat if and only if the last sign of life is as old as the interval |
| StreamAccess.SlowConsumerIsDropped | lib/http/sse.ts:80-87 | a consumer that takes nothing is dropped at the permitted number of polls, and not before |
| StreamAccess.ReadyPollReads | lib/http/sse.ts:80-88 | a poll reaches the log if and only if nothing is pending and the queue has room, and starts the count anew |
| StreamAccess.AllowedPollReads | lib/http/sse.ts:72-90 | an allowed poll goes on as if its authorization had not been due |
| StreamAccess.AbortEnds | lib/http/sse.ts:51-56 | an abort or cancel closes the stream without a further chunk and stops the waiting poll |
| StreamAccess.ClosedPollStops | lib/http/sse.ts:66-69 | a poll of a closed or aborted stream ends without a decision, a read or a chunk |
| StreamAccess.OpensWaiting | lib/http/sse.ts:110-113 | a connection opens with the retry hint in its queue, waiting for its first poll |
| StreamAccess.StoppedForGood | lib/http/sse.ts:66-69 | in any run a poll that stopped is never taken up again, and only a closed stream has stopped |
| StreamAccess.RoomIsCounted | lib/http/sse.ts:40-47 | in any run the room in the queue is what the consumer took less what was sent behind the retry hint |
| StreamLaws.RoundsDeliver | lib/http/sse.ts:42-109 | a poll with a ready consumer and any number of its turns deliver that many further events of the log, up to all behind the cursor |
| StreamLaws.HeaderRoundTrips | lib/db/snapshot-event-repository.ts:58-68 | the printed id is parsed back over the whole range |
| StreamLaws.HeaderIsCanonical | lib/db/snapshot-event-repository.ts:58-68 | only canonical decimal text within the range is accepted |
| CanonicalJsonLaws.SameTextExactly | lib/evidence/json.ts:3-17 | under any total order of keys two trees have the same text if and only if they are equal up to key order at every depth |
| CanonicalJsonLaws.TextsAgreeExactly | lib/evidence/json.ts:11-16 | two orders of keys give the same text if and only if they agree on the keys of every object |
| CanonicalJsonLaws.CanonicalBalanced | lib/evidence/json.ts:9-16 | every canonical text is walked over by a scanner that knows only strings and brackets, so texts are prefix codes before a delimiter |
| CanonicalJsonLaws.QuoteDecodes | lib/evidence/json.ts:4-4 | a quoted string is read back whatever follows it |
| CanonicalJsonLaws.EscapesExactly | lib/evidence/json.ts:4-4 | exactly quotation marks, backslashes and control characters are escaped, as section 7 of RFC 8259 allows |
| PayloadJson.IndexExactly | lib/db/repositories.ts:44-74 | the keys listed first are the canonical decimals below the largest array length |
| PayloadJson.PrintsCanonically | lib/db/repositories.ts:44-74 | rebuilding a payload and letting the language list its properties, indices first, is the canonical text of the redacted tree |
| PayloadJson.PayloadTextExactly | lib/db/repositories.ts:72-74 | the second printer identifies the same trees as the first |
| PayloadJson.PrintersAgreeExactly | lib/db/repositories.ts:59-74 | both printers give one text if and only if the order of keys puts array indices first and ascending in every object |
| PayloadJson.StoredTextExactly | lib/db/repositories.ts:387-399 | two payloads are stored under the same hashed text if and only if they are equal up to key order and the values under sensitive keys, at every depth |
| PayloadJson.StoredText | lib/db/repositories.ts:90-92 | the hashed text can be recomputed from the stored payload, however its keys come back ordered |
| Quota.AccessRepository.AuthorizeAndConsume | lib/db/api-access-repository.ts:230-325 | takes a unit of both counters or of neither |
| QuotaLaws.CountersCountGrants | lib/db/api-access-repository.ts:281-298 | in every run a counter is the number of grants of its window |
| QuotaLaws.AdmittedExactly | lib/db/api-access-repository.ts:276-301 | an entitled request is admitted if and only if both windows hold fewer grants than their limits |
| QuotaLaws.AnsweredExactly | lib/db/api-access-repository.ts:230-325 | every request of any run is told unauthorized, forbidden, limited or admitted by its account's own fields and the grants of its windows, with the numbers of its plan |
| QuotaLaws.WindowIsBounded | lib/db/api-access-repository.ts:281-298 | a window never holds more grants than the greatest limit in force, however plans change |
| QuotaLaws.StretchIsBounded | lib/db/api-access-repository.ts:54-57 | any stretch as long as a window sees at most twice the greatest limit in force, while the length of the window stands |
| QuotaLaws.RetryReachesReset | lib/db/api-access-repository.ts:59-68 | waiting the seconds told reaches the start of the next window, one second less would not |
| QuotaLaws.RemainingIsHonest | lib/db/api-access-repository.ts:303-314 | the remaining number and the grants of the window add up to the limit |
| Paging.PagesAreComplete | lib/db/anchor-public-read-model.ts:204-226 | for every page size the pages concatenate to all rows, newest first then by id, each once |
| Paging.PagesEnd | lib/db/anchor-public-read-model.ts:346-358 | following the cursor ends after no more turns than rows, from any cursor |
| Paging.QueryExactly | lib/db/anchor-public-read-model.ts:346-358 | a page is refused if and only if its limit is out of range; it holds as many rows behind the cursor as it may, and a cursor if more are left |
| Paging.PageLeavesRest | lib/db/anchor-public-read-model.ts:204-207 | the query behind the last row of a page finds exactly what the page left |
| Paging.LaterPagesDoNotRepeat | lib/db/anchor-public-read-model.ts:204-207 | rows arriving meanwhile never make a later page repeat a row |
| Prices.RoundedIsNearest | lib/contracts/domain.ts:209-216 | the rounded integer differs from the exact ratio by at most half a unit of the last place, ties up |
| Prices.NearestUnique | lib/contracts/domain.ts:209-216 | only one integer is that near |
| Prices.ScaleInvariant | lib/reconcile/depth.ts:55-61 | the text is unchanged when both terms are scaled |
| Prices.FormatParsesBack | lib/contracts/domain.ts:209-216 | the text parses back to the rounded integer with its padding |
| Prices.GreatestCommonDivisor | lib/stellar/price.ts:6-11 | the loop computes the divisor of the absolute values |
| Prices.GcdIsGreatest | lib/stellar/price.ts:6-11 | any common divisor divides it |
| Prices.MakePrice | lib/stellar/price.ts:17-31 | reduces a positive ratio, rejects others and, where enforced, components above 32 bits |
| Prices.PriceReduces | lib/stellar/price.ts:17-31 | exactly the positive ratios in bounds have a price; it is in lowest terms and the same ratio |
| Prices.SameComponentsExactly | lib/reconcile/depth.ts:91-93 | prices in lowest terms have equal components if and only if they are the same ratio |
| Prices.TextSurvivesReduction | lib/stellar/price.ts:71-84 | the text computed from a price is the text of the ratio it was made from |
| Prices.TextsAgreeExactly | lib/contracts/domain.ts:209-216 | the text of a price and the text of the metric value schema agree from any terms of the ratio if and only if decimals are printed; at seven places both equal the text of the depth observation schema |

## Left out

- Presentation, connectors, safe transport, notification dispatch, encryption, hashing and key comparison: foreign calls or not state.
- Amendment events in `CycleStore`: they are steps of `ReplyCase`, under identifiers of their caller's choice.
- The price text's limit of 18 decimals, which its callers keep.
- Anchor case event and review tables, correction rows, contact secrets, disputes, claim challenges and sessions: append-only or credential bookkeeping beside the reply protocol; their identifiers are not modelled.
- Database isolation levels: each transaction is one step.
- The exponential decay of weights, and that floating-point sums depend on the order of their terms.
- The contents of readings, snapshots and notices beyond what the protocols read; source network and subject formats in the persistence checks.
- Retrieval attempts and health samples of a cycle: rows with keys of their own that nothing in the protocol reads.
- Circuit-breaker columns of source health and their check constraints: stored as given.
- Kinds of metric values in the snapshot schema: they follow from the profile.
- Trimming of upstream ids and class names: they arrive trimmed.
- Lone surrogates in JSON strings, non-finite numbers and unsupported JavaScript values, which the printer rejects or escapes.
- Which keys are sensitive, and dates, amounts and undefined members of payloads, which become strings or disappear before printing.
- Pruning of quota rows, which only removes old windows, and issuing, rotating and revoking keys.
- The disclosure details of a page and the encoding of its cursor; a page here is its rows.
- The log is read at one moment when a stream connects; the queries of that step are not interleaved with appends.
- Job discovery and handlers of the worker loop; a worker is any sequence of lease operations.
- ReplyCase.Measure: in `ReplyCase` the measured anchor reserve value is its deviation band only, and persistence of the other tables of a cycle is in `CycleStore`.
