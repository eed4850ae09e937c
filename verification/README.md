# Metered agreements between agents in a clocked world: a verified model

The server keeps simulated worlds in which agents sign, consume and end metered agreements. This project
models the parts of it whose behaviour spans many steps and proves what they promise, for every input, every
run or every reachable state:

- the agreement protocol: ephemeral agreements of collaborations (`AcBridge`, with the offer choice in
  `MeteredService`), the provider watchdog (`Failover`) and the auto-reset ledger (`TriggerExecutor`, and
  `TriggerInterleaving` for evaluations that give way at every `await`);
- the due-driven scheduler and its freshness contract (`LazyDriver`, `FrameEvaluator`, `Computation`);
- accounting and meaning-preserving transformations: evaluation buckets (`EvalReport`, `HandshakeAudit`,
  `ReputationBuckets`),
  replay compression (`Replay`, `ReplayAudit`) and the activity feed (`ActivityFeed`, `FeedContents`, `FeedAudit`
  and `FeedSession`, on `NewestFirst` and `PagedReading`);
- small stateful machinery: the request limiter (`RateLimit`) and the rotating log (`LogFile`);
- geometry and scanning (`Geo`, `GeoContainment`, `GeoArea`, `GeoDistance`, `GeoAdjacency`, `JsonScanner`).

`Collections.dfy` holds the option type, JavaScript's insertion-ordered `Map` and filtered lists. Code that changes state is a
class whose methods equate the new state with a specification function of the old one; the lemmas are about
those functions, over whole runs. Numbers are unbounded integers or reals, distances are squared, times are
integer milliseconds (or reals where rates matter), and composite string keys are pairs.

`dafny verify dfyconfig.toml` checks everything.

## Where code and documentation disagree

The model follows the code. In each case a lemma exhibits a failing input, and where the matter has one, an
exact condition is proved.

- `ac-agreement-bridge.ts`: the termination cascade is one hop deep; an agreement two hops down stays active
  (`AcBridge.GrandchildSurvives`, `AcBridge.WholeChainEndsIff`).
- `agreement-trigger-executor.ts`: an arm is said to vanish with its simulation; an arm that only waits for an
  event survives a stopped simulation and keeps the timer alive (`TriggerExecutor.EventArmOutlivesItsSim`,
  `TriggerExecutor.StoppedSimsKeepEventArms`). A trigger is said to find the status re-read when it fires, so that
  suspended and terminated agreements never execute; it is read once, when the event arrives, and an agreement
  ended during an earlier invocation is executed all the same (`TriggerInterleaving.SecondCandidateIsWithdrawn`,
  `TriggerInterleaving.InactiveExecutesIffWithdrawn`).
- `lazy-driver.ts`: the due set is said to be re-read every recheck interval; a longer planned stride is slept
  through in one piece (`LazyDriver.RecheckIsKeptIff`). The freshness floor alone is not kept
  (`LazyDriver.ContractKeptIff`); the kept bound is floor plus tightest floor, or plus the sleep of a whole stride
  where that is shorter (`LazyDriver.FrameAgeBoundOverRuns`), and no better one holds
  (`LazyDriver.BoundIsBestPossible`).
- `eval-report.ts`: the failure buckets do not always sum to `failed` (`EvalReport.IdentityHoldsIff`,
  `EvalReport.IdentityCounterexample`), `superseded` is only a part of the mechanical cancellations
  (`EvalReport.SupersededIsPartOfCancelled`, `EvalReport.MergedIntoAFailure`), and reputation buckets do not
  always sum to the attempts (`ReputationBuckets.EventRowAddsUpIff`, `ReputationBuckets.LegacyRowAddsUpIff`,
  `ReputationBuckets.MergedColumnsExceedAttempts`; legacy rows do, `ReputationBuckets.TrackedLegacyRowsAddUp`).
- `replay-service.ts`: an exported event names zone and parameter but not the device, so the compression loses
  values when a zone holds two exported devices (`Replay.ZoneReplayExactIff`). An anonymous viewer
  (`userId: null`) falls back to the owner's id and gets the full tier, against the comment above the code
  (`Replay.AnonymousSeesForeignDevices`, `Replay.WithheldIff`). The viewer's type admits null, while both routes
  that build replays pass the id of a user.
- `activity-feed.ts`: each source is cut before anything is skipped or filtered, so a fetch full of audit rows or
  of rows that the filter drops hides for good what lies behind it, whatever the limit
  (`FeedSession.FullFetchLosesACommand`, `FeedSession.AuditRowsLoseACommand`), and a short page under a filter does
  not mean that there are no more matches (`FeedSession.FilteredRowsLoseAMatch`); closing actors come from the
  fetched rows only (`FeedAudit.UnfetchedCloserIsWrong`, `FeedAudit.GovernanceIsExactIff`); among audit rows of one
  time the earliest written counts, not the latest (`FeedAudit.FirstWrittenWinsTies`,
  `FeedAudit.LastWrittenCountsIff`). The route that pages (`routes/environments.ts:662-689`) always passes a filter
  object, empty without query parameters, so 200 rows are fetched for a page of at most 200; the arrival digest
  (`arrival-digest.ts:174`) passes none and asks for 200 without a cursor. The lemmas take any limit and any filter
  or none.
- `geo.ts`: adjacency mixes positions in the list of polygons with positions in the list of zones, so it throws
  (`GeoAdjacency.UnusableInFrontThrows`) or tests the wrong zone (`GeoAdjacency.WrongZoneIsTested`). Stored polygons
  are validated to have three vertices or more, while the derivation itself guards against shorter ones; for
  validated zones it returns their adjacency relation if and only if fewer than two have a polygon or those that do
  come first, and throws otherwise (`GeoAdjacency.AdjacencyIsDerivedIff`).

The bound that the comments of `log-file.ts` state, at most one pending line above the maximum size, holds
(`LogFile.FilesOverflowByOneLine`). The stricter "within the maximum size or one single chunk" does not hold with
empty chunks; `LogFile.OneChunkIff` says exactly when it does.

## Model

| member | source | states |
|---|---|---|
| RateLimit.RateLimiter.Check | apps/server/src/rate-limit.ts:73-90 | one request: the new window table (refreshed window, count plus one, garbage collected past the size threshold) and the verdict of the refreshed window |
| RateLimit.RateLimiter.Sweep | apps/server/src/rate-limit.ts:105-109 | deletes exactly the expired windows |
| RateLimit.TableAlwaysAgrees | apps/server/src/rate-limit.ts:73-109 | over every run with a clock that never goes back, the swept table holds what a table that deletes nothing would hold, up to expired windows |
| RateLimit.SweepsOnlyLargeTables | apps/server/src/rate-limit.ts:84-109 | nothing is deleted up to 10,000 windows; beyond that exactly the windows that have run out |
| RateLimit.LimiterMatchesReference | apps/server/src/rate-limit.ts:73-109 | every verdict equals the one the client alone would get from a limiter that never deletes a window |
| RateLimit.VerdictIsExact | apps/server/src/rate-limit.ts:73-103 | every verdict of every run from the client's own requests of that class: allowed exactly when among the first of its window, as many as the class's own limit says, a window starting with the first request a minute or more after the last start; else told the whole seconds, rounded up, to the end of that window |
| RateLimit.RunAdmitsAsReference | apps/server/src/rate-limit.ts:73-90 | the number of a client's admitted requests in a run is that of its own requests alone |
| RateLimit.AtMostTwiceTheLimit | apps/server/src/rate-limit.ts:73-90 | any 60-second interval admits at most twice the limit less one request of one client and class |
| RateLimit.BoundIsReached | apps/server/src/rate-limit.ts:73-90 | that bound is attained: for every limit of at least one, some run admits exactly that many within a minute |
| RateLimit.RetryAfterIsHonest | apps/server/src/rate-limit.ts:85-89 | a blocked client that stays quiet is admitted exactly from the end of its window on, and the promised seconds are the first whole ones reaching it |
| LogFile.RotatingFileStream.constructor | apps/server/src/log-file.ts:36-43 | opens for append on whatever file exists |
| LogFile.RotatingFileStream.Write | apps/server/src/log-file.ts:45-58 | rotates first exactly when a nonempty file would overflow, then appends the chunk whole |
| LogFile.RotatingFileStream.Rotate | apps/server/src/log-file.ts:61-72 | each kept generation moves up by one, the current file becomes generation 1, a fresh one is opened |
| LogFile.RotatingFileStream.RenameChain | apps/server/src/log-file.ts:63-68 | the descending renames shift all generations without overwriting any |
| LogFile.RotationLosesTheOldest | apps/server/src/log-file.ts:61-72 | a rotation deletes exactly the oldest kept generation and reorders nothing |
| LogFile.RotationShifts | apps/server/src/log-file.ts:61-72 | after a rotation every kept number holds what the one before it held, 1 the current file, and the current file is empty |
| LogFile.OneWriteLosesWholeFiles | apps/server/src/log-file.ts:45-72 | what one write loses is one whole generation or nothing |
| LogFile.NothingElseIsLost | apps/server/src/log-file.ts:45-72 | over any writes: deleted files followed by the retained chunks are the original content followed by everything written |
| LogFile.FilesStayBounded | apps/server/src/log-file.ts:47-51 | every file stays within the maximum size or holds at most one nonempty chunk |
| LogFile.FilesOverflowByOneLine | apps/server/src/log-file.ts:47-48 | the documented bound: over every run no generation exceeds the maximum size by more than its last chunk |
| LogFile.FilesAreFilled | apps/server/src/log-file.ts:45-72 | over every run that starts without numbered files, no file is rotated away before it is too full for the chunk that begins the next one, and no more are kept than asked for |
| LogFile.WriteKeepsSingleIff | apps/server/src/log-file.ts:49-57 | one write keeps "within the maximum size or one single chunk" if and only if it does not put an oversize chunk into a file of empty ones |
| LogFile.SingleThroughoutIff | apps/server/src/log-file.ts:45-72 | whatever is on disk first, that bound holds throughout a run if and only if no write breaks it |
| LogFile.OneChunkIff | apps/server/src/log-file.ts:45-72 | for the files the stream creates, told from the chunks alone: it holds throughout if and only if no oversize chunk follows empty ones that follow the start or another oversize chunk |
| LogFile.NonemptyChunksStaySingle | apps/server/src/log-file.ts:45-72 | in particular it holds when no chunk is empty |
| LogFile.EmptyChunkCounterexample | apps/server/src/log-file.ts:47-51 | it fails for every oversize chunk followed by an empty one and another oversize one |
| MeteredService.SelectMeteredService | apps/server/src/ac-agreement-bridge.ts:577-611 | the loop returns an offer with a fuzzy match that is no worse than any other such offer by the documented order of criteria, or none when there is none |
| MeteredService.BetterIsStrictTotalOrder | apps/server/src/ac-agreement-bridge.ts:596-607 | the comparison (exact, fuzzy, named, in zone, type, id) is a strict order, total on distinct ids |
| MeteredService.BestIsWinner | apps/server/src/ac-agreement-bridge.ts:577-611 | the left-to-right choice is a maximum of that order, none exactly when nothing matches |
| MeteredService.ChoiceIgnoresOrder | apps/server/src/ac-agreement-bridge.ts:561-576 | with distinct ids every permutation of the offers gives the same choice, strictly better than all other matches |
| MeteredService.ChosenIsPreferred | apps/server/src/ac-agreement-bridge.ts:559-610 | of the offers that reach a required capability the chosen one names the most of them exactly; of those it reaches the most; of those it has a required type if any has; of those it is backed in the event's zone if any is; of those it comes first by type and id |
| MeteredService.CountsAreExactHits | apps/server/src/ac-agreement-bridge.ts:580-582 | the exact score is the number of required capabilities that are the offer's type or the name of one of its actions |
| MeteredService.LessMeans | apps/server/src/ac-agreement-bridge.ts:606-607 | the string comparison is the lexicographic one |
| AcBridge.AcAgreementBridge.OnProposal | apps/server/src/ac-agreement-bridge.ts:169-180 | remembers or replaces the proposal |
| AcBridge.AcAgreementBridge.OnAccept | apps/server/src/ac-agreement-bridge.ts:182-200 | lands what the rules allow and reports the outcome |
| AcBridge.AcAgreementBridge.OnCompleted | apps/server/src/ac-agreement-bridge.ts:227-249 | closes the collaboration and its remembered children with one outcome, then forgets them |
| AcBridge.AcAgreementBridge.CompleteEach | apps/server/src/ac-agreement-bridge.ts:244-247 | the cascade of a completion, child by child |
| AcBridge.AcAgreementBridge.OnCancelled | apps/server/src/ac-agreement-bridge.ts:212-224 | ends the collaboration and its remembered children unmetered, then forgets them |
| AcBridge.AcAgreementBridge.CancelEach | apps/server/src/ac-agreement-bridge.ts:219-222 | the cascade of a cancellation, child by child |
| AcBridge.AcAgreementBridge.CloseCollaboration | apps/server/src/ac-agreement-bridge.ts:494-520 | one usage row per active agreement, each then terminated as completed |
| AcBridge.AcAgreementBridge.TerminateWithoutUsage | apps/server/src/ac-agreement-bridge.ts:527-534 | active agreements terminated as cancelled, no usage row |
| AcBridge.ChildIds | apps/server/src/ac-agreement-bridge.ts:126-137 | the collaborations whose remembered proposal names the parent, in order |
| AcBridge.EveryReachableState | apps/server/src/ac-agreement-bridge.ts:150-288 | in every state one attachment reaches, active agreements are of remembered collaborations, one per collaboration and responder, and usage rows correspond one-to-one to agreements terminated as completed |
| AcBridge.UsageCarriesItsClosing | apps/server/src/ac-agreement-bridge.ts:227-249 | over every run each usage row carries the outcome of the completion that ended its agreement, directly or as a child |
| AcBridge.RestartsKeepTheAccounts | apps/server/src/ac-agreement-bridge.ts:143-148 | over any number of restarts and events, still one active agreement per collaboration and responder and one usage row per completed one |
| AcBridge.RunStartsEmpty | apps/server/src/ac-agreement-bridge.ts:143-148 | an attachment over an empty ledger is the run that starts from nothing |
| AcBridge.RestartForgets | apps/server/src/ac-agreement-bridge.ts:143-148 | after a restart a closing reaches no children, and active agreements are of remembered collaborations only if there are none |
| AcBridge.WhatLands | apps/server/src/ac-agreement-bridge.ts:260-332 | an accept lands if and only if it is no duplicate, the proposal is remembered, both agents exist in the environment and an offer matches; the row joins the two parties on the preferred offer and is flagged when out of zone |
| AcBridge.CompletionIsOneHop | apps/server/src/ac-agreement-bridge.ts:227-249 | a completion ends exactly the active agreements of the collaboration and its direct children, with the closing outcome on each new usage row |
| AcBridge.CancellationIsOneHop | apps/server/src/ac-agreement-bridge.ts:212-224 | a cancellation reaches the same agreements and meters none |
| AcBridge.ReachedIsOneHop | apps/server/src/ac-agreement-bridge.ts:126-137 | what a closing reaches is the collaboration and its remembered direct children, nothing more |
| AcBridge.NothingLandsUntilReproposed | apps/server/src/ac-agreement-bridge.ts:212-288 | after a closing, over every continuation without a new proposal, the collaboration and its then children hold no active agreement |
| AcBridge.LandedIsConserved | apps/server/src/ac-agreement-bridge.ts:494-534 | landed = active + completed + cancelled, and usage rows = completed, over every run |
| AcBridge.WholeChainEndsIff | apps/server/src/ac-agreement-bridge.ts:212-249 | a completion or cancellation silences the whole delegation chain if and only if no deeper descendant held an active agreement |
| AcBridge.GrandchildSurvives | apps/server/src/ac-agreement-bridge.ts:217-224 | a reachable chain of three whose last agreement survives the cancellation of its root |
| Failover.AgreementStore.SetStatus | apps/server/src/db/agreement-store.ts:590-605 | one row takes the status and reason, all others stay |
| Failover.AgreementStore.ResignRecoveredAgreement | apps/server/src/db/agreement-store.ts:838-858 | the old row is terminated as recovered and a successor on its contract is appended active |
| Failover.AgreementStore.Transition | apps/server/src/agreement-failover.ts:124-134 | parks, recovers or leaves one row by its provider's silence |
| Failover.AgreementStore.Consider | apps/server/src/agreement-failover.ts:107-134 | the cached heartbeat is the true one (providers keyed apart), unknown providers are never judged |
| Failover.AgreementStore.SweepProviderFailover | apps/server/src/agreement-failover.ts:96-137 | a whole sweep: every row judged once against the ledger at its start, with the counts it reports |
| Failover.WhoIsTouched | apps/server/src/agreement-failover.ts:116-135 | exactly the known active rows silent beyond the limit are parked and the watchdog-parked ones heard again are closed; contracts never change |
| Failover.SuccessorsAreOfReturning | apps/server/src/agreement-failover.ts:124-134 | one successor for each row whose provider comes back, in order, active on the same contract |
| Failover.TallyIsExact | apps/server/src/agreement-failover.ts:96-137 | what a sweep reports: how many rows it watches, fall silent, and come back |
| Failover.SweptSoFar | apps/server/src/agreement-failover.ts:116-135 | in-place steps with rows appended on the way equal judging all rows and appending all successors |
| Failover.SweepIsIdempotent | apps/server/src/agreement-failover.ts:96-137 | a second sweep with the same clock and heartbeats changes nothing and counts nothing |
| Failover.VisitingOrderIsIrrelevant | apps/server/src/db/agreement-store.ts:817-827 | in whatever order the rows are visited, a sweep leaves the same rows; only the order of the successors differs |
| Failover.ProbeKeysCollideIff | apps/server/src/agreement-failover.ts:107-114 | the joined cache keys of two different providers collide if and only if one environment id extends the other by a nonempty piece that the other's provider id starts with, never for ids of one length |
| Failover.NeverBackToActive | apps/server/src/db/agreement-store.ts:830-834 | over any sweeps no row returns to active and terminated rows are final |
| Failover.OneLiveRowPerLineage | apps/server/src/db/agreement-store.ts:829-858 | each lineage keeps exactly one non-terminated row, none if it started terminated |
| Failover.TermsNeverChange | apps/server/src/db/agreement-store.ts:843-853 | every row of a lineage carries the contract of its root |
| Failover.ActivePlusParkedIsConserved | apps/server/src/agreement-failover.ts:116-135 | the number of active plus watchdog-parked explicit rows is constant over every run |
| TriggerExecutor.AgreementTriggerExecutor.Evaluate | apps/server/src/agreement-trigger-executor.ts:151-182 | one injected event: candidates fixed first, resets on the event, then the matching triggers |
| TriggerExecutor.AgreementTriggerExecutor.SettleExpiredHolds | apps/server/src/agreement-trigger-executor.ts:161-166 | expired holds of the environment become active, nothing else changes |
| TriggerExecutor.AgreementTriggerExecutor.RunEventResets | apps/server/src/agreement-trigger-executor.ts:171-176 | arms of this simulation whose clause matches are removed and fired, in order |
| TriggerExecutor.AgreementTriggerExecutor.ResetArm | apps/server/src/agreement-trigger-executor.ts:429-476 | the arm is removed; the reset executes only if the live row is active, still has the clause, and the simulation lives |
| TriggerExecutor.AgreementTriggerExecutor.RunTriggers | apps/server/src/agreement-trigger-executor.ts:178-181 | every candidate whose trigger matches is fired, in order |
| TriggerExecutor.AgreementTriggerExecutor.FireTrigger | apps/server/src/agreement-trigger-executor.ts:236-331 | a successful invocation with a reset clause arms it, replacing an earlier arm; refusals arm nothing |
| TriggerExecutor.AgreementTriggerExecutor.Tick | apps/server/src/agreement-trigger-executor.ts:389-421 | drops orphans, fires overdue deadlines, reschedules while arms remain |
| TriggerExecutor.AgreementTriggerExecutor.DropOrphanedArms | apps/server/src/agreement-trigger-executor.ts:395-405 | removes the deadline arms of stopped simulations |
| TriggerExecutor.AgreementTriggerExecutor.RunDeadlineResets | apps/server/src/agreement-trigger-executor.ts:406-416 | fires the arms whose deadline has passed |
| TriggerExecutor.EveryReachableState | apps/server/src/agreement-trigger-executor.ts:151-182 | over every run: at most one arm per agreement, each from a successful invocation and as its clause asks (event, and deadline counted from that invocation), and the latest; none fires twice, no deadline fires early, a nonempty ledger has its recheck scheduled |
| TriggerExecutor.DeadlinesCountFromTheInvocation | apps/server/src/agreement-trigger-executor.ts:333-352 | over every run the deadline of each pending or fired arm is the clock of the invocation that armed it plus the seconds of its clause, none without such a clause; no reset by deadline came earlier |
| TriggerExecutor.FireKeeps | apps/server/src/agreement-trigger-executor.ts:305-317 | firing a trigger, re-arming included, keeps these invariants |
| TriggerExecutor.FireResetKeeps | apps/server/src/agreement-trigger-executor.ts:429-476 | firing a reset keeps them and removes exactly that arm |
| TriggerExecutor.EventLaneKeeps | apps/server/src/agreement-trigger-executor.ts:171-176 | an event removes exactly the arms it resets |
| TriggerExecutor.TickRemovesExactly | apps/server/src/agreement-trigger-executor.ts:391-418 | a tick removes exactly the overdue arms and the deadline arms of stopped simulations |
| TriggerExecutor.StoppedSimsKeepEventArms | apps/server/src/agreement-trigger-executor.ts:396-405 | after a tick no arm of a stopped simulation is left if and only if none of them waited for an event alone |
| TriggerExecutor.EventArmOutlivesItsSim | apps/server/src/agreement-trigger-executor.ts:96-100 | a reachable state in which the arm of a stopped simulation and the recheck timer outlive every number of ticks |
| TriggerExecutor.OnlyActiveAgreementsExecute | apps/server/src/agreement-trigger-executor.ts:157-182 | every execution an event or tick adds is for an agreement active at that moment, with a matching clause; earlier entries stay |
| TriggerExecutor.EventExecutesExactly | apps/server/src/agreement-trigger-executor.ts:151-182 | an injected event executes the resets of exactly the pending arms of its simulation whose clause it matches and that can be reset, then one entry, in order, for exactly the active agreements of the environment whose trigger matches: a skip when the quota is spent, else the agreed action with its arm |
| TriggerExecutor.TickExecutesExactly | apps/server/src/agreement-trigger-executor.ts:391-416 | a tick executes a reset for exactly the pending arms whose deadline has come on the clock of their running simulation and whose agreement is active with a reset clause |
| TriggerExecutor.ClausesAreConjunctions | apps/server/src/agreement-trigger-executor.ts:64-80 | each given field of a clause is one condition of its own, the threshold inclusive, and a clause without fields matches anything |
| TriggerInterleaving.EveryInterleavingKeeps | apps/server/src/agreement-trigger-executor.ts:151-331 | the ledger invariants hold however evaluations in flight, ticks and changes of agreements and simulations interleave at the awaits |
| TriggerInterleaving.MoveKeepsWaitingIff | apps/server/src/agreement-trigger-executor.ts:161-181 | what evaluations still wait to execute stays active over a step if and only if the step does not take one of these agreements out of force |
| TriggerInterleaving.NothingWithdrawnIsSafe | apps/server/src/agreement-trigger-executor.ts:178-181 | over every run in which no awaited agreement is taken out of force, every invocation begun is of an agreement active at that moment |
| TriggerInterleaving.InactiveExecutesIffWithdrawn | apps/server/src/agreement-trigger-executor.ts:157-181 | a step lets an agreement that is not active be executed, by whatever evaluations do next, if and only if it takes one out of force that some evaluation still waits to execute |
| TriggerInterleaving.SecondCandidateIsWithdrawn | apps/server/src/agreement-trigger-executor.ts:157-181 | whenever two triggers match, ending the second agreement during the first invocation has it executed while inactive |
| TriggerInterleaving.UninterruptedIsEvaluated | apps/server/src/agreement-trigger-executor.ts:151-182 | an evaluation whose steps nothing interrupts does exactly what the atomic evaluation does |
| FrameEvaluator.TightestFloor | apps/server/src/lazy-driver.ts:91-114 | the least usable floor of the active agreements, none when there is none |
| FrameEvaluator.TightestIsUnique | apps/server/src/lazy-driver.ts:96-109 | that floor is determined by the agreements, not by their order |
| FrameEvaluator.FloorsGate | apps/server/src/lazy-driver.ts:91-114 | an agreement in force with a positive floor bounds the schedule's floor, and has its stale frame recomputed |
| FrameEvaluator.OthersNeverGate | apps/server/src/lazy-driver.ts:91-114 | any other agreement changes neither the schedule's floor nor any frame |
| FrameEvaluator.FrameCache.RecomputeStale | apps/server/src/frame-evaluator.ts:272-293 | exactly the frames whose contract has run out, for some active agreement, are recomputed now |
| FrameEvaluator.HookRestoresContracts | apps/server/src/frame-evaluator.ts:248-255 | after the hook every contract holds, and frames are kept or brand new |
| LazyDriver.LazyDriver.Iterate | apps/server/src/lazy-driver.ts:145-201 | one loop pass: clock, whether the world advanced, and the frames refreshed exactly after an advance |
| LazyDriver.NeverAheadOfTheWall | apps/server/src/lazy-driver.ts:145-201 | over any interleaving of sleeps, late timers, early wakes, pauses and manual steps, the simulation clock stays behind the rate times the wall time elapsed |
| LazyDriver.AdvanceIsBounded | apps/server/src/lazy-driver.ts:157-186 | an early wake never advances; an advance is at most one stride, never passes the peeked due moment or the mapped floor, and reaches the nearest of the three |
| LazyDriver.TurnEndsExactly | apps/server/src/lazy-driver.ts:145-191 | what every pass does, exactly: the sleep it asks for, whether it advances and where it ends, in terms of the first of the due moment, the mapped floor and the stride cap |
| LazyDriver.DueIsApproached | apps/server/src/lazy-driver.ts:157-188 | without a usable floor an undisturbed pass ends at the due moment, or one stride further when that is beyond it |
| LazyDriver.DueIsReached | apps/server/src/lazy-driver.ts:145-191 | there is a number of undisturbed passes after which every run towards a due moment that stays has reached it, and never passed it, whatever the floors as long as they have a lower bound |
| LazyDriver.RecheckIsKeptIff | apps/server/src/lazy-driver.ts:166-180 | whatever a turn meets, the due set is re-read within the recheck interval if and only if a whole stride takes no longer than that |
| LazyDriver.NextHookIsNear | apps/server/src/lazy-driver.ts:157-191 | an undisturbed pass advances and its hook comes within the tightest floor, or the sleep of a whole stride where that is shorter |
| LazyDriver.FrameAgeBound | apps/server/src/lazy-driver.ts:157-201 | a frame under floor f is younger than f plus the tightest floor, or plus the sleep of a whole stride where that is shorter, just before the next hook, hence less than 2 f, and the hook restores every contract |
| LazyDriver.FrameAgeBoundOverRuns | apps/server/src/lazy-driver.ts:145-201 | over every undisturbed run, agreements coming and going: one seen by a hook and still there at the next pass finds its frame younger than that bound at the next hook |
| LazyDriver.ContractKeptIff | apps/server/src/lazy-driver.ts:173-186 | the floor alone survives to the next hook in every undisturbed pass if and only if the frame's age plus the tightest floor, or the sleep of a whole stride, does not exceed it |
| LazyDriver.BoundIsBestPossible | apps/server/src/lazy-driver.ts:157-201 | for every floor, every tightest floor up to it, every stride cap and every margin, some undisturbed run from fresh frames exceeds that bound less the margin |
| Computation.Evaluate | apps/server/src/computation-evaluator.ts:555-645 | the metric loop yields the specified frame and summary |
| Computation.EvaluateMetric | apps/server/src/computation-evaluator.ts:581-634 | one metric adds its value, its events and, for a placeholder, its flag and one contrasting zone |
| Computation.FirstEcho | apps/server/src/computation-evaluator.ts:616-622 | the first selected zone showing a number or flag under the name |
| Computation.AverageIsBetween | apps/server/src/computation-evaluator.ts:529-541 | least, average and greatest are ordered, and the extremes are values |
| Computation.FrameHoldsEveryMetric | apps/server/src/computation-evaluator.ts:547-554 | every declared field is present with its own metric's value |
| Computation.FieldsAreDeclared | apps/server/src/computation-evaluator.ts:581-634 | the frame has no undeclared field |
| Computation.FieldsAreMeasured | apps/server/src/computation-evaluator.ts:555-634 | every field of every frame holds its metric measured over exactly the declared zones and devices: the numbers shown there aggregated, or a count of capable devices, of active ones, or of events in the window |
| Computation.WindowedAreCounted | apps/server/src/computation-evaluator.ts:590-601 | the summary counts the events in the windows of all event metrics |
| Computation.EchoesComeWithFlags | apps/server/src/computation-evaluator.ts:616-622 | contrasting zones come with flagged fields, and with no others |
| Computation.AggregatesAreRight | apps/server/src/computation-evaluator.ts:529-541 | the extremes are values that bound all others, the total is the sum and the average times the count is too; without values there is none |
| Computation.DeclaredZonesShow | apps/server/src/computation-evaluator.ts:555-589 | a number that a declared zone shows enters the aggregate |
| Computation.EchoIsFirst | apps/server/src/computation-evaluator.ts:616-622 | the contrasting zone is the first selected one that shows a number or flag under the name, none exactly when no zone does |
| Listings.KeptIsExact | apps/server/src/computation-evaluator.ts:559-562 | a filtered list holds exactly the elements to keep, in order and as often as in the list |
| Computation.FlaggedIffPlaceholder | apps/server/src/computation-evaluator.ts:606-624 | a field is flagged as unwritten exactly when it has a value and every matching device is known never to have written its path |
| Computation.PlaceholdersAreUnwritten | apps/server/src/computation-evaluator.ts:606-624 | a device value is a placeholder exactly when some capable device shows a number and every one is known to the runtime and has not written the path |
| Computation.WrittenIsNeverFlagged | apps/server/src/computation-evaluator.ts:574-577 | one matching device that wrote the path, or is unknown to the runtime, clears the flag |
| Computation.DeviceFieldsAreConsistent | apps/server/src/computation-evaluator.ts:602-605 | fields over one device selection and key agree on being empty, and min ≤ avg ≤ max |
| Computation.CountsAreConsistent | apps/server/src/computation-evaluator.ts:590-601 | 0 ≤ active count ≤ count ≤ devices in scope |
| Computation.UndeclaredInputsCannotShow | apps/server/src/computation-evaluator.ts:563-571 | the result depends only on the declared zones, devices, keys, capabilities, event types and the clock |
| Computation.OtherDevicesCannotShow | apps/server/src/computation-evaluator.ts:563-571 | replacing a device outside the declared scope changes nothing |
| Computation.OtherZonesCannotShow | apps/server/src/computation-evaluator.ts:559-562 | replacing a zone outside the declared selection changes nothing |
| Computation.GatherInputs | apps/server/src/frame-evaluator.ts:72-121 | the provider's bound devices that exist in store and snapshot, with the known written paths |
| Computation.GatheredIsExact | apps/server/src/frame-evaluator.ts:72-121 | exactly the bound devices that have a row and appear in the snapshot are gathered, in order, with the written paths of those that the runtime knows |
| Computation.FrameShowsOnlyBoundDevices | apps/server/src/frame-evaluator.ts:83-108 | worlds that agree on the provider's bound devices give the same frame |
| EvalReport.GroupResponses | apps/server/src/eval-report.ts:445-510 | the loop groups the responses as specified |
| EvalReport.GroupsSummarizeTheResponses | apps/server/src/eval-report.ts:445-510 | one group per handshake that has a response, stating exactly what its responses say (acceptance, cancellation and markers, events, rejects, earliest time) |
| EvalReport.CountsAreInitiations | apps/server/src/eval-report.ts:554-558 | the per-event index counts exactly the event's initiations |
| EvalReport.AggregateHandshakes | apps/server/src/eval-report.ts:445-677 | all handshake counters and failure buckets of any record list |
| EvalReport.AttributeExtras | apps/server/src/eval-report.ts:653-676 | the attribution of initiations beyond one per handshake, and their number |
| EvalReport.FailedHandshakeExists | apps/server/src/eval-report.ts:661-664 | an event with handshakes but no accepted one always has a failed handshake to blame: the first |
| EvalReport.CausesFollowTheRecords | apps/server/src/eval-report.ts:611-635 | the cause of a failed handshake read off its records, each of the six buckets with its exact condition; pending exactly while no recorded time is two minutes or more after the handshake's earliest initiation, or response |
| EvalReport.LoneCausesFollowTheRecords | apps/server/src/eval-report.ts:664-676 | the cause of an initiation without a handshake: its own shortlist, then its own window |
| HandshakeAudit.BucketsAreExact | apps/server/src/eval-report.ts:636-677 | every bucket of the report, exactly: the handshakes that nobody accepted by their cause, and event by event the initiations beyond its handshakes, superseded when the event is settled, else with the cause of its first handshake, else each with its own |
| HandshakeAudit.CountersAreExact | apps/server/src/eval-report.ts:504-571 | every counter of the report as a number of handshakes or initiations among the records |
| EvalReport.BucketsAddUp | apps/server/src/eval-report.ts:636-677 | the buckets always sum to the unaccepted handshakes plus, per event, the initiations beyond its handshakes |
| EvalReport.SurplusBalancesShortfall | apps/server/src/eval-report.ts:554-569 | surplus and shortfall per event balance initiations against handshake memberships |
| EvalReport.IdentityHoldsIff | apps/server/src/eval-report.ts:573-579 | the documented identity (buckets sum to `failed`) holds exactly under a condition on surplus, shortfall and multi-event handshakes |
| EvalReport.IdentityForSingleEvents | apps/server/src/eval-report.ts:573-579 | with one event per handshake, it holds if and only if no event has more handshakes than initiations or none has fewer |
| EvalReport.IdentityCounterexample | apps/server/src/eval-report.ts:522-579 | five records for which the identity fails and successes plus mechanical cancellations exceed `initiated` |
| EvalReport.SuccessesFitInitiations | apps/server/src/eval-report.ts:528-571 | successes plus coordinator cancellations never exceed successes plus buckets, hence fit in `initiated` whenever the identity holds |
| EvalReport.SupersededIsPartOfCancelled | apps/server/src/eval-report.ts:565-577 | the superseded bucket is within the coordinator cancellations, and all of the deduplicated ones if and only if no event merged initiations into failed handshakes only |
| EvalReport.MergedIntoAFailure | apps/server/src/eval-report.ts:565-577 | a rejected handshake initiated twice: cancelled by the coordinator, nothing superseded |
| ReputationBuckets.EventRowAddsUpIff | apps/server/src/eval-report.ts:94-107 | a row with event columns has success + partial + failed = attempts if and only if its rounded success and partial columns fit its attempts |
| ReputationBuckets.LegacyRowAddsUpIff | apps/server/src/eval-report.ts:108-109 | a legacy row does if and only if the whole part of its weight sum, plus one when the fraction is a quarter or more, fits its attempts |
| ReputationBuckets.MergedColumnsExceedAttempts | apps/server/src/db/reputation-store.ts:295-306 | ten successes tracked and ten partial ones shown by the usage records, each row adding up, are merged into one that does not |
| ReputationBuckets.TrackedLegacyRowsAddUp | apps/server/src/db/reputation-store.ts:295-306 | a legacy row with whole attempts and successes within them always adds up, and so does what a backfill makes of it |
| ReputationBuckets.LegacyRowsPairPartials | packages/core/src/reputation/ReputationTracker.ts:78-103 | a legacy row is recovered with its partial successes paired up, exactly if and only if there is at most one |
| Replay.BuildReplay | apps/server/src/replay-service.ts:484-541 | the two observation loops and the exported initial states |
| ReplayAudit.ReadingsFollowTheRow | apps/server/src/replay-service.ts:440-466 | a row is skipped when it is about no device, by its own id or its binding, withheld when the viewer is identified and owns neither device nor environment, else taken |
| ReplayAudit.EventsAreTheChanges | apps/server/src/replay-service.ts:516-541 | there is one event for each taken row that changes its device's value as the rows before leave it, and for no other, in order, numbered from one, with its zone, parameter, value and time |
| ReplayAudit.CountsFollowTheRows | apps/server/src/replay-service.ts:484-541 | the skipped and redacted counters, before the window and in it |
| ReplayAudit.SnapshotStartsWith | apps/server/src/replay-service.ts:484-506 | the exported initial state of a device is what was last observed over what it stores, and nothing for a foreign device |
| Replay.WithheldIff | apps/server/src/replay-service.ts:457-466 | a resolved row is withheld exactly from an identified viewer who owns neither the environment nor the device |
| Replay.AnonymousSeesForeignDevices | apps/server/src/replay-service.ts:457-466 | an anonymous viewer is exported the observation of a foreign device, an identified stranger is not |
| Replay.InitialStateIsKnown | apps/server/src/replay-service.ts:484-506 | initial states and compression baseline hold the same values, those of applying all usable rows; every row is counted once |
| Replay.DeltasReplayTheLog | apps/server/src/replay-service.ts:508-541 | replaying the emitted events gives, after every window prefix, what applying all usable observations gives |
| Replay.PrefixesGivePrefixes | apps/server/src/replay-service.ts:516-541 | the events of a window prefix are a prefix of the window's events |
| Replay.ExportReplaysTheLog | apps/server/src/replay-service.ts:484-625 | from the initial states the export carries, its events end where the whole log applied to the stored states ends |
| Replay.NoRedundantEvents | apps/server/src/replay-service.ts:526-531 | every event changes the value its device had |
| Replay.RowsAreCounted | apps/server/src/replay-service.ts:516-541 | emitted + unchanged + skipped + redacted = rows read, and events are numbered in order |
| Replay.ZoneReplayIsExact | apps/server/src/replay-service.ts:531-538 | with one exported device per zone, replaying by zone and parameter is exact too |
| Replay.SharedZoneLosesAValue | apps/server/src/replay-service.ts:531-538 | two exported devices of one zone and three observations make that replay end on the wrong value |
| Replay.ZoneReplayExactIff | apps/server/src/replay-service.ts:531-538 | it is exact for every log if and only if no zone holds two exported devices |
| NewestFirst.StableSortSorts | apps/server/src/activity-feed.ts:168-170 | the sort orders newest first, keeps all entries and the order of ties |
| NewestFirst.OneStableSort | apps/server/src/activity-feed.ts:168-170 | ordered lists that agree on each time are equal: the sort is the only stable one |
| NewestFirst.SortIsMerge | apps/server/src/activity-feed.ts:168-170 | sorting behind an ordered source is merging it with the sorted rest |
| NewestFirst.TruncationIsExactIff | apps/server/src/activity-feed.ts:133-173 | a page of a truncated merge is exact if and only if the loss lies beyond it |
| NewestFirst.PagesAgreeIff | apps/server/src/activity-feed.ts:171-173 | filtered pages of two lists that differ here and there agree if and only if no difference shows |
| NewestFirst.PagingEnumeratesIff | apps/server/src/activity-feed.ts:83-88 | paging by the last entry's time visits everything once if and only if no page boundary splits a tie |
| ActivityFeed.BuildFeed | apps/server/src/activity-feed.ts:112-174 | fetch, harvest, merge, sort, window, filter, slice as specified |
| ActivityFeed.ReadCommands | apps/server/src/activity-feed.ts:132-155 | entries of all command rows but transitions, and the harvested actors |
| ActivityFeed.ReadGovernance | apps/server/src/activity-feed.ts:162-167 | proposal and agreement entries in source order |
| FeedContents.PageShowsTheNewest | apps/server/src/activity-feed.ts:112-174 | a page shows only what some fetched command row, proposal or visible agreement tells and the request asks for, newest first, and leaves out none of it that is newer; nobody but the parties and the owner is told of an agreement |
| FeedContents.CommandsAreTold | apps/server/src/activity-feed.ts:133-155 | one entry for each fetched row that is no audit row, in order: its time, actor, action and object, flows and events under kinds of their own |
| FeedContents.FetchedAreTheFirst | apps/server/src/activity-feed.ts:121-133 | the fetched rows are the first of those older than the cursor, as many as the page asks for, or 200 under a filter |
| FeedAudit.PageIsExactIff | apps/server/src/activity-feed.ts:83-95 | with any cursor and filter, the page is the first `limit` entries of the untruncated feed, closing actors included, if and only if no lost command belongs on it and every closing actor that reaches it is known from the fetched rows |
| FeedAudit.PageIsExactWithoutTransitions | apps/server/src/activity-feed.ts:83-88 | without audit rows on the fetched page and with nothing filtered out (no filter, or an empty one within the hard cap), the page is that of the untruncated feed if and only if the closing actors that reach it are known all the same |
| FeedAudit.UnfetchedCloserIsWrong | apps/server/src/activity-feed.ts:126-161 | for every limit and filter that selects the entry: behind a fetch full of commands the log names another closing actor, and the page names the provider |
| FeedAudit.CloserIsRightIff | apps/server/src/activity-feed.ts:145-161 | a closing actor is the whole log's if and only if no row names that closing, or the latest that does lies on the page, or the page names the same actor anyway |
| FeedAudit.ExactPagesLoseNothing | apps/server/src/activity-feed.ts:126-173 | a page that agrees with the whole feed has lost nothing within it, whoever is named as closing |
| ActivityFeed.TruncationShowsIff | apps/server/src/activity-feed.ts:126-173 | with the same known actors, the first entries are unaffected by the truncation if and only if nothing selected is lost or the first loss lies beyond |
| ActivityFeed.ActorIsOfTheLatest | apps/server/src/activity-feed.ts:145-150 | the recorded actor is that of the latest audit row, among equal times the earliest written |
| FeedAudit.LastWrittenCountsIff | apps/server/src/activity-feed.ts:145-150 | in a newest-first log the recorded actor is the last written row's if and only if the first written row of the same time names the same actor |
| FeedAudit.FirstWrittenWinsTies | apps/server/src/activity-feed.ts:145-150 | two audit rows of one time: the one written first is recorded |
| FeedAudit.GovernanceIsExactIff | apps/server/src/activity-feed.ts:156-161 | what agreements contribute is what the whole log would give if and only if every closing actor shown is known on the page, in terms of the log's rows |
| FeedSession.SessionEnumeratesIff | apps/server/src/activity-feed.ts:83-88 | for any log, limit and filter: fetching page after page enumerates the whole feed that the filter selects if and only if every page on the way is nonempty, loses nothing within it, knows its closing actors and does not end inside a tie |
| FeedSession.PlainSessionEnumeratesIff | apps/server/src/activity-feed.ts:83-88 | without audit rows in the log and with nothing filtered out: if and only if no page boundary splits a tie |
| FeedSession.FullFetchLosesACommand | apps/server/src/activity-feed.ts:83-173 | behind rows that fill one fetch and show nothing under the filter, a command that the filter selects never appears, whatever the limit and however often one reads on |
| FeedSession.AuditRowsLoseACommand | apps/server/src/activity-feed.ts:134-153 | as many audit rows as one fetch holds (200 under a filter) do that, for every limit and every filter that selects the command |
| FeedSession.FilteredRowsLoseAMatch | apps/server/src/activity-feed.ts:89-95 | 200 rows that the filter drops do it too, against the promise that a short page under a filter has no more matches behind it |
| PagedReading.ReadingEnumeratesIff | apps/server/src/activity-feed.ts:83-88 | reading any newest-first pages by the time of the last entry enumerates what is left if and only if every page continues it |
| Geo.PointInPolygon | apps/server/src/geo.ts:366-385 | the ray-casting loop answers by the parity of the edges crossed below the point |
| GeoContainment.InsideIsOddCovering | apps/server/src/geo.ts:366-385 | for every ring, convex or not: off the lines of the triangles fanned out from its first vertex, a point is inside exactly when an odd number of them have it on one side of all their edges |
| GeoContainment.TriangleIsExact | apps/server/src/geo.ts:366-385 | off the lines through its edges, a point is inside a triangle exactly when it is on one side of all three |
| GeoContainment.OneMoreVertex | apps/server/src/geo.ts:366-385 | one more vertex adds the triangle it makes with the first and the last one, or takes it away |
| Geo.RingsCrossEvenly | apps/server/src/geo.ts:366-385 | a closed ring straddles any meridian an even number of times |
| Geo.ProjectionFlipsSides | apps/server/src/geo.ts:60-70 | projecting keeps which edges straddle and swaps the two sides |
| Geo.ContainmentIsAffine | apps/server/src/geo.ts:366-385 | degrees and metres give the same answer if and only if an even number of straddling edges pass through the point |
| Geo.IntersectionIsSymmetric | apps/server/src/geo.ts:337-348 | swapping or reversing segments changes nothing |
| Geo.ProjectionKeepsCrossings | apps/server/src/geo.ts:337-348 | two segments cross in degrees exactly when they cross in metres |
| Geo.IntersectionMeansCrossing | apps/server/src/geo.ts:337-348 | the orientation tests hold exactly when the segments meet in a point interior to both |
| Geo.RingSelfIntersects | apps/server/src/geo.ts:164-181 | true exactly when two non-adjacent edges cross |
| Geo.SelfIntersectionMeansCrossing | apps/server/src/geo.ts:164-181 | the check is exact: two edges without a common vertex meet in a point interior to both |
| Geo.SelfIntersectionIsAffine | apps/server/src/geo.ts:156-181 | checking in degrees is as good as in metres |
| GeoArea.RingAreaDeg2 | apps/server/src/geo.ts:145-154 | the shoelace loop, fanned out from the first vertex |
| GeoArea.VertexAddsTriangle | apps/server/src/geo.ts:144-154 | one more vertex adds the triangle it makes with the first and the last one, signed by its side |
| GeoArea.TriangleArea | apps/server/src/geo.ts:144-154 | half of base times height for a triangle with a level base |
| GeoArea.RectangleArea | apps/server/src/geo.ts:144-154 | width times height for a rectangle |
| GeoArea.OriginDoesNotMatter | apps/server/src/geo.ts:144-154 | the fan may start from any point: a closed ring gives the same signed sum |
| GeoArea.StartDoesNotMatter | apps/server/src/geo.ts:144-154 | nor does the area depend on the vertex the ring starts with |
| GeoArea.AreaIsAffine | apps/server/src/geo.ts:60-70 | square metres are square degrees times one positive constant, whatever the ring |
| Geo.NearestIsNearest | apps/server/src/geo.ts:321-331 | the clamped projection is the nearest point of the segment |
| GeoDistance.SegmentDistanceIsLeast | apps/server/src/geo.ts:350-363 | the coded distance of two segments is the least over all of their points, and is attained |
| Geo.LeastEdgeDistance | apps/server/src/geo.ts:388-401 | the double loop, early exit included, returns the least distance |
| Geo.PolygonBoundaryDistance2 | apps/server/src/geo.ts:388-401 | the least squared distance over all pairs of edges |
| GeoDistance.LeastIsBoundaryDistance | apps/server/src/geo.ts:387-401 | that value is the distance of the boundaries, over all of their points |
| GeoDistance.CloseMeansNearPoints | apps/server/src/geo.ts:428 | boundaries are close exactly when two of their points are within the tolerance |
| Geo.LeastDecides | apps/server/src/geo.ts:428 | comparing it with the tolerance decides whether the boundaries are close |
| GeoAdjacency.DeriveGeoAdjacency | apps/server/src/geo.ts:407-435 | throws exactly when some zone at a polygon's position has no polygon; otherwise there is a list per polygon and, with distinct ids, they hold exactly the pairs passing the coded test, in both directions |
| GeoAdjacency.CollectPolygons | apps/server/src/geo.ts:412-419 | the projected polygons of the usable zones, in order |
| GeoAdjacency.TestPair | apps/server/src/geo.ts:425-428 | linked exactly when one contains the other's first vertex or their boundaries are close |
| GeoAdjacency.AdjacentIsSymmetric | apps/server/src/geo.ts:425-428 | adjacency of two zones does not depend on their order |
| GeoAdjacency.ListsAreAdjacency | apps/server/src/geo.ts:403-435 | when usable zones come first with distinct ids, the lists are exactly the adjacency relation, symmetric and irreflexive |
| GeoAdjacency.AdjacencyIsDerivedIff | apps/server/src/geo.ts:403-435 | for validated zones with distinct ids: the derivation returns their adjacency relation if and only if it does not throw, if and only if fewer than two have a polygon or those that do come first |
| GeoAdjacency.UnusableInFrontThrows | apps/server/src/geo.ts:421-429 | one zone without polygon in front of two with polygons makes the derivation throw |
| GeoAdjacency.WrongZoneIsTested | apps/server/src/geo.ts:421-429 | a first zone of one vertex inside the second makes the second and third neighbours, eight degrees apart |
| GeoAdjacency.SeparatedAreNotClose | apps/server/src/geo.ts:428 | boundaries separated by more than the tolerance are not close |
| JsonScanner.CollectCandidates | apps/server/src/proposal-llm-reviewer.ts:117-138 | the character loop collects the specified slices |
| JsonScanner.LastJsonObject | apps/server/src/proposal-llm-reviewer.ts:139-147 | the newest candidate that parses, none exactly when none parses |
| JsonScanner.CandidatesAreBalancedAndOrdered | apps/server/src/proposal-llm-reviewer.ts:110-138 | candidates are disjoint, ordered, string-aware balanced slices found at the top level |
| JsonScanner.FoundIffCandidate | apps/server/src/proposal-llm-reviewer.ts:110-138 | a slice is collected if and only if it is a string-aware balanced slice found at the top level |
| JsonScanner.NestedValueIsInert | apps/server/src/proposal-llm-reviewer.ts:122-138 | inside an object any JSON value, strings with braces and escapes included, leaves depth and candidates alone |
| JsonScanner.LastCandidateIsTheObject | apps/server/src/proposal-llm-reviewer.ts:109-115 | the last candidate is exactly a given JSON object if and only if the text before it leaves the scanner at the top level |
| JsonScanner.AnswerIsTheObject | apps/server/src/proposal-llm-reviewer.ts:109-147 | a JSON object that the parser accepts, with text before it that leaves the scanner at the top level and no braces or quotes behind it, is what the caller gets |

## Left out

- Notifications, titles, logging, stream publishing and audit rows written by the protocol code: effects with no feedback into the state modelled.
- Access gates, privacy projections, serializers, quotas, quests, the command line and the HTTP layer: easy members.
- SQLite: tables are sequences and maps in the order the queries give; `latestBefore` and the 5000-row window limit of the replay are inputs already applied.
- Reading JSON, ISO dates and payload shapes: values arrive parsed, with `None` for what the code treats as absent or unreadable.
- Floating point, `cos` and `hypot`: reals, a positive constant for the map centre, and squared distances.
- Strings are sequences of Dafny characters compared element by element; UTF-16 code units and case folding are not modelled.
- Interleaving at `await` points outside the trigger executor: every sweep and bridge event is one atomic step. The executor's class is atomic too; TriggerInterleaving is a state machine over its steps, in which the resets of one event may run in any order.
- Other writers of agreement rows during bridge events; in the executor and the watchdog rows change only as their events say.
- The invocation core and the quota verdict behind a trigger or reset: arbitrary answers, one per call.
- Origin, unit and timestamps of usage rows; terms other than the cross-zone flag of an ephemeral agreement.
- Timer overflow, a zero simulation rate and a throwing hook in the driver loop; the wall clock only moves forward.
- Metering-only parts of the evaluation report (accuracy, responders, semantic hits, unmetered successes, effect checks): counters read off one body. The two per-event indexes of groups are one function here.
- Command events, the simulation timeline, flows and the final sort of the replay: their events carry no state that later rows depend on.
- Summaries, labels, redaction verdicts and the text of the actor filter in the activity feed: visibility and the filter are arbitrary inputs; ISO and SQL time formats are one ordered type.
- Ring validation beyond area and self-crossings, bounding boxes, centroids and map events.
- Compiling and validating computation specs: only valid specs are evaluated.
- Classifying requests by URL in the limiter, and its refusal headers.
- FeedSession.PlainSessionEnumeratesIff: stated for logs without audit rows and reading without filtering anything out; FeedSession.SessionEnumeratesIff covers every log and filter.
- LazyDriver.FrameAgeBoundOverRuns: like LazyDriver.FrameAgeBound, stated for undisturbed passes (constant rate, no early wake or pause, timers and evaluation late by at most a slack together); a manual step or a slow evaluation can exceed it.
- Failover.AgreementStore.SweepProviderFailover: visits rows in ledger order, while the query orders by environment and id; Failover.VisitingOrderIsIrrelevant shows that only the order of the successors depends on it.
- Failover.AgreementStore.Consider: keys its cache by pairs, while the source joins the two ids without a separator; Failover.ProbeKeysCollideIff says exactly when those keys collide, and the model does not follow the wrong heartbeat that would result.
- AcBridge.EveryReachableState: a run is one attachment that starts with an empty ledger; a restart keeps the rows and forgets the proposals, for which AcBridge.RestartsKeepTheAccounts and AcBridge.RestartForgets say what remains.
- TriggerInterleaving.InactiveExecutesIffWithdrawn: a step may also come between an event's arrival and its first reset or invocation, where the source does not yet give way; the run of TriggerInterleaving.SecondCandidateIsWithdrawn does not use that.
- FeedAudit.PageIsExactIff: assumes the log's times never grow from newer to older rows and agreement ids to be distinct, as the stores write them; a clock set back between two rows is not covered.
