# A verified model of the SMSPool SDK and its durable recovery example

The project models five parts of the SDK and its Axum/PostgreSQL example in Dafny and proves what they
keep over whole runs.

- **Durable order store** (`OrderTables`, `OrderStore`, `StoreRuns`, `ClaimSelection`, `StoreLaws`, `Provenance`,
  `IntentLedger`, `LeaseTiming`, `BatchBound`). The two tables, every SQL transaction as one atomic step, workers that
  hold claims, lost acknowledgements, arbitrary clock readings and equal owner names. `OrderStore`
  holds the classes that update the tables in place; each of their methods is tied to the transaction
  on values whose runs the laws speak about. Runs are assumed to record at most 2^63 - 1 claims and
  writes, because the version counter saturates there (`StoreLaws.SaturationBreaksFencing`).
- **Transport** (`Admission`, `AdmissionLaws`, `Transport`, `InFlight`, `Delays`). Admission is a timed
  machine whose atomic sections interleave freely: read the slot, sleep, take a permit, re-check under
  the lock, commit or drop. One call is a retry loop over a script of timed attempts; the script also
  says whether a request truly reached the provider. Time is counted in nanoseconds.
- **Polling and cancellation** (`Polling`, `PollingLaws`, `Snapshots`, `Watcher`, `Cancellation`, `CancelLaws`,
  `CancelPacing`). The waiting loop, the active-order watcher and the cancellation workflow against
  any provider. The environment decides every reply, every duration, how late a select is resumed, and
  every jitter draw within the stated ratio.
- **The example's worker** (`RecoveryWorker`, `WorkerLaws`). One recovery cycle over the store.
- **JSON shape inference** (`Json`, `ShapeInference`, `ShapeLaws`). JSON as a datatype; the inner parser
  is any partial function whose result weighs less than the text it came from.

A workflow is specified by a function of its inputs where its loop has to be reasoned about as a whole:
`Transport.ExecuteFrom`, `Cancellation.CancelFrom`, `ShapeInference.Infer`. The method with the loop is
proved equal to it and the laws are proved about it. Other loops (`Polling.WaitForSms`,
`Transport.ReadBounded`, the watcher) state their properties directly; that the contracts of the two
polling loops leave no choice is proved beside them.

## Where the code departs from what it says

- `max_in_flight_duration` counts one request timeout per attempt although headers and body each get
  one, and ignores that jitter is applied after the delay cap. `InFlight.BoundIffWorstCase` gives the
  exact worst case, `InFlight.DefaultsExceedAdvertised` a run with the default limits that is too long.
- The example sizes its lease for one call but handles up to 16 rows after a snapshot call.
  `BatchBound.BatchBoundIsExact` shows that `k` rows need `k + 1` calls, and
  `WorkerLaws.ExampleLeaseIsTooShort` that the example's own sizing is too short even for one row.
- `mark_reconcile_only` leaves the version alone, so a claim taken before it writes `polling` back
  (`Provenance.MarkSurvivesRetryIff`, `StoreLaws.MarkingDoesNotSurviveRetry`), against
  `docs/production-research.md:207`. `record_pending` always writes `polling`.
- The documentation of `cancel_with_reconciliation` names a time-lock match as the only reason for a
  later request (`src/poll.rs:467-468`); a 429 is another (`CancelPacing.OnlyTimeLocksPermitIff`).
- The wait guard at `src/poll.rs:530` compares the run's total count with the phase's own budget, so
  the reconciliations are evenly paced only in the cases of `CancelPacing.EvenlyPacedIff`. A stop in one
  of these waits drops the unknown outcome; `CancelPacing.UnknownKeptIff` says when no run can.
- `tests/workflow.rs:588-589` says that the pause before another cancel request is floored at the base
  interval. `Polling.FlooredAtBaseIff` says exactly when.
- The interval between starts is rounded to whole nanoseconds. `AdmissionLaws.RateKeptIff` says exactly
  when a rate per second is kept; at three a second it is not (`AdmissionLaws.FourStartsInOneSecond`).

## Model

| member | source | states |
|---|---|---|
| StoreRuns.StepKeeps | examples/postgres_order_store.rs:256-693 | every transaction, by any worker and at any clock reading, keeps the protocol invariant: unique indexes, no owner on a terminal row, counters that match the history, held claims never ahead of their row, spent claims dead, superseded claims behind |
| StoreLaws.Fencing | examples/postgres_order_store.rs:482-556 | in every run at most one of two claims of a row can still be written back, each claim is written back at most once, and a written claim is no longer live; owner names and clocks play no part |
| ClaimSelection.VersionMovesIffChosen | examples/postgres_order_store.rs:489-543 | over every reachable state a claim step moves a row's version if and only if its state is polling or reconcile-only, its next poll time has come, its lease is absent or over, nobody has it locked, and fewer than `limit` smaller ids are so; told on the columns |
| ClaimSelection.PauseIsKept | examples/postgres_order_store.rs:558-616 | in every run a row released by a pending, retry or reconcile-only write until some moment stays unowned, at its version and due at that moment, whatever other workers do, while no claim reads a clock at or past it |
| StoreLaws.NewOrderRow | examples/postgres_order_store.rs:342-412 | both ways of storing an unknown order add exactly one row: polling, due at once, unleased, with the deadline passed in |
| StoreLaws.SupersededIsStaleForever | examples/postgres_order_store.rs:662-693 | once a row was claimed again, every later write through the older claim is refused as stale (or by its own state guard) and leaves the tables unchanged, whatever happens in between |
| StoreLaws.ReclaimSupersedesIff | examples/postgres_order_store.rs:482-556 | from any state, claiming a row again leaves an older live claim live if and only if the version counter is saturated and the owner name is the same |
| StoreLaws.SaturationBreaksFencing | examples/postgres_order_store.rs:525-545 | witness: with a saturated counter, which no run within the assumed length reaches, two claims of one row are live together |
| StoreLaws.CountingLaws | examples/postgres_order_store.rs:525-551 | a row's version is its claims plus its successful writes, its poll attempts are the successful pending and retry releases, so version <= 2 * claims and attempts <= claims |
| StoreLaws.LiveWritesSucceed | examples/postgres_order_store.rs:662-693 | a write succeeds if and only if the claim is live and its state guard passes; the attempt counter never overflows first |
| StoreLaws.TerminalIsAbsorbing | examples/postgres_order_store.rs:495-500 | a received, terminated, expired or failed row keeps its state and version and never gets an owner again, over any continuation by any workers |
| Provenance.TerminalIffReleased | examples/postgres_order_store.rs:558-693 | over every interleaved run a row is received, terminated, expired or failed if and only if some step was a successful release of one of its claims by exactly the write that means this state |
| StoreLaws.ReleaseKeepsReconcileOnly | examples/postgres_order_store.rs:584-598 | releasing a live claim of a reconcile-only row keeps the mark if and only if the claim does not remember polling; a pending release never keeps it |
| Provenance.MarkSurvivesRetryIff | examples/postgres_order_store.rs:461-598 | over every run, releasing a live claim for a retry keeps the row's reconcile-only mark if and only if the row was marked already when that claim was handed out |
| StoreLaws.MarkingDoesNotSurviveRetry | examples/postgres_order_store.rs:461-475 | witness: purchase, claim, mark, retry release leaves the row polling |
| IntentLedger.ResolvedIffOneOrder | examples/postgres_order_store.rs:371-458 | in every run without the legacy resolution of an intent, it is resolved if and only if exactly one order is bound to it; in any run at most one order is bound |
| IntentLedger.UnboundResolutionIsLegacy | examples/postgres_order_store.rs:280-299 | a resolved intent without an order was resolved by the legacy call |
| IntentLedger.BindingsArePermanent | examples/postgres_order_store.rs:256-319 | over any continuation bindings never change, no order or intent disappears, and intent states only climb pending, reconcile-only, resolved |
| IntentLedger.BindIsIdempotentAndExclusive | examples/postgres_order_store.rs:371-458 | repeating a bind succeeds and changes nothing whatever deadline it carries; another order for the intent, or another intent for the order, is refused |
| IntentLedger.LegacyResolvesWithoutOrder | examples/postgres_order_store.rs:280-299 | witness: the legacy call resolves an intent that has no order |
| LeaseTiming.AcceptLease | examples/postgres_order_store.rs:215-241 | an accepted lease is positive, fits, and in nanoseconds exceeds the minimum strictly; a lease not above the minimum is always refused |
| LeaseTiming.AcceptedIff | examples/postgres_order_store.rs:224-235 | exactly the leases that fit and reach the next whole millisecond above the minimum are accepted; others that fit are refused with both numbers |
| LeaseTiming.PromptWriteIsNeverStale | examples/postgres_order_store.rs:215-241 | in every run, a worker of an accepted store that claims, makes one call no longer than the minimum lease and writes is never told StaleClaim, whatever others do whose claims read the clock no later than the write; only the state guard can refuse it |
| LeaseTiming.AcceptedLeaseOutlivesCall | examples/postgres_order_store.rs:215-241 | a call no longer than the accepted minimum that starts at the claim ends before the lease does, in millisecond readings too |
| LeaseTiming.LeaseIsExclusive | examples/postgres_order_store.rs:490-537 | after a claim, through any steps of others whose claims read the clock no later than the expiry, the claim stays live and the row keeps its lease |
| BatchBound.BatchBoundIsExact | examples/axum.rs:112-182 | over all schedules of all workers on one clock, no row of a batch of k claims handled one after another behind a snapshot call is ever refused as stale if and only if the lease covers k + 1 calls |
| BatchBound.ExampleSizing | examples/axum.rs:51-54 | a lease of two calls, at least a minute, is safe for a batch if and only if it holds one row or k + 1 calls fit into that minute |
| OrderStore.OrderStore.FromPool | examples/postgres_order_store.rs:215-241 | a store exists exactly for an accepted lease, and its lease exceeds the minimum |
| OrderStore.OrderStore.ClaimDueAt | examples/postgres_order_store.rs:482-556 | every row that is open, due by its own next poll time, out of lease and unlocked, with fewer than `limit` such rows before it, is leased and moved one version on, every other row stays as it was, and one fresh, distinct claim per leased row is handed out in id order with the version just written |
| OrderStore.OrderStore.UpdateClaim | examples/postgres_order_store.rs:662-693 | a live claim's row takes the new state, loses its lease and moves to the next version, and the claim follows; a stale or overflowing write changes neither tables nor claim |
| OrderStore.OrderStore.RecordPending | examples/postgres_order_store.rs:558-565 | the pending write of the model applied in place |
| OrderStore.OrderStore.RecordTerminal | examples/postgres_order_store.rs:567-576 | only received and terminated are accepted; otherwise nothing changes |
| OrderStore.OrderStore.RecordExpired | examples/postgres_order_store.rs:578-582 | the expiry write of the model applied in place |
| OrderStore.OrderStore.ReleaseForRetry | examples/postgres_order_store.rs:584-598 | writes the claim's remembered state back, refused for a terminal one |
| OrderStore.OrderStore.ReleaseOrFail | examples/postgres_order_store.rs:600-607 | the failing write of the model applied in place |
| OrderStore.OrderStore.RecordReconcileOnly | examples/postgres_order_store.rs:609-616 | the reconcile-only write of the model applied in place |
| OrderStore.OrderStore.MarkReconcileOnly | examples/postgres_order_store.rs:461-475 | changes the state alone, of a claimable row alone |
| OrderStore.OrderStore.RecordPurchase | examples/postgres_order_store.rs:342-366 | inserts a fresh row unless the reference exists |
| OrderStore.OrderStore.RecordPurchaseForIntent | examples/postgres_order_store.rs:371-458 | inserts or finds the order, binds it and resolves the intent, or leaves the tables as they were |
| OrderStore.OrderStore.RecordPurchaseIntent | examples/postgres_order_store.rs:256-278 | a blank correlation is refused, a known one changes nothing |
| OrderStore.OrderStore.MarkPurchaseIntentReconcileOnly | examples/postgres_order_store.rs:301-319 | only a pending intent is marked |
| OrderStore.OrderStore.ResolvePurchaseIntent | examples/postgres_order_store.rs:280-299 | an unresolved intent is resolved without looking at any order |
| RecoveryWorker.HandleClaim | examples/axum.rs:141-175 | one claim is written back as deadline, snapshot and check decide, with the store's own success and failure effects |
| RecoveryWorker.Cycle | examples/axum.rs:112-182 | a cycle of one worker leaves exactly the tables of claiming a batch and settling its claims in order up to a shutdown |
| WorkerLaws.UndisturbedCycle | examples/axum.rs:112-182 | undisturbed, every handled row is released two versions on in the state its observations call for, rows cut off by a shutdown stay leased, and nothing else changes; no write is ever stale |
| WorkerLaws.TerminalOnlyFromCheck | examples/axum.rs:126-165 | for every row, snapshot and cycle: afterwards a row is received (terminated) if and only if it was, or was among the first 16 claimable rows and handled within its deadline, its own check said so, and the snapshot failed or lists no such order without a full code and with no code but "0"; expired if and only if it was, or was handled at its deadline; failed if and only if it was |
| WorkerLaws.UnknownArmIsDead | examples/axum.rs:169-171 | the reconcile-only arm is never taken, because a read-only call never ends in an unknown outcome |
| WorkerLaws.CycleKeepsMarkIff | examples/axum.rs:141-175 | for every row and cycle: afterwards a row is reconcile-only if and only if it was and nobody handled it, or it was handled and its own check failed with the mark present or the outcome unknown, or its full attempt counter made the pending write fail |
| WorkerLaws.OpenOrdersWait | examples/axum.rs:145-172 | a row that a cycle handles and leaves open is unleased and due five seconds after the reading of its handling |
| WorkerLaws.ExampleLeaseIsTooShort | examples/axum.rs:46-63 | the store accepts the 360-second lease of the example's client, one call can last 180.36 seconds without queueing, and so no batch size is safe |
| AdmissionLaws.StepKeeps | src/transport.rs:181-274 | every atomic section of every task, and every tick that respects the timers, keeps spacing, permit, timing and loop invariants |
| AdmissionLaws.StartsAreSpaced | src/transport.rs:205-273 | over all interleavings two committed starts are at least one interval apart |
| AdmissionLaws.WindowBound | src/transport.rs:205-273 | any window of length w holds at most 1 + w / interval committed starts |
| AdmissionLaws.StartsCanBeTight | src/transport.rs:205-273 | the spacing is attained: for every n some run commits n starts exactly one interval apart |
| AdmissionLaws.RateKeptIff | src/client.rs:444-452 | over all runs and all windows, no second holds more than n starts if and only if n intervals fill the second, that is unless rounding the interval to nanoseconds rounded it down |
| AdmissionLaws.FourStartsInOneSecond | src/client.rs:444-452 | at three requests a second the rate is not kept: a run starts four requests within one second, and never five |
| AdmissionLaws.PermitsConserved | src/transport.rs:181-274 | free and held permits always add up to the maximum, and no task that reads, sleeps or queues holds one |
| AdmissionLaws.RestartsBounded | src/transport.rs:208-273 | a task restarts its admission loop at most 2 + qps_wait / interval times |
| AdmissionLaws.AdmissionDelayBounded | src/transport.rs:208-273 | a task still waiting has waited at most both timeouts together, however often it restarted |
| AdmissionLaws.AdmissionEndsInTime | src/transport.rs:208-273 | the step that ends the wait, with a permit or without, comes within both timeouts of the call |
| AdmissionLaws.LongestIsAttained | src/transport.rs:181-274 | the bound is attained: for every configuration some run admits a call exactly both timeouts after it was made |
| AdmissionLaws.CommitMayComeLast | src/transport.rs:244-272 | a task with a permit may wait for the lock up to the slot deadline: for every configuration some run commits exactly then |
| AdmissionLaws.DueTaskCanMove | src/transport.rs:208-273 | time is never blocked: a task at the end of its wait has a step to take |
| AdmissionLaws.FailureNamesItsWait | src/transport.rs:185-265 | over every run a failed admission names the permit wait if and only if the task was queueing for a permit, and each kind fails only after its own timeout has passed since the call |
| Transport.ReadBounded | src/transport.rs:562-577 | reads the whole body if and only if every chunk arrives and all together fit; reports a broken stream if and only if the break comes before the limit is passed |
| Transport.Execute | src/transport.rs:115-154 | an invalid request makes no attempt; otherwise the loop does what the specified run from attempt 1 does, in result, time and deliveries |
| Transport.MutationDelivery | src/transport.rs:276-418 | a mutation is handed over at most once; an error other than API, rate limit or unknown outcome means nothing was delivered, those three mean it was handed over, success that it was delivered |
| Transport.ReadOnlyDelivery | src/transport.rs:133-154 | a read-only call makes at most max_attempts attempts, hands over at most one request in each, and never reports an unknown outcome |
| Transport.RetriesAreExhaustive | src/transport.rs:133-154 | every attempt but the last failed retryably, and a retryable error is returned only when the attempts are used up |
| Transport.UnknownIffUnsettled | src/transport.rs:276-418 | a mutation's outcome is unknown if and only if it was handed over, was not refused a connection, and got no answer that settles it |
| Transport.RetriedIff | src/transport.rs:276-418 | a read-only attempt is retryable if and only if its reply is missing or faulty, a rate limit, or, while attempts remain, a readable 500, 502, 503 or 504 |
| Transport.TimeoutsNameTheirWait | src/transport.rs:181-418 | each timeout error names exactly the wait that ran out, and a mutation reports none from after the hand-over |
| Transport.SuccessIsGenuine | src/transport.rs:276-418 | an attempt succeeds if and only if it got a 2xx answer within the limit that parsed, was no failure envelope and decoded |
| Transport.UnknownNamesItsStage | src/transport.rs:276-418 | an unknown outcome names how far the request got (sending, headers, body, parsing, decoding) and the status exactly if an answer had begun |
| Transport.FailureNamesItsCause | src/transport.rs:276-418 | each other failure is tied to its one cause: request, semaphore, connection, fault while sending, broken or oversize body |
| Transport.FailedIffBodySaysSo | src/transport.rs:658-665 | a readable 2xx answer that parsed is an API error if and only if it is an object whose own success field is false, the integer 0 or the text "0" |
| Transport.ApiErrorTells | src/transport.rs:667-683 | an API error carries the status and, from the first of three keys that holds a text, the machine type and the message; a retryable gateway answer carries the status alone |
| Transport.RateLimitTells | src/transport.rs:311-324 | a rate limit is reported if and only if the answer was a 429, with the server's wait cut down to the maximum, and a retry waits exactly that long or the drawn backoff |
| Transport.BackoffDoubles | src/transport.rs:723-729 | the backoff before jitter starts at the base delay, doubles up to attempt 32 and stops at the maximum |
| Transport.ReportedPauseIsClamped | src/transport.rs:710-721 | a reported rate limit never asks for more than the configured maximum |
| InFlight.BoundIffWorstCase | src/client.rs:164-181 | a duration bounds every read-only run of a client if and only if it reaches the worst case computed from its limits |
| InFlight.WithinWorstCase | src/transport.rs:133-152 | every run from attempt n on ends within that worst case |
| InFlight.WorstCaseAttained | src/transport.rs:276-386 | a concrete script of attempts, with any admission wait, lasts exactly as long as computed |
| InFlight.BoundByAttempts | src/transport.rs:133-152 | a run of a attempts ends within a times (both admission waits and two request timeouts) plus a - 1 times the larger of max_retry_after and the jittered max_delay |
| InFlight.WithinTwiceAdvertised | src/client.rs:164-181 | below saturation every run ends within twice the advertised duration |
| InFlight.PromptRunsAreWithinAdvertised | src/client.rs:164-181 | the advertised duration holds for runs whose headers and body share one request timeout, if jitter cannot lift max_delay over both maxima |
| InFlight.MutationWithin | src/transport.rs:115-154 | a mutation ends within one admission and two request timeouts |
| InFlight.DefaultsExceedAdvertised | src/client.rs:110-181 | with the default limits a client advertises 180 seconds, its worst case is 180.36 plus three admission waits, and a run that never waits lasts 180.36, however admission is set up |
| InFlight.DefaultAndExampleWorstCase | src/client.rs:248-262 | the worst case of a client without settings is 195.36 seconds, of the Axum example's client 210.36 |
| Polling.IntervalDoubles | src/poll.rs:1099-1101 | after n scheduled polls the interval is min(base * 2^n, max) |
| Polling.DelayBounds | src/poll.rs:1103-1117 | a delay is never below Retry-After nor below the jittered interval, never above the maximum without Retry-After, and exactly the draw within these limits |
| Polling.WaitForSms | src/poll.rs:743-783 | the loop makes the run of its contract, which fixes every start, answer and end: checks start only before the stop, each exactly a full delay after the previous reply; it ends at the first received or terminated snapshot or foreign error, or at the first look that finds a stop, with the reason at that moment and exactly the latest pending snapshot |
| PollingLaws.RunIsUnique | src/poll.rs:743-783 | that contract leaves no choice: two runs on the same rounds are the same run |
| PollingLaws.StopReasonIsTrue | src/poll.rs:811-837 | a run that stops says cancelled if and only if the token had fired by then, whatever the deadline, and otherwise the deadline had come; a check in flight or a pause is cut short by it |
| PollingLaws.LatestPendingIsLatest | src/poll.rs:767-773 | the snapshot carried by a stop is the pending one of the last reply that brought one, and none if no reply did |
| PollingLaws.NoCheckStartsEarlier | src/poll.rs:743-783 | check i never starts before the sum of the least delays, nor before Retry-After has passed |
| PollingLaws.CanStartIff | src/poll.rs:743-783 | for some provider and draws the loop starts check k if and only if the sum of the first k least delays ends before the stop |
| PollingLaws.WaitEagerly | src/poll.rs:743-783 | the loop itself, on the provider that answers at once with the least draws, starts k + 1 checks if and only if that sum ends before the stop |
| PollingLaws.CheckCountBound | src/poll.rs:743-783 | at most 1 + (stop - began) / ((1 - jitter) * base) checks start |
| PollingLaws.FullJitterIsUnbounded | src/poll.rs:1118-1126 | with full jitter any number of checks can be started by the loop before the stop |
| Polling.FlooredAtBaseIff | src/poll.rs:596-612 | the pause before another cancel request is at least the base interval for every draw if and only if the server asked for that much or the jitter takes off at most half a nanosecond |
| Polling.DefaultPauseIsBelowBase | src/poll.rs:596-612 | witness: the defaults allow a pause of 1.6 of the 2 seconds |
| Snapshots.LastDuplicateWins | src/poll.rs:1023-1033 | of several orders with one id the last in the list is taken |
| Snapshots.ChangesExact | src/poll.rs:1036-1045 | an order is reported if and only if it is in the snapshot and new or changed |
| Snapshots.ChangesAscend | src/poll.rs:1036-1045 | reports come once each in ascending id order and never outnumber the snapshot |
| Snapshots.ConsumerIsUpToDate | src/poll.rs:976-1046 | over any history a consumer of all events knows the current face of every active order, including orders that vanished and came back |
| Watcher.ActiveOrdersWatcher.RecordSnapshot | src/poll.rs:1023-1046 | an oversize snapshot changes nothing; any other extends the history by the list with duplicates removed and queues exactly its changes |
| Watcher.ActiveOrdersWatcher.ScheduleNext | src/poll.rs:1048-1053 | the next poll waits the drawn delay, capped at the deadline, and the interval advances |
| Watcher.ActiveOrdersWatcher.Next | src/poll.rs:981-1021 | events handed out and queued are together all changes of the accepted snapshots in order, the fingerprints are the latest one, both stay within the limit; a stop outranks a queued event and carries the order shown last; otherwise the call polls at exactly the scheduled moments until the first look that finds a stop, the first refused reply, or the first snapshot with a change |
| Watcher.CallHasOneRun | src/poll.rs:981-1021 | that contract leaves no choice: two runs of one call make the same polls and end at the same moment for the same reason |
| Watcher.PollsArePaced | src/poll.rs:1048-1086 | no poll starts after a stop, before its due time, or sooner after the previous one than Retry-After and the jittered interval ask |
| Watcher.ActiveOrdersWatcher.TakeReply | src/poll.rs:1006-1020 | a reply either refuses the call without touching queue or schedule, or schedules the next poll and hands out the first change if there is one |
| Cancellation.CancelWithReconciliation | src/poll.rs:469-584 | zero budgets are refused before anything is sent; otherwise the loop produces the specified result and trace of requests, reconciliations and pauses |
| Cancellation.ReconcileUnknown | src/poll.rs:518-537 | the loop after an unknown outcome produces the specified result and trace |
| CancelLaws.EveryRunIsLegal | src/poll.rs:509-584 | for every provider each later cancel request comes right after a rate limit or an API error with exactly the status and the machine type or message of the configured rule, a reconciliation whose replies settle nothing, and a pause no shorter than the rule, the rate limit or else the base interval says, nor than the jittered base interval |
| CancelLaws.OtherReplyEndsRun | src/poll.rs:513-517 | success and every rejection that is neither that time lock nor a rate limit end the run with a result after one reconciliation |
| CancelLaws.NothingFollowsASettledCancel | src/poll.rs:509-584 | so no request follows a success, an unknown outcome, any other rejection or replies that settle the order, however far back |
| CancelLaws.EveryRunIsTruthful | src/poll.rs:509-583 | cancel requests stay within their maximum and reconciliations within requests - 1 + the unknown-outcome budget; a result's counters count its trace, its observations and balance change are what the provider's last replies say, and its disposition is the one those replies call for (terminal: the last check was received, or terminated with the order off the list; not found: a 404; still active: pending or listed); only stops end a run otherwise |
| CancelLaws.CountersAreExact | src/poll.rs:488-583 | a finished run counts exactly the cancel requests and reconciliations it made |
| CancelLaws.ConcludedIsSound | src/poll.rs:688-729 | the three disposition functions together, through the observations, give the verdict that the provider's replies call for |
| CancelPacing.PacingLaw | src/poll.rs:518-537 | with m checks budgeted and k made before, an undisturbed phase makes exactly m reconciliations and max(0, m - 1 - k) pauses, each at least the base interval |
| CancelPacing.UnknownPhaseEnds | src/poll.rs:518-537 | the phase goes on after every check that leaves the order open and falls short of its budget only by a stop or by a check that was received, terminated or a 404 |
| CancelPacing.EvenlyPacedIff | src/poll.rs:528-534 | these reconciliations are separated by pauses if and only if m = 1 or k = 0 |
| CancelPacing.UnknownKeptIff | src/poll.rs:518-537 | no run of the workflow, whatever the provider, timing or stop, ends in an error after an unknown outcome if and only if one reconciliation is budgeted for it or the stop comes before anything |
| CancelPacing.OnlyTimeLocksPermitIff | src/poll.rs:467-468 | time-lock matches alone lead to later requests for every provider if and only if there can be no later request at all |
| ShapeInference.InferShape | scripts/postman_contract.py:145-189 | the loops compute the specified shape, and the recursion terminates by a weight that drops even when a text is decoded and analysed again |
| ShapeInference.GroupByKind | scripts/postman_contract.py:147-149 | the groups are the kinds that occur, each with its samples in order |
| ShapeInference.InferObject | scripts/postman_contract.py:157-168 | computes the specified object shape key by key |
| ShapeInference.StripKeepsCore | scripts/postman_contract.py:178-179 | stripping removes white space at both ends and nothing else |
| ShapeLaws.DecodesIffDocument | scripts/postman_contract.py:177-185 | a text decodes if and only if what lies between its surrounding white space starts an array or object and parses, and to what that means |
| ShapeInference.DecodedShrinks | scripts/postman_contract.py:175-188 | decoded texts weigh less than the texts |
| ShapeLaws.Sound | scripts/postman_contract.py:129-193 | every sample conforms to the inferred shape: kinds by JSON constructor with booleans apart from integers, required fields, items, and the one document that a text holds between white space |
| ShapeLaws.Least | scripts/postman_contract.py:145-189 | the inferred shape is the least one: whatever conforms to it conforms to every well-formed shape that admits all samples |
| ShapeLaws.Monotone | scripts/postman_contract.py:145-189 | adding samples never shrinks the set of conforming values |
| ShapeLaws.DependsOnSet | scripts/postman_contract.py:145-189 | the shape depends on the set of samples alone, not on order or repetition |
| ShapeLaws.InferredIsCanonical | scripts/postman_contract.py:152-155 | at every depth inferred unions have at least two variants, none of them a union, of distinct kinds in the order of their names |

## Left out

- Fingerprints, encryption and decryption failures: fingerprints are injective ids, an order id always decrypts.
- PostgreSQL's isolation below a transaction: each transaction is atomic, `SKIP LOCKED` skips any set of locked rows, and gaps in the id sequence are not modelled.
- Status queries, the migration, and the test-only table dump: reads without an invariant of their own.
- BatchBound.BatchBoundIsExact: the worker's pauses between claims and the database round trips are part of the duration of a call.
- Admission: tasks and permits are values of one interleaved machine rather than objects behind a lock, and timers fire exactly when due; fairness among waiting tasks is not modelled.
- InFlight.BoundIffWorstCase: quantifies over attempts whose admission wait is anything up to the two timeouts. `AdmissionLaws.LongestIsAttained` shows that this much can happen to one call when the lock and the permit come as late as their timeouts allow; which waits a given load causes is not modelled.
- InFlight.WithinTwiceAdvertised: says nothing about a client whose advertised duration saturates at the largest duration.
- Floating point: a jitter ratio is a fraction, a draw any whole number of nanoseconds between the rounded ends of its range; the rounding of a single product is not modelled.
- Clock and instant overflow: additions in the polling deadline are capped by the deadline as in the code, other time values are unbounded.
- HTTP, TLS, URLs, request building and validation, real JSON parsing: a response is a status, headers of interest, chunks, a parse result and whether the target type decodes it.
- The endpoint table: the safety class of a call is an input, and `sms/check` being read-only is taken from it.
- `wait_for_code_with`: a thin wrapper that applies the caller's extractor.
- Watcher.ActiveOrdersWatcher.Next: order codes are integers in their lexical order, and a call that finds nothing within the given polls ends as Running.
- Polling.WaitForSms: a run over finitely many rounds; it ends as Running if they do not end the wait.
- Cancellation.CancelWithReconciliation: the struct that the code fills in place is a value that the loop replaces, and the balance request before the loop is an input with its duration.
- RecoveryWorker.Cycle: one cycle of the worker; the sleep between cycles and the retry after a failed claim are not modelled, and nobody else writes while it runs (the laws about runs cover interference).
- ShapeInference.InferShape: dictionaries are maps from texts, so key order, non-text keys, Python's recursion limit and NaN are not modelled.
- ShapeLaws.Sound: the shape of an array that never had an item admits no item.
- Markdown generation, acceptance scripts, tracing and redaction: no algorithmic content.
