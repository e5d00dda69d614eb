# Linkmoth: a verified model

Linkmoth watches a home connection from a small host: it runs a fault ladder, opens and closes incidents, keeps an
outage ledger that ends up in a figure for the provider, and sends webhooks. This project models the parts of it that
work step by step and proves what they promise, over every input, every history or every interleaving.

| module | what it models |
|---|---|
| OutageWindows, OutageFigure | the downtime figure and its meaning as the measure of a union |
| OutageLedger, LedgerTheorems, LedgerMeaning | outage segments kept per observation, rebuilt in batch, and when the two agree |
| ByteStreams, HeaderReader | the bounded header reader against the plain byte stream |
| LadderCache, LadderAnswers | result cache, single flight and VACUUM exclusion as a two-lock step system |
| IncidentLifecycle, IncidentWatch, RecheckLoop | trigger, resume, recheck loop, manual close and false alarm |
| WebhookRows, WebhookQueue, WebhookService, WebhookOutcomes, WebhookSpacing, WebhookFairness, WebhookTables | the delivery queue with a ledger of every row's fate |
| JsonStrings, TemplateRender | template rendering inside JSON string literals |
| WarningEpisodes | grouping of warnings into episodes, and dismissals |
| DeviceDebounce, DeviceSchedule | device streaks, events, due runs and run slots |
| OutageTracker | outage episodes and the digest of suppressed alerts |
| DailyScore | the per-day connection score |
| Versions | version acceptance and precedence |

How things are modelled. Times are whole ticks (milliseconds in the header reader). A SQLite transaction is one atomic
step on rows held in sequences and maps; where a table's CHECK would refuse the new rows, the step changes nothing, so
the ledger needs no assumption about the clock. What the network, a probe, `select`, a callback or a delivery answers is
a parameter or an arbitrary choice. Each class with state is proved against a specification function, and the theorems are
about that function. Ghost fields (`taken`, `watched`, `ledger`), closers, serials and logs of calls only remember what
the original forgets.

Where the code does something other than one would expect:

- Rebuilding the segments from runs does not always give the stored ones. `RebuildingAgrees` and
  `RebuildingFromAllRuns` give the exact conditions, `SteppedClockDisagrees` and `LateRunDisagrees` a concrete history each.
- An open incident is not always rechecked. `UnwatchedExactly` says when, over every run; `OpenIncidentWithoutLoop` and
  `LoopCanDie` reach two such states.
- Retries of a delivery are not always a full backoff apart, because a drain pass counts the backoff from its own clock
  reading. `SendsAreSpaced` and `FullBackoffExactly` give the exact bound, `SentAgainAtOnce` a history without any pause.
- Beside forced callers a non-forced caller can be handed a result older than the TTL (`LadderAnswers.StaleAnswersExactly`,
  `AnsweredTooOld`).
- Webhook events are not always announced exactly once, because a failure to queue one is swallowed. A confirmed recovery
  also goes without its webhook event if every look-up of the fault ladder fails, although Discord and push have been told
  by then. `ClosedIsAnnouncedOnce`, `ConfirmedIsAnnouncedExactly` and `QueueRepeatsExactly` give the exact conditions,
  `CloseCanBeLost`, `ConfirmedUnannounced`, `RecoveryLost` and `SameFaultQueuedTwice` the histories.
- An alert that comes in during a recovery is not always kept for the next one (`RecoveryClearsWhatItRead`,
  `AlertLostWithItsId`).
- The docstring of the header reader promises an end within `deadline + HEADER_POLL_SECONDS`; with ideal timeouts the
  code ends within the deadline plus the smallest socket timeout, which is what is proved.

## Model

| member | source | states |
|---|---|---|
| OutageWindows.OutageSeconds | linkmoth_core.py:1278-1311 | The figure is the exact number of ticks of the window that at least one segment covers, for any list: overlapping, nested, touching, inverted, duplicated, still open, with or without either window bound |
| OutageFigure.MeasureTells | linkmoth_core.py:1278-1311 | What is counted, column by column: the ticks from a segment's start up to its end, or to the present while it has none, inside the window |
| OutageWindows.Clip | linkmoth_core.py:1291-1299 | The first loop keeps non-empty intervals whose union is exactly the covered part of the window |
| OutageWindows.Sweep | linkmoth_core.py:1300-1311 | One pass over the sorted pairs counts the size of their union |
| OutageWindows.SortPairs | linkmoth_core.py:1302 | Sorting gives Python's order on pairs and the same pairs with the same multiplicities |
| OutageFigure.SortedTells | linkmoth_core.py:1302 | The order of the sorted pairs in columns: by start, and by end where starts are equal |
| OutageFigure.MoreSegmentsNeverReportLess | linkmoth_core.py:1278-1311 | Monotone: a list that holds every segment of another reports at least as much, tick by tick |
| OutageFigure.OrderAndRepetitionIgnored | linkmoth_core.py:1278-1311 | Lists with the same segments report the same, whatever their order and repetitions |
| OutageFigure.AtMostTheWindow | linkmoth_core.py:1278-1311 | Never more than the length of the window, and zero for an inverted one |
| OutageFigure.NeighbouringWindowsAddUp | linkmoth_core.py:1278-1311 | Two adjacent windows report together what the joined window reports |
| OutageFigure.DaysAddUp | linkmoth_probes.py:2465-2488 | Downtime over consecutive windows sums to that of the whole window, for any non-decreasing boundaries |
| OutageFigure.LaterSegmentsInvisible | linkmoth_core.py:1278-1311 | Segments that begin at or after the window's end change nothing |
| OutageFigure.MergingNeverInflates | linkmoth_core.py:1278-1311 | Adding the clipped lengths instead of merging never reports less, and reports the same if and only if no tick of the window lies in two segments |
| OutageLedger.DeriveOutageSegments | linkmoth_core.py:1187-1222 | The loop over stored runs computes the batch form, including the default segment of an incident without runs |
| OutageLedger.Ledger.CloseOpenOutageSegment | linkmoth_core.py:1364-1369 | Ends every open segment at the given time, or leaves all rows alone when the table's CHECK would refuse one of them |
| OutageLedger.Ledger.RecordObservation | linkmoth_core.py:1314-1361 | One diagnosis transaction moves the stored rows exactly one step of the online form; an aborted one changes nothing |
| OutageLedger.Ledger.CloseIncident | linkmoth_engine.py:289-354 | One closing transaction moves the stored rows exactly one closing step; it reports success only to the call that wrote `resolved` |
| LedgerTheorems.AlwaysConsistent | linkmoth_core.py:1314-1369 | In every reachable state, for any clock and any mix of observations and closes, the stored rows are those of a scan over the runs watched while unresolved |
| LedgerTheorems.OnlyTheLastSegmentIsOpen | linkmoth_core.py:1314-1369 | Only the last segment can be open, none is once resolved, none is inverted, an unresolved incident has an open segment iff its last run failed, and its `recovered_at` starts with the healthy block at the end |
| LedgerTheorems.RecoveredAtTells | linkmoth_core.py:1314-1361 | In every reachable unresolved state `recovered_at` is absent iff there is no run or the last one failed, and is t iff some healthy block reaches from a run at t, the first one or one after a failing one, to the last run |
| LedgerTheorems.ObservationTells | linkmoth_core.py:1314-1361 | Column by column what an observation stores: refused only where it would end a segment before its start, an open segment ended, `recovered_at` kept if there is one, one new segment only if none is open |
| LedgerTheorems.CloseTells | linkmoth_engine.py:289-354 | Column by column what a close stores: the open segment ended, `resolved` written once, a stored recovery time left alone, the codes each kind of close writes |
| LedgerTheorems.DerivedWithoutRuns | linkmoth_core.py:1187-1222 | An incident without runs counts as one segment unless it is a false alarm, an all clear or blank; it ends at the recovery time, else at the close, never before its start |
| LedgerTheorems.RebuildingAgrees | linkmoth_core.py:1187-1222 | Incremental equals batch, for every reachable state with a watched run: the rebuilt list equals the stored one if and only if no run that reopened the outage is older than the incident's start |
| LedgerTheorems.RebuildingWithoutRuns | linkmoth_core.py:1187-1222 | Before the first run nothing is stored, and the rebuilt list is empty too if and only if the incident does not yet count from its diagnosis |
| LedgerTheorems.RebuildingFromAllRuns | linkmoth_core.py:1187-1222 | Incremental equals batch over everything stored: rebuilding from all runs, those stored after the close included, gives the stored list if and only if no watched reopening run is older than the start and the late runs are harmless |
| LedgerTheorems.LateRunsExactly | linkmoth_core.py:1187-1222 | Runs stored after the close leave the rebuilt list as it was if and only if they all continue the last verdict, or the first healthy one ends the open outage at the recorded end and no failing one follows |
| LedgerMeaning.DownMeansLatestObservationFailed | linkmoth_core.py:1278-1361 | Under a clock that never steps back, the downtime figure counts exactly the ticks at which the latest observation was failing, up to the close or the present |
| LedgerMeaning.MergingIsRedundant | linkmoth_core.py:1278-1361 | Under such a clock stored segments are in time order without overlap, so the merged figure is the plain sum |
| LedgerMeaning.SteppedClockDisagrees | linkmoth_core.py:1196-1200 | A concrete history in which the clock stepped back across the start and the two forms differ |
| LedgerMeaning.LateRunDisagrees | linkmoth_engine.py:362-387 | A concrete history in which a recheck finished after a manual close and the two forms differ |
| HeaderReader.BoundedHeaderReader.constructor | linkmoth_handler.py:188-207 | A fresh reader has handed out nothing and can still deliver the whole connection |
| HeaderReader.BoundedHeaderReader.Fill | linkmoth_handler.py:244-260 | One guarded `read1`: callable only before the deadline, returns at most one minimum timeout after it, and only moves bytes from the source into the buffer |
| HeaderReader.BoundedHeaderReader.Pull | linkmoth_handler.py:225-260 | One round of wait and read: no byte is lost, no read starts once the deadline has passed, and each round makes progress in bytes or in time |
| HeaderReader.BoundedHeaderReader.ReadBoundedLine | linkmoth_handler.py:209-263 | However the source is chunked, the line is the plain stream's line for that bound; a timeout is raised only past the deadline or on a failed wait or read; the call ends at most one minimum timeout after the deadline |
| HeaderReader.BoundedHeaderReader.ReadHeaderLine | linkmoth_handler.py:274-292 | A header-phase line is the plain stream's line for the caller's own limit, and is refused exactly when it breaks the byte cap or the header-line cap; at most one byte beyond the cap is ever pulled |
| HeaderReader.BoundedHeaderReader.ReadLine | linkmoth_handler.py:274-311 | The same before and after the headers: returned lines are those of the plain stream, in order, each byte once; after the headers it can only fail with the socket |
| HeaderReader.BoundedHeaderReader.PlainReadLine | linkmoth_handler.py:294-311 | After the headers, a line that starts in the buffer and may run on below it is the plain stream's line; only one that runs on can fail, and then the buffered bytes are gone |
| HeaderReader.BoundedHeaderReader.Read | linkmoth_handler.py:313-326 | A body read returns what a plain read would, over-read bytes first; only a read that runs past the buffer can fail, and then the buffered bytes taken for it are gone |
| HeaderReader.BoundedHeaderReader.Read1 | linkmoth_handler.py:328-336 | Returns a prefix of what is left, empty only at its end or for size zero |
| HeaderReader.BoundedHeaderReader.FinishHeaders | linkmoth_handler.py:338-340 | Switching the caps off touches no byte |
| HeaderReader.ReadHeaderBlock | linkmoth_handler.py:209-292 | The whole header block as a parser reads it, up to and including the blank line: unless it is cut off (deadline passed, or a wait or read failed) it is accepted if and only if the plain stream's block is within the byte cap and the 64-line cap, and its lines are then those of the plain stream |
| HeaderReader.ReadRequest | linkmoth_handler.py:171-343 | Header block, then body: refusal is exact as above, and the body is the plain stream's read at the byte right after the headers, whatever the chunks were, unless the read itself fails. Said of the bytes alone: if header lines, a blank line (LF or CRLF) and a body are on the wire, a fresh reader refuses them iff they exceed 32768 bytes or 64 lines after the request line, and otherwise returns exactly those lines and the first bytes of that body |
| HeaderReader.BlockEndsAtBlankLine | linkmoth_handler.py:274-292 | A stream of full lines, a blank one and anything after it is read as exactly those lines, and the rest is left alone, whatever it holds |
| HeaderReader.HeaderLinesCount | linkmoth_handler.py:285-292 | The cap counts every full line but the request line, and never the blank one |
| HeaderReader.CapsOnTheWire | linkmoth_handler.py:274-292 | Such a block is within the caps iff it has at most 32768 bytes with its blank line and at most 64 lines after the request line |
| ByteStreams.LineWithinBudget | linkmoth_handler.py:277-284 | Cutting a line one byte beyond a budget shows either the caller's own line or that it is over budget |
| ByteStreams.LineIsBuffered | linkmoth_handler.py:219-224 | Where the buffer decides the line, cutting it from the buffer gives the plain stream's line |
| LadderCache.StepKeeps | linkmoth_engine.py:82-117 | Every lock step of every interleaving keeps the invariant: lock holders, ladder runner, owner of the in-flight flag, each unique |
| LadderCache.SingleFlight | linkmoth_engine.py:82-117 | In every reachable state of any number of forced, non-forced and VACUUM calls: at most one ladder; `run_in_progress` iff one runs; `_ladder_inflight` iff exactly one non-forced call owns it, also when its ladder raises; no VACUUM beside a ladder |
| LadderCache.SomeCallCanProceed | linkmoth_core.py:1421-1447 | No deadlock between the two locks and no lost wakeup: while a call is unfinished some call can move without any wait timing out |
| LadderCache.StepsAreBounded | linkmoth_engine.py:82-117 | In every interleaving, with time passing and waits timing out, the steps of all calls together are at most a fixed number plus two for every timeout |
| LadderCache.WaitingGoesRound | linkmoth_engine.py:82-117 | The timeouts must be counted: a waiting call can time out, look again and wait again, back in the same state |
| LadderCache.StuckMeansFinished | linkmoth_core.py:1421-1447 | A reachable state in which no call can move without a timeout has finished every call |
| LadderCache.EveryCallCanFinish | linkmoth_engine.py:82-117 | From every reachable state some sequence of plain steps, without a timeout, finishes every call |
| LadderCache.LadderStartsOnlyWhenStale | linkmoth_engine.py:82-117 | With non-forced callers only, in every reachable state a call about to start a ladder finds no stored result or one older than the TTL, to the tick |
| LadderCache.ServedExactlyWhenCurrent | linkmoth_engine.py:85-97 | A call that looks is answered at once with the stored result iff there is one of at most the TTL, and otherwise waits for the ladder in flight or starts one |
| LadderCache.AnswersAreCurrent | linkmoth_engine.py:82-117 | With non-forced callers only, no call is turned away: each ends with a stored result within the TTL at that step, or with what its own ladder gave |
| LadderAnswers.TurnedAwayByForced | linkmoth_engine.py:95-103 | Beside forced callers, a non-forced call is turned away only while a forced call's ladder runs |
| LadderAnswers.StaleAnswersExactly | linkmoth_engine.py:82-117 | Over every run, the answer of a finished non-forced call was older than the TTL when it was decided if and only if the call had found a forced call's ladder running and the last result any ladder had stored by then was older than the TTL |
| LadderAnswers.AnsweredTooOld | linkmoth_engine.py:95-103 | A run that reaches it: two forced calls and a non-forced one that is handed a result eleven ticks old where ten are allowed |
| LadderAnswers.OwnLadderTells | linkmoth_engine.py:98-117 | In every run a call of any kind is answered with an error iff its own ladder raised, and with a fresh result iff its own ladder stored one |
| LadderAnswers.RefusedExactly | linkmoth_engine.py:95-103 | A forced call and a VACUUM are refused iff some call is inside its ladder at that moment |
| IncidentLifecycle.AtMostOneOpenIncident | linkmoth_engine.py:519-575 | Under every in-process interleaving of triggers, resume, recheck loops, manual closes and false-alarm marks, at most one incident is unresolved, at most one loop lives, and the unguarded fallback insert is never reached |
| IncidentLifecycle.ClosedIsAnnouncedOnce | linkmoth_engine.py:289-354 | In every run a close is announced at most once, exactly once when its writer has finished if and only if queueing that writer's event did not fail, and never for an incident that is open or was closed by an earlier process |
| IncidentLifecycle.CloseCanBeLost | linkmoth_engine.py:418-439 | A reachable state with a resolved incident whose closer has finished and whose close was never announced |
| IncidentLifecycle.FalseAlarmTells | linkmoth_engine.py:312-354 | A false-alarm mark is written by the marking call's own transaction and by nothing else, on an open or a resolved incident, and never taken back |
| IncidentLifecycle.TargetsTell | linkmoth_engine.py:289-354 | The dashboard's close, a mark that names no incident and a resume take the one open incident, wherever it stands, and end if there is none; a mark that names one takes that |
| IncidentLifecycle.MarkRuns | linkmoth_engine.py:312-354 | A mark that nothing comes between resolves and marks its incident, announces the mark, and announces the close iff it was what closed it |
| IncidentLifecycle.ResolvedIsWrittenOnce | linkmoth_engine.py:720-733 | Once written, `resolved` and its writer never change in any continuation |
| IncidentLifecycle.TriggerLeavesALoop | linkmoth_engine.py:565-575 | A trigger or resume leaves its incident rechecked if and only if no loop thread was alive or the living one already watches that incident |
| IncidentLifecycle.OpenIncidentWithoutLoop | linkmoth_engine.py:569-574 | Trigger, manual close and a second trigger reach a state whose open incident no loop watches |
| IncidentWatch.UnwatchedExactly | linkmoth_engine.py:519-733 | In every run, an open incident is rechecked if and only if the last trigger or resume to get through to it started its loop or found it alive and that loop has not raised; it is left with nothing on the way exactly when it was found open at process start and nobody got through, its own trigger raised, the last one to get through met a loop of another incident, or its loop raised |
| IncidentWatch.LoopCanDie | linkmoth_engine.py:720-733 | One trigger whose loop fails to write the close reaches a state with an open incident, no loop and nothing on the way |
| RecheckLoop.Loop | linkmoth_engine.py:615-733 | For every sequence of round outcomes: where the loop stops, whether recovery is confirmed, the final code as the latest among the most severe failing verdicts, and the exact sequence of webhook event calls, each queued or lost |
| RecheckLoop.RecheckRounds | linkmoth_engine.py:639-713 | The rounds up to a stop: streak, worst verdict and announcements as functions of the rounds |
| RecheckLoop.Worst | linkmoth_engine.py:681-698 | Latest among the most severe failing verdicts, none if and only if none failed |
| RecheckLoop.WorstTells | linkmoth_engine.py:681-698 | A bad verdict is never displaced by a warning: the diagnosis is the latest bad verdict, the latest warning only if there is no bad one, and none iff all were healthy |
| RecheckLoop.CallsFollowRounds | linkmoth_engine.py:681-710 | From the rounds alone: every failing round is named by a fault call, except one whose record fails as the new worst; the calls come in the order of their rounds, each stems from such a round and is lost iff its own emission fails; the first is a degradation iff its verdict is a warning |
| RecheckLoop.ConfirmedExactly | linkmoth_engine.py:617-681 | A recovery is confirmed iff some healthy round has no failing one after it, and before it another healthy one since the last failing round, or a resumed recovery and no failing round at all |
| RecheckLoop.FaultCallsAlternate | linkmoth_engine.py:699-710 | The first call is an opened (or degraded, exactly for a warning), every further one an update, and neighbouring calls differ in (code, severity), lost ones included |
| RecheckLoop.QueueRepeatsExactly | linkmoth_engine.py:699-710 | Neighbouring events in the queue differ if and only if no stretch of lost calls lies between two queued ones that say the same |
| RecheckLoop.SameFaultQueuedTwice | linkmoth_engine.py:699-710 | Three verdicts of which the second event is lost: the queue sees the same fault twice in a row |
| RecheckLoop.QueueOpensExactly | linkmoth_engine.py:699-710 | What the queue sees of a fault begins with its opening if and only if that first event was not lost |
| RecheckLoop.EveryChangeIsAnnounced | linkmoth_engine.py:699-710 | A change of (code, severity) between two announced verdicts has its own update call, queued unless it is lost |
| RecheckLoop.RecoveryNeedsTwoHealthy | linkmoth_engine.py:617-681 | Recovery stands on two healthy verdicts with no failing one between them, a resumed recovery counting as one |
| RecheckLoop.ConfirmedIsAnnouncedExactly | linkmoth_engine.py:659-733 | The webhook event of a confirmed and finalised recovery reaches the queue if and only if the first round of the final block whose look-up of the fault ladder succeeded also had its emission succeed; otherwise the loop ran into its deadline or the emission of the round it stopped at was lost |
| RecheckLoop.ConfirmedUnannounced | linkmoth_engine.py:659-733 | Two healthy rounds whose look-ups fail: confirmed, finalised, its event never tried |
| RecheckLoop.RecoveryLost | linkmoth_engine.py:418-439 | A look-up that succeeds and an emission that fails: the loop stops before its deadline and the queue never hears of the recovery |
| WebhookTables.QueueTables.EmitEvent | linkmoth_webhooks.py:930-1014 | The emission transaction on the stored rows: cancel, insert, trim; returns the number of subscribed webhooks |
| WebhookTables.QueueTables.CancelHeldRows | linkmoth_webhooks.py:940-967 | Exactly the held rows of the incident leave the table |
| WebhookTables.QueueTables.InsertRows | linkmoth_webhooks.py:969-983 | One row per target, in order, due after the target's own delay |
| WebhookTables.QueueTables.DrainQueueOnce | linkmoth_webhooks.py:1025-1087 | The drain pass over the due snapshot, with its counts of delivered and failed |
| WebhookTables.QueueTables.DrainRow | linkmoth_webhooks.py:1039-1086 | One due row: dropped, expired, delivered, given up or rescheduled |
| WebhookTables.TallyTells | linkmoth_webhooks.py:1039-1086 | A pass counts as delivered what was, as failed what was tried in vain or had expired, and nothing that was dropped with its webhook |
| WebhookTables.QueueTables.DeleteWebhook | linkmoth_webhooks.py:532-540 | Deleting a webhook drops exactly its rows, or changes nothing when it is unknown |
| WebhookService.EveryRowIsAccountedFor | linkmoth_webhooks.py:930-1087 | In every reachable state each emitted row is queued iff its fate is open; at most 10 attempts, none before `created + escalation_seconds`, by passes whose clock readings are at least the backoff (30 s or more) apart; given up only after 10, or 3 with 404/410; expired only more than 24 h after first due; only untouched fault rows are cancelled |
| WebhookSpacing.SendsAreSpaced | linkmoth_webhooks.py:1025-1087 | Two sends of a delivery are at least the backoff apart, less the time the earlier one waited inside its pass |
| WebhookSpacing.EveryHistoryHappens | linkmoth_webhooks.py:1025-1087 | Those bounds are exact: every list of attempts that keeps them is the history of a delivery in some reachable state |
| WebhookSpacing.ForwardSendsAreSpaced | linkmoth_webhooks.py:1025-1087 | While the clock never steps back, two sends are at least what is left of the backoff apart and never in the wrong order, and a wait past the age limit has no next send |
| WebhookSpacing.ShortestForwardGap | linkmoth_webhooks.py:1025-1087 | For every attempt number and every wait up to that limit, a reachable state with such a clock attains the bound |
| WebhookSpacing.ShortestGap | linkmoth_webhooks.py:1025-1087 | For every attempt number and every wait inside the pass a reachable state whose next send comes sooner by exactly that wait |
| WebhookSpacing.FullBackoffExactly | linkmoth_webhooks.py:1025-1087 | Over all reachable states the full backoff to the next send is guaranteed if and only if the earlier send began at its pass's clock reading |
| WebhookSpacing.SentAgainAtOnce | linkmoth_webhooks.py:1025-1100 | A history in which four sends that time out delay a fifth delivery, whose next send then follows with no pause |
| WebhookService.OperationsKeepOk | linkmoth_webhooks.py:930-1087 | Every operation keeps the queue valid, within its cap, and owned by existing webhooks |
| WebhookService.RunsGoOn | linkmoth_webhooks.py:930-1087 | Every operation is possible in every reachable state, so the runs quantified over are all there are |
| WebhookService.FateIsFinal | linkmoth_webhooks.py:930-1087 | No operation touches a settled row's fate, birth or attempts, so every row meets exactly one fate |
| WebhookOutcomes.EmissionDecidesExactly | linkmoth_webhooks.py:930-1014 | For each single delivery: cancelled iff the event clears a fault and finds it untouched, not yet due and of the same incident; new ones are born for exactly the subscribed enabled webhooks with their own delay; all others stay, unless the queue overflows |
| WebhookOutcomes.NewDeliveryTells | linkmoth_webhooks.py:930-1014 | A delivery born of a new fault or degradation is held for the webhook's own escalation minutes; one born of any other event is due at once |
| WebhookOutcomes.CancellationTells | linkmoth_webhooks.py:937-967 | Exactly a recovery, a close and a false-alarm mark cancel, and exactly the untouched deliveries of a fault or degradation of the same incident that are not due yet |
| WebhookOutcomes.OutcomeTells | linkmoth_webhooks.py:1039-1086 | What becomes of a due delivery, in numbers: dropped without an enabled webhook, expired 86400 s after first due, delivered below status 400, given up at the tenth failure or from the third on with 404 or 410, else kept |
| WebhookOutcomes.ScheduleTells | linkmoth_webhooks.py:1074-1086 | When a stored delivery is tried next: 30, 120, 600, 1800 and then always 3600 s after the pass of its last attempt, and first when its hold is over |
| WebhookOutcomes.DeletionTells | linkmoth_webhooks.py:532-540 | Deleting a webhook drops exactly its own queued deliveries |
| WebhookOutcomes.DrainDecidesEachOnItsOwn | linkmoth_webhooks.py:1025-1087 | Each delivery of a batch meets the outcome of its own attempt once, whatever the others meet, and no other delivery changes |
| WebhookOutcomes.BatchIsTheOldestDue | linkmoth_webhooks.py:1028-1032 | A due delivery is left out of a batch only when the batch is full of older ones |
| WebhookFairness.PassingOverCosts | linkmoth_webhooks.py:1025-1087 | A pass that leaves a due delivery out spends at least twenty of the attempts that the deliveries before it still have |
| WebhookFairness.NoDeliveryStarves | linkmoth_webhooks.py:930-1087 | Over any sequence of operations a delivery is passed over at most 249 times while it is due |
| WebhookService.OverflowIsPaidByTheNoisiest | linkmoth_webhooks.py:984-1011 | When an emission overflows the queue, only the webhook with the deepest backlog loses rows, its oldest, down to the cap |
| WebhookRows.TrimOverflow | linkmoth_webhooks.py:984-1011 | The trimming loop ends, with the rows of the trimming function |
| WebhookRows.TrimmedRows | linkmoth_webhooks.py:984-1011 | Trimming leaves the cap, or everything if it was within the cap |
| WebhookRows.TrimmingKeepsNewest | linkmoth_webhooks.py:984-1011 | Trimming only deletes rows, and every webhook keeps a newest suffix of its own |
| WebhookRows.Noisiest | linkmoth_webhooks.py:992-995 | The chosen webhook owns a row and no backlog is deeper |
| WebhookRows.NoisiestHasTheOldestRow | linkmoth_webhooks.py:992-995 | Among equally deep backlogs the one with the oldest row is chosen |
| WebhookRows.OnlyTheNoisiestPays | linkmoth_webhooks.py:26-32 | Pigeonhole: with at most 20 owners and at most 20 rows over the cap, one round of trimming is enough |
| TemplateRender.RenderedLiteralMeans | linkmoth_webhooks.py:688-704 | Rendering inside any well-formed JSON string literal (section 7 of RFC 8259) gives a well-formed literal that denotes the template's text with every value in place |
| TemplateRender.ValueStandsVerbatim | linkmoth_webhooks.py:688-704 | A text value between two texts decodes to exactly itself between them, placeholders inside it included: nothing is expanded twice |
| TemplateRender.PlaceholderIsFound | linkmoth_webhooks.py:688-704 | Two braces, spaces, a word, spaces and two braces are found as a placeholder with exactly that word as its key, whatever follows |
| TemplateRender.OnlyPlaceholdersAreFound | linkmoth_webhooks.py:688-704 | Nothing else is found |
| TemplateRender.ReplacementTells | linkmoth_webhooks.py:691-703 | An unknown key renders as nothing, the three raw variables as `json.dumps` writes them, any other as an escape that decodes to its text |
| JsonStrings.EscapesTell | linkmoth_webhooks.py:702-703 | The two-character escapes by name, as they are read and as they are written; printable ASCII stands for itself |
| JsonStrings.EscapeRoundTrip | linkmoth_webhooks.py:702-703 | The escape of any text is well-formed inside a literal and decodes to that text, surrogate pairs included |
| WarningEpisodes.Group | linkmoth_engine.py:1119-1142 | One pass over interleaved codes: per code the episodes are those of that code's rows alone, counts sum to the rows, and the list is newest first |
| WarningEpisodes.AllWarnings | linkmoth_engine.py:1089-1143 | Per code, the episodes are the summaries of the maximal chains of undismissed rows, whatever other codes interleave; counts sum to the undismissed rows; newest first |
| WarningEpisodes.WarningsList | linkmoth_engine.py:1089-1144 | The limit cuts only the end of that list |
| WarningEpisodes.FoldedIsChains | linkmoth_engine.py:1120-1142 | Adding row by row gives the summaries (newest evidence, first and last time, count) of the chains |
| WarningEpisodes.ChainsAreMaximal | linkmoth_engine.py:1116-1142 | The chains lose no row, neighbours inside a chain are within 3600 s, neighbouring chains are further apart |
| WarningEpisodes.OnlyTheChainsAreMaximal | linkmoth_engine.py:1116-1142 | No other cut of the rows has that property |
| WarningEpisodes.EpisodeSpansItsRows | linkmoth_engine.py:1120-1142 | First and last time are the earliest and latest of the episode's rows, code and evidence those of its newest, and the count is that of its rows |
| WarningEpisodes.SortIsRedundant | linkmoth_engine.py:1143-1144 | The final stable sort changes nothing |
| WarningEpisodes.DismissalHidesExactly | linkmoth_engine.py:1146-1173 | A dismissal hides exactly the rows of its code up to its time; what was hidden stays hidden in whatever order marks arrive |
| WarningEpisodes.ListedExactly | linkmoth_engine.py:1105-1114 | Listed are exactly the rows newer than their code's mark, or whose code has none |
| DeviceDebounce.Device.RecordResult | linkmoth_devices.py:687-750 | Streaks, stable state and event after one run, in place |
| DeviceDebounce.ManualRunsAreInvisible | linkmoth_devices.py:687-750 | Erasing manual runs changes neither the row nor the events of any history |
| DeviceDebounce.StreaksAreTrailingBlocks | linkmoth_devices.py:687-750 | The streaks are the lengths of the trailing success and failure blocks of scheduled runs |
| DeviceDebounce.StableIsTheLastDecision | linkmoth_devices.py:687-750 | The stable state is what the last run believed by its block decided: up, degraded, or down for a down or a probe error; unknown iff there was none |
| DeviceDebounce.ThreeFailuresOrTwoSuccesses | linkmoth_devices.py:687-750 | Three failures in a row leave a faulty state, two successes leave up |
| DeviceDebounce.EventsAlternate | linkmoth_devices.py:687-750 | Fault and recovery strictly alternate, a fault first; the state is faulty exactly between them |
| DeviceDebounce.Device.UpdateDevice | linkmoth_devices.py:573-628 | An edit starts a new history unless at most the name and the choice of alerts change |
| DeviceSchedule.Scheduler.ProcessDue | linkmoth_devices.py:786-818 | Submits exactly the due devices and moves every row's next run, a stepped-back clock rebased first |
| DeviceSchedule.ProcessTells | linkmoth_devices.py:786-818 | One device in one call: submitted iff enabled, with an interval and due; its next run is then an interval from now, one too far away is pulled in, and nothing else changes |
| DeviceSchedule.NextRunIsNear | linkmoth_devices.py:786-818 | After a call every scheduled device is due within one interval, and not at once, whatever the clock did |
| DeviceSchedule.SubmissionsAreSpaced | linkmoth_devices.py:786-818 | While the clock never steps back, a device is submitted at most once per interval; when the submitted checks begin is up to the workers |
| DeviceSchedule.RunSlots.Begin | linkmoth_devices.py:502-508 | Refused exactly when the device already runs or all four slots are taken |
| DeviceSchedule.RunSlots.End | linkmoth_devices.py:510-513 | Gives back exactly the slot of the run |
| OutageTracker.Tracker.Observe | linkmoth_outage.py:25-159 | One verdict on the row, the counter and the suppressed alerts, with a callback that may return or raise |
| OutageTracker.Tracker.RecordSuppressed | linkmoth_kuma_proxy.py:90-111 | Adds an alert and keeps the newest 500 |
| OutageTracker.SuppressionTells | linkmoth_kuma_proxy.py:90-111 | In every reachable state at most 500 alerts are kept; one more joins at the end, numbered after the last, and pushes out the oldest iff there are 500 already |
| OutageTracker.OnsetTells | linkmoth_outage.py:81-126 | The onset of an outage is kept as an alert like any other; an observation that neither begins nor ends one leaves the alerts alone |
| OutageTracker.TrackerFollowsHistory | linkmoth_outage.py:25-54 | After any history an episode is active exactly while an outage is on: it ends only at the second clear verdict with no global one and no restart between; the counter tells whether one clear verdict stands |
| OutageTracker.EffectiveGlobalTells | linkmoth_kuma_proxy.py:63-87 | What makes an outage: a verdict neither healthy nor all clear, and either one of three codes or the last checks of DNS and ping failing while the gateway's does not fail and HTTPS' does not work |
| OutageTracker.RowTellsTheOutage | linkmoth_outage.py:81-126 | The active row holds the onset time of the outage and its latest broken ladder |
| OutageTracker.OneReportPerOutage | linkmoth_outage.py:128-159 | The recovery callback runs exactly once per ended outage, at its end, with onset, latest broken ladder and the ids of all suppressed alerts |
| OutageTracker.RestartsOnlyDelay | linkmoth_outage.py:25-54 | A restart can only delay the end: whenever the tracker without restarts is still in an outage, so is the restarted one, no further along |
| OutageTracker.RecoveryClearsWhatItRead | linkmoth_kuma_proxy.py:123-201 | Whatever other recovery paths clear meanwhile: if the callback raises, this recovery clears nothing; if it returns, every alert read beforehand is gone, and one that came in meanwhile is deleted if and only if it was given an id that had been read |
| OutageTracker.UndisturbedRecovery | linkmoth_kuma_proxy.py:123-201 | While no other path clears alerts, the table after a recovery is exactly the newest of what came in meanwhile, behind everything read if the callback raises |
| OutageTracker.AlertLostWithItsId | linkmoth_kuma_proxy.py:123-136 | Another path clears the table while the callback runs, and the alert that comes in next is given the old id again and deleted |
| DailyScore.MedianHalves | linkmoth_probes.py:2147-2152 | At least half of the values are not above the median and at least half not below it |
| DailyScore.ScoreWithinBounds | linkmoth_probes.py:2300-2331 | A day's score stays in 0..100 |
| DailyScore.ScoreTells | linkmoth_probes.py:2300-2331 | The five costs come off a hundred, rounded, and nothing goes below zero |
| DailyScore.RoundTells | linkmoth_probes.py:2330 | Rounding goes to the nearest integer, halves to the even one |
| DailyScore.LossTells | linkmoth_probes.py:2307-2312 | Eight points for every percent of median loss, up to 40; a missing figure counts as no loss |
| DailyScore.JitterTells | linkmoth_probes.py:2306-2313 | Half a point for every millisecond of median jitter, up to 15, over the samples that have a figure |
| DailyScore.LatencyTells | linkmoth_probes.py:2305-2317 | Forty points for twice the baseline, in proportion, up to 25; nothing at or below it or without one |
| DailyScore.BloatTells | linkmoth_probes.py:2291-2297 | The steps 0, 3, 7, 12 and 18 at 30, 60, 120 and 250 ms |
| DailyScore.DowntimeTells | linkmoth_probes.py:2319 | A point for every thirty seconds of downtime, up to 40 |
| DailyScore.MoreDowntimeNeverHelps | linkmoth_probes.py:2300-2331 | More downtime never raises the score |
| DailyScore.History | linkmoth_probes.py:2454-2488 | The per-day loop grades each day from its own samples, load test, downtime and the medians of the graded days before it |
| DailyScore.LaterDaysInvisible | linkmoth_probes.py:2454-2488 | Two inputs that recorded the same up to a day's end give that day the same entry: later samples, load tests and outages, how an outage that outlasts the day goes on, and for a finished day the time of reading make no difference |
| DailyScore.MatchingSegmentsAgree | linkmoth_core.py:1278-1311 | Segments that began before a day's end and differ only in ends at or after it, or still to come, are the same for that day |
| DailyScore.DaysShareTheDowntime | linkmoth_probes.py:2454-2488 | The downtimes of the days' own windows, graded or not, sum to the downtime of the whole window up to now |
| DailyScore.HistoryWithinBounds | linkmoth_probes.py:2454-2488 | Every graded day of the history is within 0..100 |
| DailyScore.GradeTells | linkmoth_probes.py:2470-2485 | Scored from six samples on; against the median of the medians before it from five of them on, before that against its own; its own median is handed on only if it was graded |
| DailyScore.LatestLoadCounts | linkmoth_probes.py:2459-2462 | The last load test of a day is the one that counts, none iff there was none that day |
| DailyScore.OwnDayCounts | linkmoth_probes.py:2454-2458 | A day's samples are exactly those whose own day it is |
| Versions.AcceptedExactly | linkmoth_core.py:136-146 | A text is accepted iff, without an optional v, it is the text of three numbers without leading zeros and non-empty prerelease identifiers; the answer is that text |
| Versions.ProperTells | linkmoth_core.py:136 | The pattern character by character: three numbers, of which only 0 begins with a zero, and non-empty identifiers of letters, digits and hyphens |
| Versions.LeadingV | linkmoth_core.py:136-146 | A leading v is accepted once and dropped |
| Versions.TextTells | linkmoth_core.py:136-146 | How the text is put together from its parts |
| Versions.StrictVersionIsIdempotent | linkmoth_core.py:136-146 | Normalising an accepted version again changes nothing |
| Versions.KeysOrdered | linkmoth_core.py:270-284 | The tuples are totally and transitively ordered, equal only when identical |
| Versions.ComparisonAgreesWithSemver | linkmoth_core.py:270-284 | For every two accepted texts the tuples compare as section 11 of Semantic Versioning 2.0.0 orders the versions |
| Versions.CoreNumbersTell | linkmoth_core.py:270-284 | Core numbers compare as digit strings: the longer is greater, equal lengths go by the first differing digit, and equal values mean equal texts |
| Versions.IdentKeysTell | linkmoth_core.py:270-284 | Two identifiers: digits as numbers, below any other text, other text by its first differing character, a prefix first |
| Versions.SameLengthOrder | linkmoth_core.py:270-284 | Digit strings of one length are ordered by their first differing digit |
| Versions.LongerIsGreater | linkmoth_core.py:270-284 | A longer digit string without a leading zero is greater |
| Versions.LeadingZeroIsNothing | linkmoth_core.py:270-284 | A leading zero changes no value |
| Versions.CoreValuesTell | linkmoth_core.py:270-284 | The tuple's core is the values of the three numbers |

## Left out

- SQLite, its lock retries, migrations and file permissions: tables are values, transactions atomic.
- Sockets, TLS, `select`, probes, HTTP delivery, Discord and push: their answers are inputs; waits take exactly as long as
  their timeouts allow, and a `settimeout` on the socket is not modelled beyond that bound.
- Other processes: the fallback insert of an incident by another process, and the vacuum script run on its own.
- A signal or exception between acquiring a lock and the next statement; calls of one thread one after the other are
  separate calls in LadderCache and IncidentLifecycle.
- What the ladder and the `verdict` decision tree find, and all wording, letters, CSV, dashboards and routing: branch reading or rendering.
- The janitor that deletes old rows, and the backfill of `recovered_at` for incidents of older versions.
- Incident numbers, notes, titles and explanations; the recheck schedule and its sleeps (the rounds before the deadline are an input of `RecheckLoop.Loop`).
- Webhook rows' contexts beyond the incident id, `last_error` and the last-send columns, and the texts of what is sent.
- Webhook validation and event names: an event is a constructor or some other name.
- Reuse of the largest id by SQLite among webhook rows after a deletion: their ids are never reused here.
- Interleaving of an emission with a running drain: whole operations are serialised.
- A device's last-run columns and run history, the check of an edit's values, and notification of its events.
- The clock readings of a drain pass and its sends are on one clock that does not step back within the pass; it may between passes.
- `process_due` with more devices than `MAX_DEVICES`: the table cannot hold more, so its ORDER BY and LIMIT never bite.
- Grades, headline, trend and cache of the connection score; its factors' texts; floating-point error (values are `real`); day
  boundaries are strictly increasing, as consecutive local midnights are.
- The window and limit of the SQL queries under `warnings_list` and `connection_score`: their rows are inputs.
- The digest's lines and its duration text; titles and explanations of the outage row.
- Which letters beyond ASCII the regular expression's `\w` and `\s` hold: any classes without braces, quotes and backslashes.
- That a template valid for the sample context is valid for all contexts: false, the sample's confidence is empty.
- Version digits beyond ASCII, which Python's `\d` accepts.
- LedgerMeaning.DownMeansLatestObservationFailed: assumes run times in order and not before the start; for other clocks only the shape of the rows and the two agreement conditions are proved.
- DailyScore.ScoreWithinBounds: assumes measured jitter and loss are not negative, as the probes produce them.
- TemplateRender.RenderedLiteralMeans: assumes that `json.dumps` of the three raw variables (numbers, truth values) needs no escaping.
- WebhookService.EveryRowIsAccountedFor: assumes that the row's own update or delete commits after its send; if it raises (caught at linkmoth_webhooks.py:1100) the pass ends there and the delivery is sent again unrecorded, so that neither the ten attempts nor the spacing of WebhookSpacing holds for such sends.
