# OpsCraft: a verified model of its state machines

A Dafny model of the parts of the OpsCraft services that carry state and guarantees, with proofs
of what they keep over whole runs and of where they do not. `dafny verify dfyconfig.toml` checks
everything.

| files | what they model |
|---|---|
| `OperationalTransform`, `TransformExactness`, `LateEdits`, `SliceBounds`, `CatchUp`, `Intention` | the operational-transformation engine: pairwise convergence, exactly which pairs converge, what is left of every pair, operations out of bounds, catch-up over histories, where rebased edits land |
| `SessionLog` | the document of a session over a run of submitted edits: log, trimming, replay, convergence |
| `Sets`, `OrderedDict`, `Broadcast`, `BroadcastOutcome`, `DeadParticipants` | broadcasting, with the mutual recursion of broadcast and leave, on an arbitrary network and on one with a fixed set of dead participants |
| `Collaboration`, `Registry`, `Registration`, `Observers`, `Presence`, `Arrivals`, `CollaborationManager` | the collaboration service as a state machine, its invariant, exactly when connected users stay registered, what a participant sees and is told, and the session and manager objects |
| `Clock`, `FixedWindow`, `SlidingWindow`, `TokenBucket`, `TokenWindow`, `TokenRemaining`, `RateLimiter` | the Redis-backed rate limiters, with keys that expire, what the token bucket makes of a limit and a window, and what it reports |
| `ExecutionRate`, `Simultaneous` | the per-user log of accepted executions, a greedy scheduler, and exactly what requests at one instant change |
| `Placeholders`, `PlaceholderOrder`, `Templates`, `FilledTemplates` | template substitution as a loop of string replacements, exactly when the order of variables shows, and what the content depends on |
| `Anomalies`, `Deviations`, `Alerts`, `AlertRuns`, `AlertConditions`, `AlertKeys`, `AlertManager` | anomaly detection, deduplicated alerts and their life, exactly when a rule fires, and what keys stand for |
| `Approvals`, `Entitlements`, `DistinctApprovers`, `ApprovalService` | approval requests with the guards of their routes, who decided and with what right, and exactly when distinct approvers are enforced |

Code that only computes is a function. An object that the source updates in place is a class whose
methods are proved to compute a function of the old state (`Value()`, or the ghost field `desk` of
the alert manager); the properties of runs are lemmas about these functions.

What turned out differently from what names, comments or documentation suggest:

- `transform` has no branch for a (delete, insert) pair in that order, which is the order in which
  the server calls it for a late deletion. `TransformExactness` gives the exact guard for
  convergence, and the smallest pair that diverges.
- For the pairs without a branch `LateEdits` gives the text that the server is left with, and exactly when
  it is what the authors meant: a late overlapping deletion takes as many characters as its author
  selected, but others behind them.
- Positions are not checked. A deletion shorter than the text that starts at a negative position and
  reaches index 0 makes the text longer (`SliceBounds.DeletionGrowsIff`).
- The catch-up slice `history[revision:]` indexes the trimmed list by the untrimmed revision. Once
  more than 1000 operations were applied it always misses some of the operations it stands for
  (`SessionLog.CatchUpSliceIsMissedIffUntrimmed`). Submissions on revision `v` of `r` converge in
  general if and only if `r <= 1000` or `v` is current (`SessionLog.AllConvergeIffUntrimmedOrCurrent`).
- `retry_after` of the sliding window is derived from the oldest entry and rounded down: a client
  that retries alone after exactly that delay is always refused. That of the token bucket is rounded
  down as well, and suffices only in the case of `TokenBucket.ReportedRetryIsExactIff`.
- The token bucket keeps its rate bound only if an hour of refills fills it. Otherwise the expiry of
  the key after 3600 seconds hands out a full bucket too early.
- The sliding window counts instants, not requests. With up to `m` requests at one instant it admits
  up to `m * limit` of them a window and no more (`Simultaneous.RequestBoundIff`); it keeps to its
  limit, and the per-minute strategy keeps up with it, if and only if requests come alone.
- The token bucket is given the window as its refill rate per second, so a limit and a window mean
  what they say only for a window of one second (`TokenWindow.LimitsWindowIffOneSecond`).
- The required number of approvals counts decisions, not approvers. Distinct approvers are enforced
  only in the case of `DistinctApprovers.DistinctApproversEnforcedIff`; for a new request, if it
  requires one.
- The replacement loop is not a simultaneous substitution if a value contains, or completes, a
  placeholder: `Placeholders.SimultaneousIffSettled`. The order of variables shows under nearly the
  same condition: `PlaceholderOrder.OrderNeverShowsIffSettledBut`.
- Keys are names joined with colons, so different rules, or different series, can share one,
  unless names are restricted as in `AlertKeys.KeysDetermineIff` and `AlertKeys.SeriesDeterminedIff`.
- A rule named `anomaly` uses the deduplication key of the anomaly alerts, and the detector's
  comment promises an IQR method that the code does not have.
- A user who is connected to a full session and joins it again is refused, and loses the connection
  that he had: `Presence.FailedJoinLeaves`.
- A user who joins a second session is registered there only, and leaving either session removes
  the registration. Connected users stay registered if and only if this never happens:
  `Registration.AlwaysTwoWayIffNeverForeign`.

## Model

| member | source | states |
|---|---|---|
| `OperationalTransform.EditsConverge` | services/collaboration-service/main.py:95-173 | For every document and every pair that a branch of `transform` covers, applying `op1` then the transformed `op2` equals applying `op2` then the transformed `op1`, down to the identity of each character (elements are arbitrary labels) |
| `OperationalTransform.TransformFits` | services/collaboration-service/main.py:95-157 | Both transformed operations stay inside the documents they are meant for |
| `OperationalTransform.TransformKeepsPayload` | services/collaboration-service/main.py:95-157 | `transform` never changes kind, author, base revision, inserted text or deleted length of either operation; a moved one only loses the length of an insertion or the content of a deletion |
| `OperationalTransform.EditLength` | services/collaboration-service/main.py:160-173 | The length of the text after an operation that fits |
| `TransformExactness.ConvergesEverywhereIffCommutable` | services/collaboration-service/main.py:95-173 | `transform` reconciles a pair on all documents if and only if the pair passes a guard on the two operations alone; all overlapping, strictly nested and (delete, insert) pairs with an effect fail it |
| `TransformExactness.CommutableConverges` | services/collaboration-service/main.py:95-173 | The positive half, document by document |
| `TransformExactness.UncommutableDiverges` | services/collaboration-service/main.py:117-157 | For every pair outside the guard, a document on which the two sides end with different texts |
| `TransformExactness.DeleteAfterInsertDiverges` | services/collaboration-service/main.py:137-157 | The smallest failing pair, with both resulting texts |
| `LateEdits.UnhandledUnchanged` | services/collaboration-service/main.py:95-157 | A pair that no branch covers, and a pair with a RETAIN, comes back unchanged in both components |
| `LateEdits.LateEditMerges` | services/collaboration-service/main.py:95-173 | For every two fitting operations made on one document, also the pairs that no branch covers, the document after the first and the transformed second in closed form, down to the identity of each character |
| `LateEdits.ServerMerges` | services/collaboration-service/main.py:314-345 | The same for the text of the server after any run of less than 1000 submissions |
| `LateEdits.ServerForgets` | services/collaboration-service/main.py:334-345 | After a longer run a late operation is applied as it came |
| `LateEdits.OverlapAsMeantIff` | services/collaboration-service/main.py:117-135 | A late overlapping deletion leaves exactly what neither author selected if and only if a selection was empty or no character follows that it could take instead |
| `LateEdits.InsideAsMeantIff` | services/collaboration-service/main.py:137-155 | A late insertion strictly inside a deleted range lands where the range was if and only if it inserts nothing or nothing follows the range |
| `LateEdits.OverInsertionAsMeantIff` | services/collaboration-service/main.py:157 | A late deletion over an insertion before its end takes exactly its own characters if and only if one of the two has no effect |
| `SliceBounds.InsertionLands` | services/collaboration-service/main.py:160-167 | Where an insertion lands for every integer position, also a negative one or one past the end |
| `SliceBounds.DeletionGrowsIff` | services/collaboration-service/main.py:168-172 | For every position and length: a deletion makes the text longer if and only if its range is read backwards; for lengths that are not negative, if it starts at a negative position, ends at or past the start, and is shorter than the text |
| `SliceBounds.BackwardsDeletionDuplicates` | services/collaboration-service/main.py:168-172 | What is left of the text then, with its length |
| `CatchUp.CatchUpConverges` | services/collaboration-service/main.py:334-338 | Any missed history: applying it and then the rebased operation equals applying the operation first and then the shifted history; every operation fits where it is applied |
| `CatchUp.UnreconcilableMayConverge` | services/collaboration-service/main.py:334-338 | That every pair meets a branch is not necessary for a whole history: a concrete history in which a later deletion hides an unhandled pair |
| `CatchUp.InsertsReconcile` | services/collaboration-service/main.py:97-115 | Between insertions every step of the catch-up loop meets a branch of `transform` |
| `CatchUp.RebaseKeepsPayload` | services/collaboration-service/main.py:334-336 | Over any history the operation comes out untouched, or moved and stripped of the length of an insertion or the content of a deletion |
| `Intention.InsertKeepsIntention` | services/collaboration-service/main.py:334-338 | A rebased insertion lands exactly between the survivors of the first `p` characters and the survivors of the rest, and survivors keep identity and order |
| `Intention.DeleteKeepsIntention` | services/collaboration-service/main.py:334-338 | A rebased deletion removes exactly the characters its author selected |
| `SessionLog.HistoryIsLogSuffix` | services/collaboration-service/main.py:334-345 | In every run: history is the end of the full log, entry `i` made revision `i + 1`, the text replays the log, and the length of the history is a closed form of the revision |
| `SessionLog.HistoryLength` | services/collaboration-service/main.py:344-345 | How many operations the history holds after any number of submissions |
| `SessionLog.ContentIsReplay` | services/collaboration-service/main.py:338-345 | The text is the retained history replayed on the snapshot where it begins; each earlier text of the run is a snapshot of the log |
| `SessionLog.CatchUpSliceIsMissedIffUntrimmed` | services/collaboration-service/main.py:334-345 | `history[v:]` is always the end of what a client at `v` missed, and all of it if and only if at most 1000 operations were applied |
| `SessionLog.LateInsertConvergesIffUntrimmed` | services/collaboration-service/main.py:334-345 | For every revision and every earlier base revision, a late insertion into a run of keystrokes converges if and only if nothing has been trimmed |
| `SessionLog.AllConvergeIffUntrimmedOrCurrent` | services/collaboration-service/main.py:334-345 | All proper, reconcilable submissions made on revision `v` after any run of `r` submissions converge if and only if `r <= 1000` or `v` is current |
| `SessionLog.IntegratedIsRebased` | services/collaboration-service/main.py:334-341 | What the server applies is the submission rebased over exactly the missed operations |
| `SessionLog.SubmitConverges` | services/collaboration-service/main.py:314-346 | The server text after a late submission is the text of the client that applied it at once and then the shifted missed operations |
| `SessionLog.DisciplinedRunFits` | services/collaboration-service/main.py:314-346 | In a run whose submissions fit their revision and meet handled pairs, no applied slice is ever clamped |
| `SessionLog.InsertRunIsDisciplined` | services/collaboration-service/main.py:97-115 | Insert-only runs with an untrimmed log need no such side condition |
| `SessionLog.TiesLandLastFirst` | services/collaboration-service/main.py:97-106 | Concurrent insertions at one position appear in reverse order of arrival |
| `Broadcast.BroadcastToSession` | services/collaboration-service/main.py:402-420 | The mutual recursion of broadcast and leave ends on every network, with no new participant |
| `Broadcast.LeaveSession` | services/collaboration-service/main.py:292-312 | A departure ends on every network, without the leaver and with no new participant |
| `BroadcastOutcome.BroadcastReaches` | services/collaboration-service/main.py:402-420 | On every network: exactly the users to whom some send failed are gone from connections, cursors and registry; everyone still there got the message and every later departure, in order, except the excluded user's first message |
| `BroadcastOutcome.LeaveReaches` | services/collaboration-service/main.py:292-312 | The same for a departure, whose first announcement carries the name of the leaver's cursor |
| `BroadcastOutcome.PassOutcome` | services/collaboration-service/main.py:409-417 | One pass of sends: who was sent what, and the failures are the users to disconnect |
| `DeadParticipants.DeadAreRemoved` | services/collaboration-service/main.py:402-420 | With `k` dead participants, none excluded: exactly they are removed, in `k(k+1)/2` departure rounds; one round per dead participant carries his name, unless it is the placeholder name |
| `DeadParticipants.DeadExcludedIsUncovered` | services/collaboration-service/main.py:402-420 | With a dead excluded user and `k` other dead: `k(k+3)/2` rounds, and he is removed too, and named once, if `k > 0` |
| `DeadParticipants.BroadcastOverDead` | services/collaboration-service/main.py:292-312 | The exact sequence of rounds that a broadcast over dead participants causes |
| `Registry.PerformKeepsInv` | services/collaboration-service/main.py:198-420 | Each join, leave, edit, cursor move and clean-up keeps: same keys in connections and cursors, at most ten of them, a reachable document, and a registered user is connected in his session |
| `Registry.RunKeepsInv` | services/collaboration-service/main.py:198-420 | The same for every run on every network |
| `Registry.EmptyHasInv` | services/collaboration-service/main.py:179-183 | The service starts in a state with this invariant |
| `Registry.CleanupKeepsInv` | services/collaboration-service/main.py:198-211 | Clean-up drops only sessions without connections |
| `Registry.JoinKeepsInv` | services/collaboration-service/main.py:225-290 | The limit of ten participants holds although the broadcast of a join may remove some |
| `Registration.StepKeepsTwoWayIffNotForeign` | services/collaboration-service/main.py:225-312 | On every network, a step keeps every connected user registered where he is connected if and only if it is not a user of one session who connects to another or leaves another |
| `Registration.AlwaysTwoWayIffNeverForeign` | services/collaboration-service/main.py:225-312 | The same for the whole course of every run |
| `Registration.ConnectedButUnregistered` | services/collaboration-service/main.py:246-247 | A concrete run after which a connected user is registered nowhere |
| `Registration.ForeignBreaksTwoWay` | services/collaboration-service/main.py:246-300 | Each such step leaves somebody connected without being registered there, from any state of the service |
| `Observers.ObserverAgreement` | services/collaboration-service/main.py:272-361 | A participant that starts from its state message, sends no edit and applies each broadcast operation holds the server's text and revision for as long as it is connected, whatever the others and the network do |
| `Observers.ParticipantAgreement` | services/collaboration-service/main.py:272-361 | The same for a participant that makes every edit on the revision it holds, applies it at once and counts one revision |
| `Observers.CurrentRunAgrees` | services/collaboration-service/main.py:314-417 | Its form over runs, from any agreeing state |
| `Observers.SilentRunAgrees` | services/collaboration-service/main.py:314-417 | The form over runs without edits of its own, from any agreeing state |
| `Observers.BroadcastSparesStrangers` | services/collaboration-service/main.py:402-420 | A broadcast with all its consequences sends nothing to a socket that is not in the session |
| `Presence.EditSubmits` | services/collaboration-service/main.py:321-345 | An edit becomes one submission with the fields of the request and, unless it names a revision, the current one; nothing else of the session changes but the time of its last activity |
| `Presence.EditIsCarriedOut` | services/collaboration-service/main.py:314-363 | After an edit on the current revision the text is what the request says, and everybody else who stays connected first hears exactly that edit, with the next revision |
| `Presence.CursorMoves` | services/collaboration-service/main.py:365-400 | The one cursor gets line, column and selection, no other changes, and everybody else who stays connected first hears exactly that |
| `Presence.NoCursorNothingMoves` | services/collaboration-service/main.py:374-377 | Without a session or a cursor in it a cursor message does nothing |
| `Presence.DepartureIsNamed` | services/collaboration-service/main.py:292-312 | Everybody who stays connected first hears the departure, under the name of the leaver's cursor, or `Unknown` without one |
| `Presence.FailedJoinLeaves` | services/collaboration-service/main.py:454-497 | Whoever is refused by a session, or cannot be sent its state, is afterwards neither connected to it nor registered, even if he was connected before |
| `Presence.RefusedIffTen` | services/collaboration-service/main.py:232-239 | A join is refused exactly when ten are connected, and then changes nothing |
| `Presence.CleanupTakesExactly` | services/collaboration-service/main.py:202-211 | The clean-up takes exactly the sessions without connections that were idle for more than 3600 s |
| `Arrivals.JoinTells` | services/collaboration-service/main.py:241-289 | Everybody who stays connected, the newcomer included, first hears the newcomer's name and the list of all participants in order; then the newcomer is sent the text, the revision, and the cursors of the others who are left |
| `Arrivals.RunStaysOwn` | services/collaboration-service/main.py:252-258 | In every run each cursor is filed under its own user |
| `CollaborationManagers.CollaborationManager.GetOrCreateSession` | services/collaboration-service/main.py:213-223 | The session object filed under the id, created with the initial content if missing; no other session changes |
| `CollaborationManagers.CollaborationManager.JoinSession` | services/collaboration-service/main.py:225-290 | The in-place handler takes the manager to the state that the specification gives, full sessions and failed state messages included |
| `CollaborationManagers.CollaborationManager.LeaveSession` | services/collaboration-service/main.py:292-312 | Likewise, through the mutual recursion with the broadcast |
| `CollaborationManagers.CollaborationManager.HandleOperation` | services/collaboration-service/main.py:314-363 | Likewise for an edit: rebased, applied, numbered, logged, trimmed, announced |
| `CollaborationManagers.CollaborationManager.IntegrateEdit` | services/collaboration-service/main.py:334-345 | The catch-up loop and the trimming compute the specified document |
| `CollaborationManagers.CollaborationManager.UpdateCursor` | services/collaboration-service/main.py:365-400 | Likewise for a cursor message; an unknown session or user changes nothing |
| `CollaborationManagers.CollaborationManager.BroadcastToSession` | services/collaboration-service/main.py:402-420 | The send loop and the disconnect loop take the manager to the specified state |
| `CollaborationManagers.CollaborationManager.CleanupInactiveSessions` | services/collaboration-service/main.py:198-211 | Exactly the sessions idle for more than an hour and without connections are dropped |
| `FixedWindow.FirstArrivalsAllowed` | shared/middleware/rate_limiter.py:69-86 | Exactly the first `limit` arrivals of each aligned window are allowed, `remaining` and `retry_after` included; a counter never expires while its window is current |
| `FixedWindow.TwiceLimitInInterval` | shared/middleware/rate_limiter.py:69-86 | Any interval of length `window`, aligned or not, admits at most twice the limit |
| `FixedWindow.AllowedInWindow` | shared/middleware/rate_limiter.py:69-86 | An aligned window admits at most `limit` |
| `FixedWindow.IndexBounds` | shared/middleware/rate_limiter.py:73-76 | A request at `t` counts in the window `i` with `i * window <= t < (i + 1) * window` |
| `FixedWindow.EarliestRetry` | shared/middleware/rate_limiter.py:73-86 | After a refusal a lone retry at `t` is allowed if and only if `t` falls in a later window and `limit >= 1` |
| `FixedWindow.ReportedRetrySuffices` | shared/middleware/rate_limiter.py:84 | A lone retry after the reported delay is always allowed if the limit allows anything |
| `SlidingWindow.AnswerByRecent` | shared/middleware/rate_limiter.py:88-121 | The whole answer depends on the run alone: the distinct instants of the last `window` seconds are counted, refused ones included |
| `SlidingWindow.SlotHoldsRecent` | shared/middleware/rate_limiter.py:92-103 | The key never expires while it holds an instant that a check would count |
| `SlidingWindow.ExpiryIsInvisible` | shared/middleware/rate_limiter.py:102 | Answers equal those of a key that never expires |
| `SlidingWindow.AtMostLimitInstants` | shared/middleware/rate_limiter.py:92-107 | Allowed instants that lie less than `window` apart are at most `limit` |
| `SlidingWindow.EarliestRetry` | shared/middleware/rate_limiter.py:98-121 | After a refusal a lone retry at `t` is allowed if and only if the `limit`-th youngest recorded instant is then at least `window` old |
| `SlidingWindow.RefusalHasYoungest` | shared/middleware/rate_limiter.py:98-107 | Every refusal has such an instant |
| `SlidingWindow.ReportedRetryIsTooEarly` | shared/middleware/rate_limiter.py:110-117 | The reported delay lies in `[0, window)` and a lone retry after exactly that delay is refused |
| `TokenBucket.ExpiryInvisibleIffHourFills` | shared/middleware/rate_limiter.py:123-157 | The expiry after 3600 seconds never changes an answer in any run if and only if `capacity <= 3600 * rate` |
| `TokenBucket.IntervalBoundIffHourFills` | shared/middleware/rate_limiter.py:123-157 | Every interval of every run admits at most `capacity + rate * length` requests if and only if `capacity <= 3600 * rate` |
| `TokenBucket.TwoBurstsExceed` | shared/middleware/rate_limiter.py:150-154 | For a larger capacity, a run that exceeds the bound |
| `TokenBucket.PlainBudget` | shared/middleware/rate_limiter.py:136-144 | Allowed requests and left-over tokens are paid for by the capacity and the refills |
| `TokenBucket.SpendKeepsFilled` | shared/middleware/rate_limiter.py:132-144 | Tokens stay between 0 and the capacity and grow by at most the rate |
| `TokenBucket.EarliestRetry` | shared/middleware/rate_limiter.py:141-148 | A refused client that waits alone is allowed if and only if `(1 - tokens) / rate` has passed; `retry_after` is the floor of that wait, so it is 0 unless the bucket is empty and refills at one a second |
| `TokenBucket.ReportedRetryIsExactIff` | shared/middleware/rate_limiter.py:141-148 | A lone retry after exactly `retry_after` is allowed if and only if the bucket was empty and refills at one token a second |
| `TokenRemaining.RemainingIsExact` | shared/middleware/rate_limiter.py:141-157 | In every run, after an answer with `remaining == n` exactly the next `n` requests at the same instant are allowed, and the one after them is refused |
| `TokenRemaining.RemainingWithinCapacity` | shared/middleware/rate_limiter.py:141-157 | `remaining` is never negative nor more than the capacity, less than it after an allowed request, which need not wait, and 0 after a refused one |
| `TokenWindow.LimitsWindowIffOneSecond` | shared/middleware/rate_limiter.py:63-65 | With the window passed as the refill rate, at most `limit` requests are allowed within any `window` seconds if and only if the window is one second or the limit allows nothing |
| `TokenWindow.WindowAdmitsAtMost` | shared/middleware/rate_limiter.py:63-65 | What is enforced instead, for windows up to an hour: at most `limit + window * window` requests |
| `TokenWindow.ShortIntervalBound` | shared/middleware/rate_limiter.py:123-157 | In intervals shorter than an hour the bound `capacity + rate * length` holds for every capacity |
| `RateLimiters.RateLimiter.CheckFixedWindow` | shared/middleware/rate_limiter.py:69-86 | The in-place check computes the specified counters and verdict and touches no other key |
| `RateLimiters.RateLimiter.CheckSlidingWindow` | shared/middleware/rate_limiter.py:88-121 | Likewise for the sorted set |
| `RateLimiters.RateLimiter.CheckTokenBucket` | shared/middleware/rate_limiter.py:123-157 | Likewise for the token hash |
| `RateLimiters.RateLimiter.CheckRateLimit` | shared/middleware/rate_limiter.py:51-67 | The dispatch; the leaky bucket is served by the sliding window |
| `ExecutionRate.GreedyStaysAhead` | services/execution-service/app/services/executor_strategies.py:118-140 | In every prefix of every trace the strategy has accepted at least as many requests as any schedule with at most `max` a minute |
| `ExecutionRate.GreedyIsFeasible` | services/execution-service/app/services/executor_strategies.py:118-140 | The strategy itself is such a schedule |
| `ExecutionRate.AcceptsBelowMax` | services/execution-service/app/services/executor_strategies.py:126-140 | It accepts a request if and only if fewer than `max` were accepted in the minute before: pruning loses nothing |
| `ExecutionRate.NeverFewerThanSliding` | services/execution-service/app/services/executor_strategies.py:118-140 | On traces with distinct times it never falls behind the sliding-window limiter with the same limit |
| `ExecutionRate.NoMoreInstantsThanAccepted` | shared/middleware/rate_limiter.py:92-107 | On every trace and in every prefix, the instants at which the sliding-window limiter allows something are at most as many as the requests the strategy accepts |
| `ExecutionRate.SlidingIsFeasible` | shared/middleware/rate_limiter.py:92-107 | The sliding-window limiter is one of the schedules it is compared with |
| `ExecutionRate.SimultaneousRequestsCountOnce` | shared/middleware/rate_limiter.py:100 | The smallest trace on which the limiter gets ahead: two requests at one instant, both allowed, one accepted |
| `Simultaneous.NeverAheadIffAlone` | shared/middleware/rate_limiter.py:92-107 | For every limit, over all traces in which at most `m` requests share an instant: the strategy never falls behind the limiter if and only if `m <= 1` or the limit allows nothing |
| `Simultaneous.AlwaysFeasibleIffAlone` | shared/middleware/rate_limiter.py:92-107 | The limiter allows at most `limit` requests in the minute that ends with an allowed one, on all these traces, under the same condition |
| `Simultaneous.RequestBoundIff` | shared/middleware/rate_limiter.py:92-107 | For every limit and window, when at most `m` requests share an instant the window that ends with an allowed request holds at most `bound` allowed ones, in all runs, if and only if `m * limit <= bound` (or nothing can be allowed) |
| `ExecutionRate.RateLimitedStrategy.CanExecute` | services/execution-service/app/services/executor_strategies.py:118-140 | The in-place log of one user becomes the specified one; other users are untouched |
| `Placeholders.SequentialIsSimultaneous` | services/script-service/app/api/templates.py:221-225 | On every template that can be read unambiguously, if the value of every variable but the last is settled, the loop of `str.replace` equals one simultaneous substitution |
| `Placeholders.LoopIsSubstitution` | services/script-service/app/api/templates.py:221-225 | The same on token sequences in which every `$` is inert by the characters after it |
| `Placeholders.SimultaneousIffSettled` | services/script-service/app/api/templates.py:221-225 | A value is substituted simultaneously in every unambiguous template and before every other variable if and only if it is settled |
| `Placeholders.SettledMeans` | services/script-service/app/api/templates.py:225 | A value is settled if and only if no `$` in it begins the pattern of a clean name and no tail of it is the beginning of such a pattern |
| `Placeholders.ReplaceFills` | services/script-service/app/api/templates.py:225 | One leftmost, non-overlapping replacement fills exactly the placeholders of that name |
| `Placeholders.TokeniseRender` | services/script-service/app/api/templates.py:225 | Reading undoes rendering: an unambiguous template has one reading |
| `Placeholders.TokeniseSound` | services/script-service/app/api/templates.py:225 | What is read is unambiguous and renders to the string that was read |
| `Placeholders.UndeclaredPlaceholdersRemain` | services/script-service/app/api/templates.py:221-225 | With settled values, `${name}` occurs in the result if and only if it occurs in the template and no variable of that name is declared |
| `Placeholders.OrderIsIrrelevant` | services/script-service/app/api/templates.py:223-225 | Any number of distinctly named variables may be declared in any order that leaves settled values before the last |
| `PlaceholderOrder.OrderNeverShowsIffSettledBut` | services/script-service/app/api/templates.py:223-225 | The place of a variable never shows, in any unambiguous template and against any other name with a settled value, if and only if its own value is settled but for its own placeholder |
| `Placeholders.PlaceholderInValueDependsOnOrder` | services/script-service/app/api/templates.py:223-225 | The smallest value that is not settled, with the two results that the two orders give |
| `Templates.TemplateStore.UseTemplate` | services/script-service/app/api/templates.py:198-236 | Unknown id; the first variable that is required, not given and without default; otherwise the filled content and one more download |
| `FilledTemplates.OnePlaceholder` | services/script-service/app/api/templates.py:221-225 | A template `${name}` becomes the given value, else the default, else nothing |
| `FilledTemplates.DependsOnlyOnValues` | services/script-service/app/api/templates.py:223-225 | The content depends neither on the default of a variable that the request gives, nor on what the request gives beyond the declared variables |
| `FilledTemplates.ContentIsSubstitution` | services/script-service/app/api/templates.py:221-225 | With settled texts, the content of an unambiguous template is one simultaneous substitution of the texts of the variables: of two variables with one name, the first |
| `Anomalies.WindowIsEndOfStream` | services/monitoring-service/app/main.py:125-129 | Each window is exactly the last `window_size` values of its own series |
| `Anomalies.ZScoreIffAnomalous` | services/monitoring-service/app/main.py:150-158 | `abs((current - mean) / stdev) > threshold` if and only if the squared deviation exceeds the squared threshold times the variance |
| `Anomalies.DetectsRescaled` | services/monitoring-service/app/main.py:131-166 | The verdict on a window is unchanged when every value `x` becomes `a * x + b`, for every `a != 0` |
| `Anomalies.SomeValueAnomalousIffNotFlat` | services/monitoring-service/app/main.py:153-158 | Some current value is an anomaly if and only if the earlier values are not all equal: after a constant series no jump is reported |
| `Anomalies.VarianceZeroIffFlat` | services/monitoring-service/app/main.py:151-154 | The variance is never negative, and zero exactly for a constant series |
| `Anomalies.AnomalyDetector.AddMetric` | services/monitoring-service/app/main.py:125-143 | The in-place window update, and the verdict over the end of the series |
| `Deviations.NewestIsJudged` | services/monitoring-service/app/main.py:131-158 | The newest value is an anomaly if and only if at least nine came before it and it is more than `threshold` standard deviations of those away from their mean |
| `Deviations.MeanValueDilutes` | services/monitoring-service/app/main.py:151-152 | The deviation is that of a sample: one more value at the mean changes neither mean nor squared deviations, which are shared by one more |
| `Deviations.TwoValuesVary` | services/monitoring-service/app/main.py:151-152 | The variance of two values is half the square of their distance |
| `AlertRuns.AlertsPerInterval` | services/monitoring-service/app/main.py:237-309 | In every run, whatever the clock shows, an interval of length T holds at most `floor(T / 300) + 1` alerts of one key |
| `AlertRuns.DroppedIffRecent` | services/monitoring-service/app/main.py:306-309 | A candidate is dropped if and only if its key fired less than 300 s ago or the clock shows less than 300 s |
| `AlertRuns.ProcessFiresExactlyDue` | services/monitoring-service/app/main.py:192-210 | One metric fires the anomaly alert unless recent and then exactly the rules that are due in the state before it, whatever the other rules did; a rule named `anomaly` shares the key of the anomaly alert |
| `AlertConditions.RuleFiresIff` | services/monitoring-service/app/main.py:192-250 | A rule of the table fires on a metric if and only if it is enabled, its expression mentions the metric, its key is free, and the inequality that its comparison names holds; for each comparison, with all fields of the alert |
| `AlertConditions.NothingElseFires` | services/monitoring-service/app/main.py:192-304 | Earlier alerts stay, the anomaly fires if and only if its key is free, and every other new alert is that of a rule of the table |
| `AlertConditions.OneOfThree` | services/monitoring-service/app/main.py:220-231 | At each value exactly one of `>`, `==` and `<` holds, `>=`, `<=` and `!=` are the opposites, and an unknown comparison never holds |
| `AlertConditions.HoldsOnwards` | services/monitoring-service/app/main.py:220-231 | `>` keeps holding for larger values, `<` for smaller ones, and `==` holds at the threshold only |
| `AlertRuns.RunAdvances` | services/monitoring-service/app/main.py:390-406 | From any moment of a run to any later one no firing is lost or changed, a status only moves forward, and a resolved alert does not change |
| `AlertRuns.FoundIffUnresolved` | services/monitoring-service/app/main.py:390-406 | In every run, acknowledge and resolve find an id if and only if an unresolved alert has it |
| `AlertConditions.StampsOne` | services/monitoring-service/app/main.py:390-406 | In every run, acknowledging or resolving an id changes status and stamp of the one unresolved alert that has it, or nothing |
| `AlertConditions.HistoryIsLatest` | services/monitoring-service/app/main.py:174 | In every run the history is the last thousand alerts, in order |
| `AlertConditions.TableHoldsLatest` | services/monitoring-service/app/main.py:183-190 | In every run the table holds a rule under a name if and only if adding it was the last thing done to the name |
| `Alerts.RunKeepsInv` | services/monitoring-service/app/main.py:169-406 | In every run: firings of a key are 300 s apart, the last firing time of a key is that of its latest alert, the active alerts are exactly the unresolved ones, `alert_counts` is the number of rule alerts of the key, and the history is the last 1000 alerts |
| `Alerts.AttemptKeepsInv` | services/monitoring-service/app/main.py:237-309 | The same for one candidate alert |
| `Alerts.FiringIsFreshlyNamed` | services/monitoring-service/app/main.py:244-246 | No two alerts share a key and a firing time, from which their ids are made |
| `AlertKeys.KeysShareIff` | services/monitoring-service/app/main.py:239 | Two rules and metrics share a deduplication key if and only if the names agree, or one rule name is the other and a part of the metric name before a colon |
| `AlertKeys.KeyDeterminesRule` | services/monitoring-service/app/main.py:239 | Without a colon in rule names, or without one in metric names, the key determines both |
| `AlertKeys.KeysDetermineIff` | services/monitoring-service/app/main.py:239 | Over all rules and metrics, the key determines both names if and only if colons are kept out of rule names or out of metric names |
| `AlertKeys.RulesMayCollide` | services/monitoring-service/app/main.py:239-242 | A concrete pair of rules of which one silences the other: the metric of the second triggers it, and nothing fires |
| `AlertKeys.SeriesKeyDeterminesSeries` | services/monitoring-service/app/main.py:127-128 | Without colons in metric names and label values and without `=` in label keys, the key of a window determines the series |
| `AlertKeys.SeriesDeterminedIff` | services/monitoring-service/app/main.py:127-128 | Over all metrics, the key of a window determines name and labels if and only if colons are kept out of metric names and out of label values, and `=` out of label keys |
| `AlertKeys.SeriesMayCollide` | services/monitoring-service/app/main.py:127-128 | Three pairs of series that share a window, one for each of the three characters |
| `AlertManagers.AlertManager.Fire` | services/monitoring-service/app/main.py:262-265 | A fired alert is one object shared by the active table and the history |
| `AlertManagers.AlertManager.CreateAlert` | services/monitoring-service/app/main.py:237-268 | Drops a duplicate, else fires and counts |
| `AlertManagers.AlertManager.CreateAnomalyAlert` | services/monitoring-service/app/main.py:269-304 | Drops a duplicate, else fires without counting |
| `AlertManagers.AlertManager.JudgeMetric` | services/monitoring-service/app/main.py:196-200 | Files the value under its series, judges it, and fires an anomaly alert if it is one and not recent |
| `AlertManagers.AlertManager.ProcessMetric` | services/monitoring-service/app/main.py:192-210 | The in-place handler takes the manager to the specified state and returns the alerts that fired |
| `AlertManagers.AlertManager.AcknowledgeAlert` | services/monitoring-service/app/main.py:390-397 | Changes the shared alert object, or nothing if the id is not active |
| `AlertManagers.AlertManager.ResolveAlert` | services/monitoring-service/app/main.py:399-406 | Removes the alert from the active table and changes the shared object, or nothing |
| `AlertManagers.AlertManager.AddRule` | services/monitoring-service/app/main.py:183-186 | The rule table keeps one rule per name, the latest |
| `AlertManagers.AlertManager.DropRule` | services/monitoring-service/app/main.py:188-190 | Removes the rule of that name, if any |
| `Approvals.RunKeepsInv` | services/approval-service/app/api/routes.py:61-170 | In every run: a pending or cancelled approval is short of its requirement, an approved one has count exactly `max(1, required)`, the count is the number of approving decisions, nobody decides on his own request, and the execution is requested exactly once for each executable approved one |
| `Approvals.EmptyHasInv` | services/approval-service/app/api/routes.py:61-170 | The empty tables have this invariant |
| `Approvals.DecideKeepsInv` | services/approval-service/app/api/routes.py:93-137 | The same for one decision with its guards |
| `Approvals.DecidedKeepsInv` | services/approval-service/app/services/approval_service.py:129-155 | One decision on a pending record moves count, status and logs together |
| `Approvals.FinalRecordsNeverChange` | services/approval-service/app/api/routes.py:112-116 | Once approved, rejected or cancelled, a record never changes in any run; requester, request and requirement never change at all |
| `Entitlements.DecidersAreEntitled` | services/approval-service/app/services/approval_service.py:104-127 | In every run, the recorded decisions are, in order, decisions by somebody other than the requester whose role the first active rule of the time lists, if there is such a rule and it lists roles |
| `Entitlements.DecisionOutcome` | services/approval-service/app/api/routes.py:93-137 | What a decision answers and changes, said of the rule table: anybody else is answered Forbidden and changes nothing |
| `Entitlements.CreationOutcome` | services/approval-service/app/services/approval_service.py:50-102 | A request is filed if and only if its author is no administrator and an active rule is about its type, with the number of approvals of the first one |
| `Entitlements.StepCancelsIff` | services/approval-service/app/api/routes.py:139-170 | A step cancels a pending request if and only if it is a cancellation by its requester |
| `Entitlements.CancelledByRequester` | services/approval-service/app/api/routes.py:139-170 | A request that a run finds pending and leaves cancelled was cancelled by its requester |
| `Entitlements.ExecutedIffApprovedScript` | services/approval-service/app/services/approval_service.py:157-160 | In every run an execution is requested once for each approved request to execute a script, and for nothing else |
| `Entitlements.OnlyAdministratorsAddRules` | services/approval-service/app/api/routes.py:189-205 | In every run the rule table grows at its end, by the rules that administrators add |
| `DistinctApprovers.OneApproverSuffices` | services/approval-service/app/services/approval_service.py:140-144 | One permitted user who repeats himself meets any requirement, and is then the only new approver |
| `DistinctApprovers.DistinctApproversEnforcedIff` | services/approval-service/app/services/approval_service.py:104-147 | Whatever happens next, a pending request can only be approved with as many different approvers as it requires, if and only if each user who may approve it now would complete that number |
| `DistinctApprovers.NewRequestEnforcedIffOneRequired` | services/approval-service/app/services/approval_service.py:104-147 | For a new request that somebody may approve: if and only if it requires at most one |
| `DistinctApprovers.ApprovedBySomeone` | services/approval-service/app/services/approval_service.py:104-147 | Every run that approves a pending request has an approver who may approve it already now |
| `ApprovalServices.ApprovalService.CreateApproval` | services/approval-service/app/services/approval_service.py:71-102 | The guard of the route and the new record with the requirement of the first active rule |
| `ApprovalServices.ApprovalService.MakeDecision` | services/approval-service/app/services/approval_service.py:129-155 | Changes the one record in place and no other |
| `ApprovalServices.ApprovalService.MakeApprovalDecision` | services/approval-service/app/api/routes.py:93-137 | The guards in order, the decision, and the execution request |
| `ApprovalServices.ApprovalService.CancelApproval` | services/approval-service/app/api/routes.py:139-170 | The guards in order and the cancellation |
| `ApprovalServices.ApprovalService.CreateApprovalRule` | services/approval-service/app/api/routes.py:189-205 | Only an administrator adds a rule, and at the end of the table |

## Left out

General conventions of the model:

- Handlers are atomic steps: preemption at an `await`, such as between the capacity check of a join
  and accepting the socket, or between reading and writing a token bucket, is not modelled.
- I/O is reduced to the state it carries: sockets to numbers, the network to an arbitrary function
  that tells which sends fail and a log of sends (`wire`), Redis to values with an expiry instant, a
  database to a table of records, HTTP errors to response values, a call to the execution service to
  an entry of a log (`triggered`). JSON parsing and malformed messages are not modelled.
- A handler reads the clock once. Theorems about runs of the rate limiters suppose a clock that
  does not go backwards; those about alerts do not. A key counts as expired at its expiry instant.
- Floating-point rounding: times, tokens and metric values are reals.
- The windows and rates that the source divides by are positive.
- Operation timestamps, logging, metrics, tracing, notifications, heartbeats and session creation
  times.

Members whose contract is weaker than a reader may expect:

- CatchUp.CatchUpConverges: supposes that each step of the loop meets a branch of `transform`. For
  single pairs the necessary and sufficient condition is proved; for whole histories this one is only
  sufficient, because a later operation can undo what an unhandled pair did
  (`CatchUp.UnreconcilableMayConverge`).
- SessionLog.SubmitConverges: supposes an untrimmed log or an operation made on the current
  revision, which is exact for all submissions together, and handled pairs.
- Observers.ParticipantAgreement: covers edits made on the revision that the participant holds; the
  text after an edit that is in flight while others edit is the subject of SessionLog.SubmitConverges.
- Anomalies.ZScoreIffAnomalous: takes the standard deviation as a parameter that squares to the
  variance, as Dafny has no square root; the rounded score and expected range are not modelled.
- Placeholders.SequentialIsSimultaneous: covers templates in which no `$` is last or stands before
  `{` or a placeholder. The condition on values is exact for all such templates together, not for a
  single one.
- Alerts.FiringIsFreshlyNamed: an id is the pair of key and time; digest collisions are not
  modelled.
- AlertManagers.AlertManager.ProcessMetric: labels are given in key order, and messages, sources,
  labels and annotations of alerts are not modelled.
- ApprovalServices.ApprovalService.MakeDecision: leaves out comment, approval time and `expires_at`,
  which no decision looks at.
- Broadcast.BroadcastToSession: iterates over the connections as they are when the pass begins; the
  exception that Python raises when a dictionary changes during an awaited send is not modelled.

Parts of the repository without a model:

- `get_active_alerts`, `get_alert_stats`, `get_pending_for_user`, `reset`, `get_usage`: queries and
  resets that one reading settles.
- Slack and PagerDuty routing of alerts: two comparisons of the severity.
- `AuthRateLimiter`: its loop over ascending thresholds always stops at the first.
- `CacheManager`: its first level has no expiry and agrees with the second only under a hypothesis
  that makes the agreement easy.
- The execution lifecycle: the worker sets `RUNNING` whatever the status was, so there is no
  absorbing state to prove.
- Other execution strategies, the scheduler, cron handling, cryptography, tokens, OAuth, two-factor
  and role lookups, scanners and scores, validators, audit classification, the CRUD services, the
  frontend and the deployment files.
