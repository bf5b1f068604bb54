# Delegation lifecycle, verified

A Dafny model of the delegation service: the `delegations` table with its guarded updates and
`touch_row` trigger, the transactional outbox, the `processed_events` ledger, the
create-idempotency store, the list cache and a User Profile whose calls may fail at any time.
API callers, the three reconciler sweeps and the cascade consumer run concurrently; every
database transaction is one atomic step and anything may happen between two steps.

`dafny verify dfyconfig.toml` checks the whole project with Dafny 4.11.

## How the parts fit

- `Domain`, `Table`: rows, events, errors, and each SQL statement as a function of the table.
- `EventLog`, `Lifecycle`, `Runs`, `Theorems`, `Warnings`: the whole system as a transition system. A
  `Step` is one committed transaction, one sweep read or one successful User Profile call. The state
  carries a history per delegation, so that statements about runs are invariants. `Runs` shows
  that every step keeps the invariant; `Theorems` and `Warnings` draw the consequences for every run
  from the empty database. A cell (row, events, history of one id) is summarised by a `Digest`, and
  `Lifecycle.CellKept` is the heart of the proof.
- `Persistence`: class `Database` with the join-or-begin transaction and the repository methods,
  which change the store in place and are proved against `Table`. Any call may fail; a `healthy`
  database never does.
- `Service`, `Sessions`: class `World` with the use cases, step by step. Between two steps
  `Interfere` takes any number of steps of other actors, unless the world is `alone`. Every method
  keeps `Valid()`: its log is a true run of the lifecycle, so `Theorems` speaks about this code.
  Clock, membership, catalog and availability answers are the parameter `Answers`.
  Next to the specification functions, `Create`, `Cancel`, `Extend`, `Reassign`, `List`, the sweeps and
  the consumer state their outcome with fields compared directly.
- `Sweeps`, `Drain`: expiry, activation and review over the same `World`, with per-row fates from
  which counters, committed steps and User Profile calls are computed and compared. All of them run
  the same loop over a batch (`Sweeps.RunBatch`).
- `Idempotency`, `CreateOnce`: the Get / Reserve / Save / Release protocol for one key as its own
  transition system, and the code of `Create` as paths of it.
- `Cascade`, `Consumer`, `Deliveries`: the cascades, the consumer of one delivery, and whole
  queues of deliveries.
- `Transactions`: nested `RunInTx` against one flat transaction.
- `Codec`: `asciiEscape` against what a JSON text says, and the Glue header.

## Results that needed a condition

- **One row per idempotency key.** Guaranteed exactly when the key cannot expire, no Reserve fails and
  no commit's reply is lost (`Idempotency.OneRowExactlyWithoutFaults`). With faults the bound is one
  row plus one per fault (`RowsPerKey`), and it is reached for every number of each
  (`BoundIsReached`).
- **Create's out-of-office window.** It always has an end, spans at most 180 days and ends later than
  its start minus the 5 s skew, but it is a proper window exactly when `ends_at` is absent or still
  ahead (`Service.CreateWindow`); `Service.ClosedWindowIsAccepted` is an accepted request whose window
  is already over.
- **Falling review warnings.** A sweep reads its clock before its query, so a later read may carry an
  earlier clock. The announced days fall in every run with given clocks exactly when no read lies
  behind an earlier one by less than three days (`Warnings.FallsExactlyWithoutShortLag`). Sweeps with
  right clocks that overtake each other around midnight announce 2, 3, 2, 3 within one window
  (`Warnings.OvertakingSweepsAnnounceFourTimes`).
- **Only first deliveries matter.** Workers that handle one event at the same time may run its cascade
  twice. At every point of a list of deliveries the store is as after the first ones alone exactly when
  no such second run finds anything to do (`Deliveries.HarmlessExactlyWhenRepeatsIdle`), which holds
  whenever nobody but the cascades writes (`Deliveries.OverlapsAreIdle`). A delegation created between
  the transactions of two such workers is ended by the second (`Deliveries.OverlapEndsALaterDelegation`).
  One worker never repeats a cascade of its own, whatever others write (`Deliveries.Consume`).
- **Counters of a sweep.** They equal the published events (`Sweeps.TickCountersAreEffects`,
  `Sweeps.ReviewCountersAreEffects`) as long as no commit takes effect and loses its reply.

## Where code and documentation differ

- The API description of reassign (internal/adapter/inbound/http/delegation_handler.go:258) announces
  `DelegationEnded{cancelled}`; the service emits `reassigned`. The model follows the service.
- The comment of `asciiEscape` says it matches Python's `ensure_ascii`; U+007F stays as it is here.
  The model proves preservation of meaning instead of byte equality.

## Model

| member | source | states |
|---|---|---|
| Domain.DaysRemaining | cmd/reconciler/jobs/delegation_review.go:120-129 | the whole days left, rounded up, never below one |
| Domain.DaysRemainingFalls | cmd/reconciler/jobs/delegation_review.go:118-129 | a later clock never sees more days left |
| Lifecycle.CellKept | internal/adapter/outbound/postgres/delegation_repository.go:154-450 | everything any actor can do to one delegation keeps its row, events and history in agreement and only moves the row forward |
| Lifecycle.RoundGrows | cmd/reconciler/jobs/delegation_review.go:41-57 | a warning extends the running round of announcements and is what the bucket remembers |
| Lifecycle.RoundOpens | internal/adapter/outbound/postgres/delegation_repository.go:249-295 | an extension adds its window to the recorded windows and opens an empty round of announcements |
| EventLog.AcceptedIsWellOrdered | internal/core/domain/delegation.go:23-62 | every event sequence the lifecycle can produce is none, S, SE or E, warnings between S and E, escalation last and right after Ended{delegate_disabled} |
| EventLog.AtMostThreePerRound | cmd/reconciler/jobs/delegation_review.go:64-73 | strictly falling announcements between 3 and 1 number at most three per window |
| Runs.StepKeeps | internal/core/service/delegation_service.go:301-337 | every step of every actor keeps the invariant; nothing known is forgotten and rows only move forward |
| Runs.RunKeeps | internal/core/service/delegation_service.go:301-337 | so does every run, and each of its states comes after the earlier ones |
| Theorems.EventOrder | internal/core/service/cascade_service.go:44-158 | in every run each delegation's events have the promised order, match its status (scheduled: none, live active: exactly S, cancelled: one E with cancelled or reassigned) and the way it left; escalation exactly with Ended{delegate_disabled} |
| Theorems.SilentExitHasACause | internal/core/service/cascade_service.go:52-56 | an E is missing only after a delegator-side revocation or a tenant scrub, and that step is found in the run |
| Theorems.HistoryIsTheRun | internal/core/service/delegation_service.go:473-498 | the windows and announcements of a delegation are exactly those of the creates, extends and warns in the run |
| Theorems.ReviewDeadline | internal/core/service/delegation_service.go:260-264 | review_due_at is set exactly for open-ended rows and is the start plus 24 h times the sum of all windows granted; each window lies in [1,180]; scheduled rows were never extended |
| Theorems.ActivationWindow | cmd/reconciler/jobs/delegation_activation.go:30-52 | the window of every scheduled row of every run has an end, is not empty and spans at most 180 days |
| Theorems.NothingHappensEarly | internal/adapter/outbound/postgres/delegation_repository.go:320-357 | in every run a sweep acts on the row as it read it: activation not before its start, expiry only after its end, auto-end not before its deadline, warnings only in the last three days |
| Theorems.SweepStepDoes | cmd/reconciler/jobs/delegation_expiry.go:62-83 | and changes exactly its status or bucket and its version, with one event of the right kind that names its parties |
| Warnings.WarnIsLower | internal/adapter/outbound/postgres/delegation_repository.go:361-376 | a warning that passes the version check announces fewer days than the row's bucket, unless its clock lags an earlier read by less than three days |
| Warnings.WarnCascade | cmd/reconciler/jobs/delegation_review.go:20-77 | without such a lag the announced days fall strictly within 3..1 between two extensions, whatever sweeps compete, so at most three per window |
| Warnings.FallsExactlyWithoutShortLag | cmd/reconciler/jobs/delegation_review.go:20-77 | for every list of warn-read clocks: the days fall in every run with these clocks if and only if no read lies behind an earlier one by less than three days |
| Warnings.OvertakingSweepsAnnounceFourTimes | cmd/reconciler/jobs/delegation_review.go:22-37 | a run in which sweeps overtake each other around a day boundary and announce 2, 3, 2, 3 within one window |
| Theorems.NotWarnedAndEnded | cmd/reconciler/jobs/delegation_review.go:20-109 | no delegation is both warned and auto-ended by one clock, under any interleaving |
| Theorems.RowsOnlyMoveForward | internal/adapter/outbound/postgres/migrations/000001_schema.up.sql:137-149 | versions never fall, equal version means equal content, status only moves scheduled, active, terminal; soft-deleted rows change only by purge and purged rows stay away |
| Theorems.VersionedWriteIsExact | internal/adapter/outbound/postgres/delegation_repository.go:193-213 | a versioned write that succeeds acts on exactly the content its caller read |
| Theorems.OneWriterPerVersion | internal/adapter/outbound/postgres/delegation_repository.go:299-317 | at most one versioned write succeeds per version |
| Theorems.ReassignChain | internal/core/service/delegation_service.go:549-593 | every delegation has at most one successor, and of any reassignment chain at most the last member is live |
| Theorems.SuccessorIsInsertedAfterTheEnd | internal/core/service/delegation_service.go:557-592 | a successor is inserted only by the call that ended its predecessor as reassigned, and after that end |
| Theorems.AvailabilityFirst | internal/core/service/delegation_service.go:269-337 | each Started follows a successful SetAvailability for its parties, each Ended{expired, review_expired} a successful pointer clear for its delegator |
| Persistence.Database.Enter | internal/adapter/outbound/postgres/db.go:205-222 | joins the ambient transaction or begins one on the durable store |
| Persistence.Database.Leave | internal/adapter/outbound/postgres/db.go:205-222 | a joined call commits nothing; the outermost one makes everything durable or nothing, and an error is always passed on |
| Persistence.Database.Insert | internal/adapter/outbound/postgres/delegation_repository.go:154-187 | inserts a new row that satisfies every CHECK, or changes nothing |
| Persistence.Database.End | internal/adapter/outbound/postgres/delegation_repository.go:193-213 | succeeds exactly on a visible live row at the expected version; otherwise reports not found or the conflicting version and changes nothing |
| Persistence.Database.ActivateRow | internal/adapter/outbound/postgres/delegation_repository.go:225-244 | activates exactly a scheduled row at the expected version; no match is no error |
| Persistence.Database.ExtendReview | internal/adapter/outbound/postgres/delegation_repository.go:249-295 | pushes the deadline of an open-ended active row, clears its bucket, records the window; three distinct refusals, and a window outside the CHECK is rejected |
| Persistence.Database.MarkReviewWarned | internal/adapter/outbound/postgres/delegation_repository.go:361-376 | sets the bucket of exactly the active row at the expected version; a bucket outside the CHECK is rejected |
| Persistence.Database.EndForUser | internal/adapter/outbound/postgres/delegation_repository.go:387-410 | ends and soft-deletes exactly the live rows the user takes part in and returns each once |
| Persistence.Database.EndForDisabledDelegate | internal/adapter/outbound/postgres/delegation_repository.go:418-441 | ends, without deleting, exactly the live rows the user stands in for and returns each once |
| Persistence.Database.SoftDeleteTenant | internal/adapter/outbound/postgres/delegation_repository.go:445-450 | soft-deletes exactly the tenant's rows that were not |
| Persistence.Database.SoftDeletePolicy | internal/adapter/outbound/postgres/settings_repository.go:86-91 | removes the tenant's policy row |
| Persistence.Database.UpsertPolicy | internal/adapter/outbound/postgres/settings_repository.go:60-78 | replaces the tenant's policy and no other |
| Persistence.Database.MarkProcessed | internal/adapter/outbound/postgres/processed_events.go:48-58 | the key is in the ledger afterwards, whether or not it was before |
| Persistence.Database.IsProcessed | internal/adapter/outbound/postgres/processed_events.go:31-43 | tells membership in the ledger the statement sees, inside a transaction or outside |
| Persistence.Database.FindByID | internal/adapter/outbound/postgres/delegation_repository.go:113-128 | the tenant's row as the statement sees it, unless absent or soft-deleted |
| Persistence.Database.GetPolicy | internal/adapter/outbound/postgres/settings_repository.go:37-53 | the tenant's policy, or 90/90 |
| Persistence.Database.Select | internal/adapter/outbound/postgres/delegation_repository.go:320-357 | matching rows, none twice, in key order, at most the limit; what the limit cut off sorts no earlier |
| Persistence.Database.ListByDelegator | internal/adapter/outbound/postgres/delegation_repository.go:81-110 | exactly the delegator's active rows, none twice, latest start first |
| Service.TrueLogIsALegalRun | internal/core/service/delegation_service.go:301-337 | what the service and sweep methods did is a run of the lifecycle, so every theorem about runs applies to it |
| Service.EmittedIsPublished | internal/core/service/delegation_service.go:595-611 | the events a call published are in the outbox |
| Service.AcceptedRowIsInsertable | internal/core/service/delegation_service.go:172-200 | whatever passes Create's checks satisfies every CHECK constraint, and the constraints catch the invalid requests they can see |
| Service.CreateWindow | internal/core/service/delegation_service.go:269-287 | the window sent by an immediate Create fits User Profile's bounds; it is proper exactly when ends_at is absent or still ahead |
| Service.ClosedWindowIsAccepted | internal/core/service/delegation_service.go:172-200 | an accepted request whose window is already over |
| Service.BeforePolicy | internal/core/service/delegation_service.go:152-182 | the refusals that do not depend on the tenant policy, in order |
| Service.World.Preflight | internal/core/service/delegation_service.go:152-245 | refuses with the first applicable reason and otherwise hands on a valid policy, leaving no trace |
| Service.World.Announce | internal/core/service/delegation_service.go:266-292 | an immediate create tells User Profile exactly its window before any write; a scheduled one tells nothing |
| Service.World.InsertInTx | internal/core/service/delegation_service.go:301-337 | row and Started event (none for a scheduled row) commit together or not at all |
| Service.World.InsertFresh | internal/core/service/delegation_service.go:294-347 | commits exactly one fresh row made from the request, or nothing |
| Service.World.Create | internal/core/service/delegation_service.go:106-363 | commits at most one create step; the row it stores holds the requested parties, scope and times, starts scheduled exactly if it begins later, and its window and deadline follow the tenant's policy; alone and healthy the first reason to refuse in the source's order, else success; on success exactly one Started event and one call with the clamped window, both only if active; the cache entry is dropped exactly on success |
| Service.World.EndInTx | internal/core/service/delegation_service.go:435-450 | row end and event commit together or not at all, with the exact error |
| Service.World.EndForRequest | internal/core/service/delegation_service.go:435-450 | the cancelled row keeps the terms of the row read before; one step or nothing, with the exact error |
| Service.World.CancelInternal | internal/core/service/delegation_service.go:418-461 | commits exactly the cancel step the caller asked for although the event names a row read earlier; on success the status becomes cancelled, one Ended event with the caller's reason is published and that delegator's pointer is cleared |
| Service.World.Cancel | internal/core/service/delegation_service.go:465-467 | one cancel step on success and none on failure; alone and healthy: not found unless the row is visible and active or scheduled, else a conflict on another version, else exactly the status and version change and one Ended{cancelled} |
| Service.World.ExtensionWindow | internal/core/service/delegation_service.go:477-497 | the caller's window, else the row's own, else the tenant's, else 90; always within policy; the exact refusal |
| Service.World.ExtendInTx | internal/core/service/delegation_service.go:498-501 | one extend step or nothing, with the exact error |
| Service.World.Extend | internal/core/service/delegation_service.go:473-527 | one extend step on success; alone the deadline moves by exactly the caller's window, else the row's own, else the tenant's, which is recorded, and the bucket is cleared; the refusals in order; User Profile is told the new deadline |
| Service.World.EndThenCreate | internal/core/service/delegation_service.go:557-592 | ends the old delegation and then creates a successor that takes each field from the request if given and else from the old one; a failed create leaves the end committed |
| Service.World.Reassign | internal/core/service/delegation_service.go:549-593 | on success the successor has the old delegator, each other field from the request if given (an explicit null included) and else from the old row, and starts now; Ended{reassigned} and then Started are published; on failure neither step or the end alone; alone and healthy exactly the refusal, or the end followed by what Create answers to the merged request |
| Service.World.List | internal/core/service/delegation_service.go:75-89 | answers, when alone with a correct cache, exactly the delegator's active, undeleted rows of that moment, none twice, latest start first, from cache or database |
| Service.World.SetTenantPolicy | internal/core/service/settings_service.go:30-40 | stores exactly policies within [1,180] and names the field that is out of bounds |
| Service.ListingElsewhere | internal/adapter/outbound/valkey/cache.go:83-91 | a change of one row leaves the listings of all other delegators as they were |
| Service.ElsewhereOk | internal/adapter/outbound/valkey/cache.go:83-91 | dropping the changed row's own entry is enough to keep the whole cache right |
| Service.CancelRecorded | internal/core/service/delegation_service.go:418-450 | the cancel event built from an earlier read names the parties of the row that is ended |
| Service.TicketsKept | internal/core/service/delegation_service.go:557-592 | nobody else can use up the right to succeed a delegation this call has ended |
| Sessions.Serve | internal/core/service/delegation_service.go:75-593 | alone and healthy, each kind of request takes the state exactly to the state its specification says and answers exactly that |
| Sessions.Session | internal/core/service/delegation_service.go:75-89 | in any sequential session every request gets its response; every List answers what ListByDelegator would at that moment of the run, and with everything up every request is served exactly |
| Sweeps.EndTx | cmd/reconciler/jobs/delegation_expiry.go:64-81 | row end and event commit together; no match is a lost race; a failure leaves no trace |
| Sweeps.ActivateTx | cmd/reconciler/jobs/delegation_activation.go:88-105 | likewise for the activation |
| Sweeps.WarnTx | cmd/reconciler/jobs/delegation_review.go:41-57 | likewise for the warning |
| Sweeps.SweepStepsTo | internal/adapter/outbound/postgres/delegation_repository.go:193-244 | the versioned write on a row that is still as it was read is exactly the sweep's lifecycle step |
| Sweeps.EndDue | cmd/reconciler/jobs/delegation_expiry.go:62-83 | one end step or nothing; losing a race is no failure and changes nothing |
| Sweeps.EndOne | cmd/reconciler/jobs/delegation_expiry.go:24-49 | a row whose pointer could not be cleared gets no step; otherwise the clear of its delegator's pointer precedes at most one step |
| Sweeps.ActivateDue | cmd/reconciler/jobs/delegation_activation.go:86-107 | activation and Started commit together; no match is a lost race |
| Sweeps.ActivateOne | cmd/reconciler/jobs/delegation_activation.go:30-75 | User Profile is told the row's parties, its start and its end or else its deadline first; a row whose call failed gets no step |
| Sweeps.WarnDue | cmd/reconciler/jobs/delegation_review.go:39-57 | bucket and announcement commit together |
| Sweeps.WarnOne | cmd/reconciler/jobs/delegation_review.go:29-77 | passes a row over exactly when it was already told this number of days |
| Sweeps.RunBatch | cmd/reconciler/jobs/delegation_review.go:84-109 | the batch's steps, calls and counters are those of the fates of its rows, in order |
| Sweeps.Pass | cmd/reconciler/jobs/delegation_expiry.go:19-49 | the batch is exactly what the query returned on the table of one moment of the run; alone and healthy all of it is handled |
| Sweeps.Expiry | cmd/reconciler/jobs/delegation_expiry.go:16-56 | one tick does exactly that to one ordered bounded batch, read at one moment of the run, of rows whose end is past; alone and healthy exactly these are ended, whoever waits ends no earlier, and nobody waits if the backlog fits the batch |
| Sweeps.Activation | cmd/reconciler/jobs/delegation_activation.go:22-79 | likewise for scheduled rows whose start has come, none before it; every window it sends is proper |
| Sweeps.ReviewSweep | cmd/reconciler/jobs/delegation_review.go:20-116 | both passes with one clock, each on a batch read at one moment of the run; no row is in both batches; counters run through; alone and healthy the first pass tells exactly the rows within three days of their deadline, the second ends exactly those past it |
| Sweeps.ReviewLeavesNoneOverdue | cmd/reconciler/jobs/delegation_review.go:79-109 | a review tick with room for all leaves no open-ended active row past its deadline |
| Sweeps.ReviewTellsAllNear | cmd/reconciler/jobs/delegation_review.go:25-77 | with room for all, every row within three days of its deadline knows its days left, rounded up, and changed only if it did not; rows neither near nor past are untouched |
| Sweeps.WarnedIsNotDue | cmd/reconciler/jobs/delegation_review.go:20-109 | a row selected for a warning is never selected for the end by the same clock, whatever commits in between |
| Sweeps.ScheduledRowsHaveProperWindows | cmd/reconciler/jobs/delegation_activation.go:43-52 | every row an activation batch can contain yields a proper window |
| Sweeps.StepsEmit | cmd/reconciler/jobs/delegation_expiry.go:73-80 | the events a sweep published are one per committed step, of that step's kind |
| Sweeps.TickCountersAreEffects | cmd/reconciler/jobs/delegation_expiry.go:24-49 | succeeded equals the Ended{expired} or Started events the tick itself published, which are all it published; failed and deferred count exactly such rows; attempted = succeeded + failed + deferred + raced |
| Sweeps.ReviewCountersAreEffects | cmd/reconciler/jobs/delegation_review.go:63-108 | warned 3d, 2d, 1d and expired each equal the sweep's own published events of that kind, and together all of them; failed and deferred count exactly such rows |
| Sweeps.StepsAreOfTargets | cmd/reconciler/jobs/delegation_expiry.go:24-49 | every step of a batch is about a row of the batch whose call went through |
| Drain.TickDrains | internal/adapter/outbound/postgres/delegation_repository.go:320-357 | one tick leaves max(0, n - B) of the n rows overdue by an earlier clock, also when other rows became overdue since |
| Drain.TickServes | internal/adapter/outbound/postgres/delegation_repository.go:320-357 | a tick adds no overdue row, leaves the rows it does not serve unchanged and serves those with the earliest keys |
| Drain.WarningsLeaveOverdueRows | cmd/reconciler/jobs/delegation_review.go:25-77 | the warning pass neither serves, changes nor adds overdue rows |
| Drain.Drained | cmd/reconciler/jobs/delegation_expiry.go:16-56 | after k ticks exactly max(0, n - k*B) of the n rows are left, those with the latest keys and unchanged, for expiry, activation and auto-end |
| Idempotency.StepKeeps | internal/core/service/delegation_service.go:118-150 | every step of the protocol keeps the budget: vacant key, holders and rows number at most one plus the expiries |
| Idempotency.RowsPerKey | internal/adapter/outbound/valkey/idempotency.go:89-124 | in every run the rows per key are at most 1 + expiries + failed reserves + lost commits |
| Idempotency.OneRowPerKey | internal/core/service/delegation_service.go:118-150 | with none of these, at most one row and every successful call returns its id, whatever fails, crashes or interleaves |
| Idempotency.BoundIsReached | internal/core/service/delegation_service.go:118-150 | for all numbers of each fault, a run with exactly these faults and 1 + their sum rows |
| Idempotency.OneRowExactlyWithoutFaults | internal/core/service/delegation_service.go:118-150 | for all bounds on the three faults: no run within them duplicates if and only if all three are zero |
| Idempotency.ReserveErrorCanDuplicate | internal/core/service/delegation_service.go:148-149 | one failed reserve is enough for two rows and two successes |
| Idempotency.ExpiryCanDuplicate | internal/adapter/outbound/valkey/idempotency.go:16-18 | so is one expiry |
| Idempotency.LostCommitCanDuplicate | internal/core/service/delegation_service.go:139-147 | so is one commit reported as failed |
| Idempotency.IdempotencyStore.Get | internal/adapter/outbound/valkey/idempotency.go:47-67 | the stored record; an error reads as none |
| Idempotency.IdempotencyStore.Reserve | internal/adapter/outbound/valkey/idempotency.go:98-112 | claims an absent key and leaves a present one alone; a failure may or may not have taken effect |
| Idempotency.IdempotencyStore.Save | internal/adapter/outbound/valkey/idempotency.go:74-87 | overwrites whatever is there |
| Idempotency.IdempotencyStore.Release | internal/adapter/outbound/valkey/idempotency.go:115-124 | removes the key whoever holds it |
| CreateOnce.Envelope.LookUp | internal/core/service/delegation_service.go:118-134 | replays a finished key, refuses a pending one, otherwise goes on |
| CreateOnce.Envelope.ReserveKey | internal/core/service/delegation_service.go:135-149 | refuses a held key; an unreachable store lets the call go on without the reservation |
| CreateOnce.Envelope.Settle | internal/core/service/delegation_service.go:139-147 | remembers a success and gives back the key of a failure; neither can fail the call |
| CreateOnce.Envelope.Create | internal/core/service/delegation_service.go:106-363 | a success is a replay or the one row it commits; other calls and expiries may act between any two store operations and before the create; every path is a path of the protocol, so the bound on rows per key holds after it |
| CreateOnce.InsertedIsNew | internal/core/service/delegation_service.go:305-319 | a committed create inserts an id never known before |
| Cascade.CascadeService.EndForUser | internal/core/service/cascade_service.go:44-97 | announces exactly the delegate-side rows and is silent on the others, in its own or the caller's transaction, then clears exactly the pointers of the other delegators of ended rows |
| Cascade.CascadeService.ClearPointers | internal/core/service/cascade_service.go:78-88 | one attempt per ended row in order, except for the member who left |
| Cascade.IdleWork | internal/adapter/outbound/postgres/delegation_repository.go:387-450 | a cascade changes nothing if and only if there is nothing left for it to do |
| Cascade.CascadeService.EndForDisabledDelegate | internal/core/service/cascade_service.go:117-158 | each ended row is announced and right after that escalated |
| Cascade.CascadeService.ScrubTenant | internal/core/service/cascade_service.go:164-171 | scrubs rows and policy together, silently |
| Cascade.WorkIsAStep | internal/core/service/cascade_service.go:44-171 | each cascade is one step of the lifecycle |
| Consumer.CascadeConsumer.RunCascadeAndMark | internal/adapter/inbound/consumer/cascade_consumer.go:373-392 | cascade, events and ledger entry become durable together or not at all; a member's departure ends and deletes every live row on either side and announces those in which they stood in; a disabled delegate's rows are ended, announced and escalated; a purged tenant's rows and policy go silently |
| Consumer.CascadeConsumer.Dispatch | internal/adapter/inbound/consumer/cascade_consumer.go:221-258 | a processed key is skipped before its data is even decoded |
| Consumer.CascadeConsumer.SkipOrMark | internal/adapter/inbound/consumer/cascade_consumer.go:194-212 | a UserUpdated that disables nobody is only marked |
| Consumer.CascadeConsumer.MarkProcessedInTx | internal/adapter/inbound/consumer/dedup.go:48-61 | adds the key to the ledger or changes nothing |
| Consumer.CascadeConsumer.Handle | internal/adapter/inbound/consumer/cascade_consumer.go:162-259 | MembershipRevoked removes the payload's user from the payload's tenant, TenantMembershipsPurged scrubs the payload's tenant, UserUpdated{disabled} ends the rows of that delegate in the envelope's tenant, anything else is only marked; each under its own ledger key and not twice; others may write and mark between probe and transaction; an error leaves everything as they left it; healthy, it fails exactly for invalid or unreadable payloads |
| Deliveries.OnlyFirstDeliveriesMatter | internal/adapter/inbound/consumer/dedup.go:17-61 | any list of deliveries, with duplicates, failures, unknown types and foreign writes, ends as if only the first successful one under each key had run, provided no cascade that runs again finds anything to do |
| Deliveries.HarmlessExactlyWhenRepeatsIdle | internal/adapter/inbound/consumer/cascade_consumer.go:221-242 | every front of such a list ends as its first deliveries alone if and only if no cascade that runs again finds anything to do |
| Deliveries.OverlapEndsALaterDelegation | internal/adapter/inbound/consumer/cascade_consumer.go:221-242 | for any live delegation: two workers that probed before either committed, with its creation between their transactions, end it, although the first delivery alone leaves it live |
| Deliveries.Consume | internal/adapter/inbound/consumer/cascade_consumer.go:162-259 | running a queue through Handle is such a list, whatever others write meanwhile, so it ends as if only first deliveries had run; every success is marked |
| Deliveries.OverlapsAreIdle | internal/adapter/inbound/consumer/cascade_consumer.go:221-242 | when only cascades write, overlapping workers on the same events do no harm either |
| Deliveries.ConsumeAlone | internal/core/service/cascade_service.go:44-171 | a healthy consumer leaves live exactly the delegations no readable event of the queue touches by tenant and party, a function of the set of events alone; the others' rows are untouched |
| Deliveries.EachRowAfter | internal/adapter/outbound/postgres/delegation_repository.go:387-450 | a row ends live exactly if it was live and no delivered event concerns it; a row none concerns is not touched |
| Deliveries.DeliveryOrderDoesNotMatter | internal/core/service/cascade_service.go:44-171 | the same events in any order, repeated or retried, leave the same delegations live |
| Transactions.Transact | internal/adapter/outbound/postgres/db.go:205-222 | any nesting of callbacks is one flat transaction: all statements durable together or none; the durable store is unchanged at every statement and nested return passed before the outermost returns nil, and their number is fixed |
| Transactions.Call | internal/adapter/outbound/postgres/db.go:205-253 | inside a transaction every nesting level leaves the durable store alone and the pending one with exactly the statements done |
| Transactions.Execute | internal/adapter/outbound/postgres/db.go:246-253 | a statement joins the bound transaction |
| Codec.DecodeEncode | internal/adapter/outbound/eventbus/codec.go:259-260 | the decoder inverts UTF-8 encoding whatever follows |
| Codec.EncodeDecode | internal/adapter/outbound/eventbus/codec.go:259-260 | and the encoder inverts the decoder wherever a well-formed sequence starts |
| Codec.PairDecodes | internal/adapter/outbound/eventbus/codec.go:264-266 | the surrogate pair of a rune lies in range and reads back as that rune |
| Codec.EscapeIsCanonical | internal/adapter/outbound/eventbus/codec.go:264-269 | an escape is a backslash, a u and four lower-case hexadecimal digits of the unit |
| Codec.AsciiEscape | internal/adapter/outbound/eventbus/codec.go:255-272 | the loop computes the rewriting the following rows are about |
| Codec.MeaningKept | internal/adapter/outbound/eventbus/codec.go:252-272 | every JSON text says the same before and after: the same bytes outside strings and the same UTF-16 units inside them, also where strings hold ill-formed UTF-8 |
| Codec.OutputIsAscii | internal/adapter/outbound/eventbus/codec.go:255-272 | the output is ASCII for every input |
| Codec.Idempotent | internal/adapter/outbound/eventbus/codec.go:255-272 | applying it twice equals applying it once |
| Codec.PrependGlueHeader | internal/adapter/outbound/eventbus/codec.go:274-285 | version byte, no compression, the version id, the payload; an unparsable id is refused |
| Codec.HeaderRoundTrip | internal/adapter/outbound/eventbus/codec.go:142-150 | stripping undoes prepending for every payload and accepts exactly framings, up to the compression byte it ignores |

## Left out

- Deliveries.OnlyFirstDeliveriesMatter: the pruning of old ledger entries, after which a very late redelivery would run again.
- Idempotency.RowsPerKey: one (tenant, key) pair at a time; other keys live in other entries of the store. The HTTP layer guarantees a non-empty key.
- Domain.DaysRemaining: exact integer ceiling instead of floating point; the selection limits inputs to three days, where both agree.
- Service.World.List: a cache entry may lapse at any read, but cache writes and invalidations are taken to succeed.
- Service.World.Extend: no bound on the accumulated out-of-office window, since extensions add up without one.
- Persistence.Database.Leave: a commit is reported truthfully, so what the use cases and sweeps say about failed transactions, and the sweep counters, hold only then.
- CreateOnce.Envelope.Create: its own commit is reported truthfully; commits whose reply is lost are steps of other calls in the protocol.
- Library retry of deadlocked or serialization-failed transactions and Postgres isolation details: a transaction is one atomic attempt.
- Reason text, membership ids, created_at and updated_at, actor, IP and user agent: carried through unchanged. Only the length of a new reason is modelled.
- The hard purge is a step of the lifecycle with its guard, without its retention query and batch limit.
- Row-level security, role checks, HTTP handlers, DTOs, metrics, logging, configuration, clients for SNS, SQS and the Glue registry, JSON-schema validation (its verdict is an input).
- The read-only internal lookup of a department delegate and the tenant-wide list.
- Parsing of UUID texts: an envelope carries its id as sent and in canonical form, if it has one.
