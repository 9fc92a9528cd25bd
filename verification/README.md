# Verified model of the USSD platform's coordination logic

This project models, in Dafny 4.11, the parts of the USSD platform in which several actors share
state over time: the Go orchestrator's saga engine, circuit breaker, request router, event append,
outbox poller, rate limiter, webhook dispatcher and session replay, the edge node's sync loop, and the
daily cron of the Rust audit service. `dafny verify dfyconfig.toml` checks all of it.

Each object of the source that updates itself is a class whose methods carry the source's branches.
Every method is tied to a specification function or to a stated property of the old state. Where the
source runs concurrently, the same code is also a state machine with one action per atomic step (a
lock section, a cache command, a database call). The theorems quantify over every finite sequence of
actions, in any order and by any number of threads. A state is said to be reached where it has every
property of the start that all steps keep; that is the same as being where some run ends
(`Runs.ReachedByARun`).

| file | what it holds |
|---|---|
| `Runs.dfy` | runs of a state machine, kept properties, reachability |
| `CircuitBreaker.dfy` | the three-state breaker and every interleaving through the lock upgrade in `Allow` |
| `PaymentRouting.dfy` | one routed request: what it is refused for, when its payment is turned away, and how far apart rejected payments must be |
| `ConcurrentRejections.dfy` | the same with several payments in flight, on the breaker's step machine |
| `TtlCache.dfy`, `RateLimiter.dfy` | counters with deadlines; the limiter with separate `INCR` and `EXPIRE` |
| `RoutedTraffic.dfy` | how many requests of a phone number or a tenant a minute lets past the limits |
| `RateLimitStatus.dfy` | the status counter whose deadline is renewed by each request |
| `OutboxPoller.dfy` | batches of a hundred with ten retries: starvation, drain and accounting |
| `AppendEvent.dfy` | handlers and the poller interleaving over one event store: idempotency, and the handler's code |
| `EventVersions.dfy` | when an aggregate's versions are 1, 2, ..., n, on a store that rejects repeats and on one that does not |
| `SessionReplay.dfy` | folding a stream back into a session |
| `SagaEngine.dfy` | the executor: calls made, snapshots saved |
| `SagaTrace.dfy` | the calls and saves of an execution, one by one |
| `SagaRefunds.dfy` | the step handler of the payment service: what is paid and what is refunded |
| `SagaInterleaving.dfy` | StartSaga, executors and CancelSaga interleaving |
| `SagaExecution.dfy` | the executors of the interleaving machine are the loop of the engine: what they pay and refund |
| `EdgeSync.dfy` | read, send, mark over a log that others append to |
| `AuditCron.dfy` | dates covered by backfill and daily ticks |
| `WebhookDispatcher.dfy` | at most five attempts with doubling waits, and which deliveries the queue of a hundred ever reaches |

Some properties one would expect do not hold of the code. For those the project gives a run in
which they fail, together with the exact condition under which they hold:

- `Allow` can turn a caller away while the breaker is closed, because its second read of the state
  only admits in half-open. It does so exactly when, between the two reads, somebody resets the breaker
  or succeeds in half-open and no five failures in a row follow (`DeniedWhileClosedIff`,
  `DeniedWhileClosedHappens`).
- A counter can be left without a deadline for good. It is exactly when an `EXPIRE` due on it fails
  (`OrphanedIffExpireLost`, `ExpireIsLost`), and it then never resets (`LostExpireNeverResets`).
- Versions can repeat. The handler reads the version outside its transaction, the poller appends every
  row as version 1, although the payment engine writes several rows per payment
  (rust-engine/payment-engine/src/application/initiate.rs:116-122,
  rust-engine/payment-engine/src/application/callback.rs:127-133), and the table's unique constraint
  includes the recording time (postgres-schema/V003__audit_event_sourcing.sql:203). The
  versions of an aggregate stay in sequence exactly when no handler commits to it after another event of it
  since the handler's read, and no row goes to it once it has an event (`InSequenceIffUndisturbed`,
  `DuplicateVersionHappens`, `TwoOutboxRowsShareVersionOne`). They can only repeat, never leave one out
  (`NoVersionLeftOut`), so a session replays to its stored version exactly when its stream is in sequence
  (`ReplayedVersionIsLatest`). On a store that did reject repeats, the second row of a payment would
  be refused ten times and abandoned (`RowOfAnOpenStreamIsAbandoned`).
- A cancelled saga refunds nothing, so its books balance exactly when no step it ran initiates a payment
  (`CancelledSagaKeepsPayments`, `CancelledSagaUnbalanced`).
- A saga cancelled during an Execute that then fails refunds nothing either: the compensations run on the
  context that was cancelled (`CancelledWhileExecuting`, `CancelledWhileExecutingHappens`). A run that failed
  balances its books exactly when each payment could be refunded and the context was not done when it was
  tried (`FailedRunBalancesIff`).
- `CancelSaga` and the executor overwrite each other's status (`CancelOverwritesCompleted`,
  `CompletionOverwritesCancelled`). A cancelled status survives exactly when the executor has made its
  last write or must look at its context, which is done, before another step (`CancelledSurvivesIff`); a
  cancellation overwrites no ending exactly when there is none yet and the same holds
  (`OverwritesNoEndingIff`).
- A saga id started twice takes a running saga out of reach of a cancellation (`SharedIdDisplaces`,
  `SharedIdEscapesCancellation`). The entry of an id is right all along exactly when no run registers under
  it while another is active (`MapStaysExactIff`).
- The status counter loses a request whose `INCR` and `EXPIRE` fall on two sides of the deadline, and is
  right exactly when there is none (`LostRequestExample`, `CountsRightIffNoneStraddles`).
- Two tenants can share a status counter if a name has a colon (`StatusKeysShared`), and never otherwise
  (`StatusKeysApart`).
- A backfill that runs past 02:00 of the next day leaves the startup day without a batch, and a restart
  after more than 8 days leaves a gap; over any number of restarts there is never a gap exactly when
  neither happens (`LateBackfillLeavesAGap`, `CoverageIffBackfillInTime`, `NeverAGapIffAllInTime`).
- A hundred pending deliveries without an active subscription keep every later delivery from being sent,
  and a new delivery is reached exactly when there are fewer before it (`HundredStarveTheNext`, `ListedIffFewStuck`).

Where documentation and code disagree the model follows the code. docs/guardrails/security.md:223-225
asks for a token bucket of 10 and 100 requests per second; the code is a one-minute counter, with 60
per phone number and a per-tenant limit that defaults to 100. The outbox writes a retry time that no
query reads (`NoBackoff`). The step status "compensated" is written to a copy and never saved
(`EverySaveIsShaped`).

Assumptions about the world outside the model: commits are atomic, a stored idempotency key is unique
and makes a second transaction on it wait for the first; an expired cache key is absent; rows of the
outbox are ordered by distinct creation times; only pending deliveries are listed; clocks do not run
backwards; a payment call that returns an error has made no payment. Sagas start with steps that have
no output, as the gRPC server builds them
(go-orchestrator/internal/adapters/inbound/grpc/saga_server.go:36-49).

The uniqueness of idempotency keys is what the insert relies on
(go-orchestrator/internal/adapters/outbound/postgres/event_store.go:303-325), not what the schema gives:
the constraint is on the pair of application id and key
(postgres-schema/V028__core_idempotency_keys.sql:119), and the insert leaves the application id null. The
theorems on keys hold for a store that has the uniqueness.

## Model

| member | source | states |
|---|---|---|
| `CircuitBreaker.Breaker.constructor` | go-orchestrator/internal/application/service/circuit_breaker.go:25-31 | a new breaker is closed with no failures |
| `CircuitBreaker.Breaker.Allow` | go-orchestrator/internal/application/service/circuit_breaker.go:33-57 | for one caller: true exactly when not open or open for more than 30 s at the first reading; an admitted open breaker is half-open with no failures, and nothing else changes |
| `CircuitBreaker.Breaker.RecordSuccess` | go-orchestrator/internal/application/service/circuit_breaker.go:59-70 | an open breaker is left as it was; any other is closed with no failures, and the last failure time is kept |
| `CircuitBreaker.Breaker.RecordFailure` | go-orchestrator/internal/application/service/circuit_breaker.go:72-87 | one more failure, at that time; open unless it was closed and has fewer than 5 now |
| `CircuitBreaker.Breaker.Reset` | go-orchestrator/internal/application/service/circuit_breaker.go:95-100 | closed with no failures, keeping the last failure time |
| `CircuitBreaker.UninterruptedAllow` | go-orchestrator/internal/application/service/circuit_breaker.go:33-57 | a thread nobody interrupts gets from the step machine the answer and the state the method promises |
| `CircuitBreaker.StepKeepsInv` | go-orchestrator/internal/application/service/circuit_breaker.go:33-100 | every atomic step of any thread keeps the safety invariant |
| `CircuitBreaker.BreakerSafety` | go-orchestrator/internal/application/service/circuit_breaker.go:33-100 | over every interleaving: closed means fewer than 5 failures, as many as recorded since the last success, reset or creation; half-open means none; half-opening comes more than 30 s after the last failure; every true answer was read in closed or half-open |
| `CircuitBreaker.PhaseMoves` | go-orchestrator/internal/application/service/circuit_breaker.go:33-100 | what each atomic step does to the phase, both ways: open becomes half-open exactly by the write lock of a caller after more than 30 s, and that is logged, and closed exactly by a reset; half-open becomes open exactly by a failure and closed by a success or reset; closed becomes open exactly by a fifth failure |
| `CircuitBreaker.HalfOpenIffLogged` | go-orchestrator/internal/application/service/circuit_breaker.go:33-100 | over every interleaving the breaker is half-open if and only if the last thing that changed its phase was a half-opening, more than 30 s after the last failure |
| `CircuitBreaker.DeniedWhileClosed` | go-orchestrator/internal/application/service/circuit_breaker.go:40-51 | of all atomic steps only the second read turns a caller away while closed |
| `CircuitBreaker.DeniedWhileClosedIff` | go-orchestrator/internal/application/service/circuit_breaker.go:33-87 | over every run: a thread that read open and rereads is denied in closed if and only if in between a reset or a half-open success happened and no fifth failure in a row came after it |
| `CircuitBreaker.DeniedWhileClosedHappens` | go-orchestrator/internal/application/service/circuit_breaker.go:33-70 | a reachable run in which that happens |
| `PaymentRouting.Router.RoutePayment` | go-orchestrator/internal/application/service/router.go:157-199 | the engine is called exactly when the breaker admits, and the breaker records exactly that outcome |
| `PaymentRouting.Router.CheckLimits` | go-orchestrator/internal/application/service/router.go:67-91 | refuses for the first local check to fail; says exactly which counters were charged on the way |
| `PaymentRouting.Router.Screen` | go-orchestrator/internal/application/service/router.go:67-138 | the refusal is that of the first of all nine checks to fail, and the counters are charged as far as the checks got |
| `PaymentRouting.Router.RouteRequest` | go-orchestrator/internal/application/service/router.go:66-202 | a refused request touches neither payment engine nor breaker; a routed one calls the engine at most once and tells the breaker, if there is one, of exactly that call; which counters were charged in either case |
| `PaymentRouting.RefusalInNumbers` | go-orchestrator/internal/application/service/router.go:67-138 | for each of the nine refusals, and for none, exactly when it is given, in numbers: 60 requests of a phone number, and of a tenant its limit or 100 where that is 0 |
| `PaymentRouting.CountersAfter` | go-orchestrator/internal/application/service/router.go:67-91 | an invalid number leaves every counter as it was; otherwise the phone's counts one more, the tenant's if the request got as far as its limit, and no other counter changes |
| `PaymentRouting.TurnedAwayIffFiveRejected` | go-orchestrator/internal/application/service/router.go:157-199 | after any run of routed payments, the next is kept from the engine if and only if the last five or more it was asked for were all rejected, the last no more than 30 s ago; otherwise its outcome is the engine's answer |
| `RoutedTraffic.MinuteRoutesAtMost` | go-orchestrator/internal/application/service/router.go:67-91 | with a cache that does not err, over any run of requests, any 60 seconds let at most 120 requests of a phone number past its limit, and at most twice its limit of a tenant |
| `PaymentRouting.SpacedAfterFailure` | go-orchestrator/internal/application/service/circuit_breaker.go:33-87 | once the failures the breaker takes for free are used up, each further one costs more than an open period |
| `PaymentRouting.RejectionsAreSpaced` | go-orchestrator/internal/application/service/router.go:157-199 | from every breaker state any interleaving reaches, f > 5 rejections without success between them span more than 30 (f - 5) seconds |
| `PaymentRouting.ProbesFailOnSchedule` | go-orchestrator/internal/application/service/router.go:157-199 | probes just over 30 s apart, all failing, are all let through |
| `PaymentRouting.SpacingIsSharp` | go-orchestrator/internal/application/service/router.go:157-199 | five rejections at once and then one per open period, in order and without success, are possible, so the bound is tight to a nanosecond per probe |
| `ConcurrentRejections.RejectionsInFlightAreSpaced` | go-orchestrator/internal/application/service/circuit_breaker.go:33-87 | from every reachable state, over every interleaving with at most c payments in flight and no success or reset: each open period sees at most c rejections besides the four a closed breaker takes, and more than 4 + c m rejections span more than 30 m seconds |
| `ConcurrentRejections.StepStaysPaced` | go-orchestrator/internal/application/service/circuit_breaker.go:33-87 | every atomic step keeps, for the rejections and half-openings so far, the room left in the open period and the time they took |
| `RateLimiter.KeysApart` | go-orchestrator/internal/application/service/rate_limiter.go:24-30 | phone and tenant counters never collide, and equal keys mean equal owners |
| `RateLimiter.TokenBucketRateLimiter.AllowKey` | go-orchestrator/internal/application/service/rate_limiter.go:32-41 | verdict and cache of one call: a count below the limit admits and counts; the first of a counter's life gets a deadline 60 s off unless the EXPIRE fails; a cache that errors admits uncounted; no other counter changes |
| `RateLimiter.TokenBucketRateLimiter.Allow` | go-orchestrator/internal/application/service/rate_limiter.go:24-26 | the same on the phone's counter |
| `RateLimiter.TokenBucketRateLimiter.AllowTenant` | go-orchestrator/internal/application/service/rate_limiter.go:28-30 | the same on the tenant's counter |
| `RateLimiter.UninterruptedCall` | go-orchestrator/internal/application/service/rate_limiter.go:32-41 | a caller nobody interrupts gets from the step machine the verdict, the cache and one log entry of the method's call, also when the INCR errors |
| `RateLimiter.ReachableInv` | go-orchestrator/internal/application/service/rate_limiter.go:32-41 | over every interleaving, counts grow within a window, windows never go back, windows two apart are over a minute apart, and a caller about to set a deadline is alone on its key |
| `RateLimiter.WindowAdmitsAtMost` | go-orchestrator/internal/application/service/rate_limiter.go:32-41 | one life of a counter admits no more calls than the largest count it admitted |
| `RateLimiter.MinuteTouchesTwoWindows` | go-orchestrator/internal/application/service/rate_limiter.go:32-41 | the calls of any minute on a key lie in two consecutive windows |
| `RateLimiter.MinuteAdmitsAtMostTwiceTheLimit` | go-orchestrator/internal/application/service/rate_limiter.go:32-41 | over every interleaving, even when EXPIRE calls fail, any 60-second interval admits at most twice the limit per key, and one more for each INCR that errors in it |
| `RateLimiter.TwiceTheLimitIsReached` | go-orchestrator/internal/application/service/rate_limiter.go:32-41 | for every positive limit some run admits exactly twice the limit in a minute |
| `RateLimiter.ExactlyOneSetsTheDeadline` | go-orchestrator/internal/application/service/rate_limiter.go:36-39 | with no failing EXPIRE, a counter without a deadline always has exactly one caller about to set it |
| `RateLimiter.OrphanedIffExpireLost` | go-orchestrator/internal/application/service/rate_limiter.go:36-39 | over every interleaving: a key ends with a counter nobody will give a deadline if and only if an EXPIRE due on it failed |
| `RateLimiter.ExpireIsLost` | go-orchestrator/internal/application/service/rate_limiter.go:36-39 | a reachable state with such a counter, after the first call on a key |
| `RateLimiter.LostExpireNeverResets` | go-orchestrator/internal/application/service/rate_limiter.go:36-39 | after a lost EXPIRE every later call on the key, at any time, sees a count above the one it was stuck at |
| `OutboxPoller.Poller.Query` | go-orchestrator/internal/application/service/outbox_poller.go:55-60 | at most 100 rows, oldest first, unprocessed and retried fewer than 10 times; one left out comes after a hundred that were not |
| `OutboxPoller.Poller.PollOutbox` | go-orchestrator/internal/application/service/outbox_poller.go:54-103 | the loop over the selected rows changes each as its own scan, append and update went, and no other row |
| `OutboxPoller.PolledInFull` | go-orchestrator/internal/application/service/outbox_poller.go:54-103 | what a poll makes of each row, by whether the query, its scan, its append and its update went through |
| `OutboxPoller.AfterIsLater` | go-orchestrator/internal/application/service/outbox_poller.go:54-103 | over any polls a row never becomes pending again, and its retries, appends and refusals never decrease |
| `OutboxPoller.SelectedRowWearsOut` | go-orchestrator/internal/application/service/outbox_poller.go:58-98 | a selected row stays selected: after n healthy polls it has left or has n more retries |
| `OutboxPoller.TenPollsClearTheBatch` | go-orchestrator/internal/application/service/outbox_poller.go:58-98 | ten healthy polls settle every row selected at their start |
| `OutboxPoller.TenPollsAdvance` | go-orchestrator/internal/application/service/outbox_poller.go:58-98 | ten healthy polls move every row up by a whole batch or to the front |
| `OutboxPoller.NoStarvation` | go-orchestrator/internal/application/service/outbox_poller.go:54-103 | a row with p pending before it is selected within 10 (p / 100) + 1 polls, whatever appends return and whatever arrives later |
| `OutboxPoller.LeftBecauseSelected` | go-orchestrator/internal/application/service/outbox_poller.go:54-103 | a row stops being pending only by being selected |
| `OutboxPoller.StarvationBoundIsReached` | go-orchestrator/internal/application/service/outbox_poller.go:54-103 | with every append refused, the row at position p is selected by that poll and no earlier |
| `OutboxPoller.BacklogDrains` | go-orchestrator/internal/application/service/outbox_poller.go:54-103 | a closed backlog of n rows is empty after 10 ceil(n / 100) polls, whatever appends return |
| `OutboxPoller.RefusedRowIsAbandoned` | go-orchestrator/internal/application/service/outbox_poller.go:54-103 | a row that every poll refuses is abandoned, unappended, within 10 (p / 100) + 10 polls |
| `OutboxPoller.NoBackoff` | go-orchestrator/internal/application/service/outbox_poller.go:91-96 | a failed row that is still pending is selected by the very next poll |
| `OutboxPoller.RowsAccounted` | go-orchestrator/internal/application/service/outbox_poller.go:90-101 | with updates that may fail, a processed row was appended at least once and an abandoned one refused at least ten times; with none failing, no row is appended twice |
| `AppendEvent.AtMostOnceAndAllOrNothing` | go-orchestrator/internal/application/command/append_event.go:49-119 | over every interleaving: at most one event per non-empty key; a handler has its one event and its key exactly when it committed |
| `AppendEvent.FailedHandlerLeavesNothing` | go-orchestrator/internal/application/command/append_event.go:68-106 | a handler that has not committed has left neither event nor key |
| `EventVersions.VersionsStayInSequence` | go-orchestrator/internal/application/command/append_event.go:60-106 | over every interleaving on a store that rejects repeats, each event follows the latest version of its aggregate |
| `EventVersions.VersionsAreOneToLatest` | go-orchestrator/internal/application/command/append_event.go:84-102 | an aggregate in sequence has exactly the versions 1 to its latest, in commit order, whatever the others have |
| `EventVersions.ExpectedVersionIsPredecessor` | go-orchestrator/internal/application/command/append_event.go:60-106 | where its aggregate is in sequence, and so always where repeats are rejected, an event accepted under an expected version directly follows that version at its commit |
| `EventVersions.OutboxOnlyOpensStreams` | go-orchestrator/internal/application/service/outbox_poller.go:80-90 | the poller's fixed version 1 can only open a stream: on an aggregate with events it changes nothing |
| `EventVersions.InSequenceIffUndisturbed` | go-orchestrator/internal/application/command/append_event.go:60-106 | over every interleaving, on either kind of store, for each aggregate by itself: its events are 1 to n if and only if no handler commits to it after another event of it was added since that handler's version read, and no outbox row is appended to it once it has an event |
| `EventVersions.CommitInSequenceIff` | go-orchestrator/internal/application/command/append_event.go:60-106 | one commit keeps its aggregate in sequence if and only if nobody added to it between that handler's version read and the commit |
| `EventVersions.PostInSequenceIff` | go-orchestrator/internal/application/service/outbox_poller.go:80-90 | one append of the poller keeps its aggregate in sequence if and only if that has no event |
| `EventVersions.NoVersionLeftOut` | go-orchestrator/internal/application/command/append_event.go:60-106 | over every interleaving, on either kind of store, every event of an aggregate has at most the version after its latest: versions repeat but are never skipped |
| `EventVersions.InSequenceIffCounted` | go-orchestrator/internal/application/command/append_event.go:84-102 | without skipped versions an aggregate is in sequence if and only if it has as many events as its latest version says, and never fewer |
| `EventVersions.HoldsWhatItRead` | go-orchestrator/internal/application/command/append_event.go:60-97 | a handler holds, until it is done, the latest version there was when it read |
| `EventVersions.TwoOutboxRowsShareVersionOne` | go-orchestrator/internal/application/service/outbox_poller.go:80-90 | a reachable state, without any handler, with two events of version 1, in which that aggregate and no other is out of sequence |
| `EventVersions.RowOfAnOpenStreamIsAbandoned` | go-orchestrator/internal/application/service/outbox_poller.go:54-103 | on a store that rejects repeats, a row whose aggregate has an event when it is first tried is refused by every poll, whatever else happens, and abandoned |
| `EventVersions.DuplicateVersionHappens` | go-orchestrator/internal/application/command/append_event.go:60-106 | a reachable run with two events of version 1, both reported as accepted |
| `AppendEvent.AppendEventHandler.LatestVersion` | go-orchestrator/internal/adapters/outbound/postgres/event_store.go:282-293 | the loop finds the maximum version, 0 if there is none |
| `AppendEvent.AppendEventHandler.VersionTaken` | go-orchestrator/internal/application/command/append_event.go:99-102 | the loop decides whether the aggregate has an event of that version |
| `AppendEvent.AppendEventHandler.Transact` | go-orchestrator/internal/application/command/append_event.go:68-106 | event and key are both added, under version read + 1, or the store is unchanged; the outcome is that of the machine's transaction |
| `AppendEvent.AppendEventHandler.Handle` | go-orchestrator/internal/application/command/append_event.go:49-119 | outcome, events and keys of one call with other commits between its reads and its transaction are those of the machine's reads and transaction; it adds its event under version read + 1 and its key, or neither |
| `AppendEvent.HandledInFull` | go-orchestrator/internal/application/command/append_event.go:49-119 | exactly when a call ends as duplicate, as conflict, committed or accepted, by what it found and what the store answered, and under which version |
| `AppendEvent.HandleIsARunOfTheMachine` | go-orchestrator/internal/application/command/append_event.go:49-119 | from any reachable state: h's reads, any given actions of others that leave no transaction open, and h's transaction in the state after them are a run of the machine; what the others added to events and keys is named, and with it the method computes that run's outcome, events and keys |
| `SessionReplay.Session.ApplyEvent` | go-orchestrator/internal/domain/aggregate/session.go:72-94 | the new session is that of the fold step; an unrecognised event changes nothing |
| `SessionReplay.Session.ReplayAll` | go-orchestrator/internal/domain/aggregate/session.go:72-94 | applying a stream in a loop gives the fold of the stream |
| `SessionReplay.ReplayIsLastOfEachKind` | go-orchestrator/internal/domain/aggregate/session.go:72-94 | a replayed session is put together from the last event of each kind, its version counts the recognised events, and it is completed iff the last created/ended event is an ending |
| `SessionReplay.StreamLengthIsLatest` | go-orchestrator/internal/application/command/append_event.go:84-102 | over every interleaving, on either kind of store, a stream has at least as many events as its latest version says, and as many if and only if it is in sequence |
| `SessionReplay.ReplayedVersionIsLatest` | go-orchestrator/internal/domain/aggregate/session.go:72-94 | after any interleaving, on either kind of store: a stream of recognised events replays to its latest stored version if and only if it is in sequence, as it always is where repeats are rejected; a stream in sequence replays to it if and only if every event is recognised |
| `SagaEngine.Engine.StartSaga` | go-orchestrator/internal/application/service/saga_engine.go:35-49 | marks the saga running and saves it; only a successful save registers it |
| `SagaEngine.Engine.ExecuteSaga` | go-orchestrator/internal/application/service/saga_engine.go:73-117 | the forward loop's calls and saves, in order, are those of the specified log; the saga ends completed if and only if no step erred or was cancelled before, failed or cancelled if and only if the first stop is of that kind, with each step as that leaves it; it leaves the running set |
| `SagaEngine.Engine.ExecuteStep` | go-orchestrator/internal/application/service/saga_engine.go:91-110 | one step: saved as running, executed on a copy, saved with its outcome |
| `SagaEngine.Engine.CompensateSteps` | go-orchestrator/internal/application/service/saga_engine.go:119-142 | the backward loop compensates from the failed step to the first past failures, and leaves the saga's own steps unchanged |
| `SagaEngine.Engine.ExecuteSteps` | go-orchestrator/internal/application/service/saga_engine.go:80-116 | the loop alone, before the entry is deleted |
| `SagaEngine.Engine.CancelSaga` | go-orchestrator/internal/application/service/saga_engine.go:55-71 | fires the context of a registered saga; without a stored saga it fails and writes nothing; otherwise it writes cancelled over whatever status there was, changes nothing else of the snapshot and saves |
| `SagaEngine.Engine.SaveEnding` | go-orchestrator/internal/application/service/saga_engine.go:64-70 | writes an ending over whatever status there was, and saves |
| `SagaEngine.EndingIsFirstStop` | go-orchestrator/internal/application/service/saga_engine.go:80-111 | a run completes, fails at k or is cancelled at k if and only if the first stop is of that kind and at k |
| `SagaEngine.FinalInFull` | go-orchestrator/internal/application/service/saga_engine.go:80-142 | for every saga and all answers: status, current step and every single step in the end, by the first error or cancellation |
| `SagaEngine.CallsAreTheTrace` | go-orchestrator/internal/application/service/saga_engine.go:80-142 | for every saga and all answers: Execute 0..i, and if i failed Compensate i..0 where a compensation is named, each once, past compensation errors |
| `SagaTrace.TraceInFull` | go-orchestrator/internal/application/service/saga_engine.go:80-142 | of a saga that fails at f, the j-th call is the Execute of step j, marked running, and each compensation named by a step comes after those of the later ones, on that step as it was left |
| `SagaTrace.UnfailedTraceInFull` | go-orchestrator/internal/application/service/saga_engine.go:80-116 | a saga that completes, or is cancelled at k, made exactly the Executes before that, and no other call |
| `SagaTrace.ExecutesAreSavedAround` | go-orchestrator/internal/application/service/saga_engine.go:91-110 | the log of k steps is k triples: saved as running, called, saved with its outcome |
| `SagaTrace.FailedLogInFull` | go-orchestrator/internal/application/service/saga_engine.go:99-142 | a failed saga is saved as compensating, after each compensation, and at last as failed |
| `SagaTrace.UnfailedLogInFull` | go-orchestrator/internal/application/service/saga_engine.go:80-116 | a completed or cancelled one saves its ending once and last |
| `SagaEngine.EverySaveIsShaped` | go-orchestrator/internal/application/service/saga_engine.go:80-142 | every saved snapshot, also during compensation, has completed steps, then at most one running or failed, then untouched ones; CurrentStep counts the touched; completed means all completed |
| `SagaRefunds.HandlerFacts` | go-orchestrator/internal/application/service/saga_step_handler.go:28-120 | a payment step succeeds exactly when the call does, its output names the payment, and compensating it asks for exactly that refund |
| `SagaRefunds.HandlerLaw` | go-orchestrator/internal/application/service/saga_step_handler.go:28-162 | a step errs if and only if it is one that makes a call, listed by service and action, and the call errs; the message then, and the fields of the output otherwise |
| `SagaRefunds.RefundLaw` | go-orchestrator/internal/application/service/saga_step_handler.go:104-120 | compensating a step asks for the refund of a payment if and only if it is of the payment service and its output names that payment, not empty |
| `SagaRefunds.ErroredCallUndoesPayments` | go-orchestrator/internal/application/service/saga_step_handler.go:61-162 | a saga in which a status, session or payment call errs ends failed at that step, and refunds what was refundable before it |
| `SagaRefunds.FailedSagaBooks` | go-orchestrator/internal/application/service/saga_step_handler.go:61-120 | a failed saga initiated the payments before the failed step and refunded the refundable ones, latest first; the failed step causes no refund |
| `SagaRefunds.RefundConservation` | go-orchestrator/internal/application/service/saga_engine.go:99-141 | a failed saga refunded exactly the payments it initiated, with multiplicity, if and only if each had a compensation action, a non-empty id and a refund that succeeded |
| `SagaRefunds.NeverRefundedTwice` | go-orchestrator/internal/application/service/saga_engine.go:119-142 | a payment id initiated at most once is refunded at most once, whatever the compensations do |
| `SagaRefunds.CancelledSagaKeepsPayments` | go-orchestrator/internal/application/service/saga_engine.go:81-89 | a saga cancelled before step i keeps the payments of the i steps it ran and refunds none; its books balance if and only if none of these initiates a payment |
| `SagaRefunds.CancelledSagaUnbalanced` | go-orchestrator/internal/application/service/saga_engine.go:81-89 | a payment step and a cancellation after it: one payment, no refund |
| `SagaInterleaving.AtMostOneLateExecute` | go-orchestrator/internal/application/service/saga_engine.go:55-99 | over every interleaving of starts, executors and cancellations, at most one Execute of a run starts after its cancel fires, and completed means every step completed |
| `SagaInterleaving.EveryRunCloses` | go-orchestrator/internal/application/service/saga_engine.go:73-142 | over every interleaving, however it is cancelled, the executor of n steps moves at most 4n + 2 times, and can move from its registration until it has closed and no longer |
| `SagaInterleaving.RunningMapIsExact` | go-orchestrator/internal/application/service/saga_engine.go:42-47 | over every interleaving in which no id is reused while in use, the running map holds exactly the sagas registered and not finished |
| `SagaInterleaving.FinishKeepsMapIff` | go-orchestrator/internal/application/service/saga_engine.go:74-78 | a finishing executor leaves the ids in the map right if and only if no other active run has its saga id |
| `SagaInterleaving.StepKeepsExactIff` | go-orchestrator/internal/application/service/saga_engine.go:35-117 | a step of anybody keeps the entry of a saga id right if and only if it does not register a run under it while another is active |
| `SagaInterleaving.MapStaysExactIff` | go-orchestrator/internal/application/service/saga_engine.go:35-117 | over every interleaving, for each saga id by itself, its entry is right all along if and only if no such registration is ever made |
| `SagaInterleaving.SharedIdDisplaces` | go-orchestrator/internal/adapters/inbound/grpc/saga_server.go:24-28 | a reachable state in which a second run has taken over the entry of an active one |
| `SagaInterleaving.CancelledSurvivesIff` | go-orchestrator/internal/application/service/saga_engine.go:55-142 | in every reachable state a run that says cancelled will say so whatever follows if and only if its executor has made its last write, or its context is done and it is bound to look at it before another step; otherwise some continuation closes it as completed or failed |
| `SagaInterleaving.OverwritesNoEndingIff` | go-orchestrator/internal/application/service/saga_engine.go:55-71 | in every reachable state a cancellation about to write will overwrite no completed or failed, whatever happens first, if and only if there is none yet and the executor is bound to write none |
| `SagaInterleaving.SharedIdEscapesCancellation` | go-orchestrator/internal/adapters/inbound/grpc/saga_server.go:24-28 | a reachable state in which a running saga has no entry left to cancel it by |
| `SagaInterleaving.CancelOverwritesCompleted` | go-orchestrator/internal/application/service/saga_engine.go:55-71 | a reachable state in which a saga with every step completed says cancelled |
| `SagaInterleaving.CompletionOverwritesCancelled` | go-orchestrator/internal/application/service/saga_engine.go:55-117 | a reachable state in which a saga says completed after its cancellation returned |
| `SagaInterleaving.StepOnRun` | go-orchestrator/internal/application/service/saga_engine.go:35-142 | what any action of anybody may make of a run: its executor moves it, or it is registered, finished or marked cancelled |
| `SagaInterleaving.RepoIsTold` | go-orchestrator/internal/application/service/saga_engine.go:35-142 | which moves of an executor save its saga, and which do not |
| `SagaExecution.ExecutorIsTheLoop` | go-orchestrator/internal/application/service/saga_engine.go:73-142 | over every interleaving an executor of the machine stands, and ends, where the loop of the engine does in the world it has seen: contexts at its checks, answers to its steps |
| `SagaExecution.ClosedRunSaysWhatTheLoopSaves` | go-orchestrator/internal/application/service/saga_engine.go:73-142 | a closed run says what the last snapshot of the loop says in the world it has seen, or cancelled, with as many steps completed |
| `SagaExecution.FailedRunBalancesIff` | go-orchestrator/internal/application/service/saga_engine.go:99-142 | a run of the machine that says failed has failed at the step after those it completed, and its books balance if and only if each payment before had a compensation action, a non-empty id, and a refund that went well on a context not done by then |
| `SagaExecution.CancelledWhileExecuting` | go-orchestrator/internal/application/service/saga_engine.go:99-142 | a run cancelled during an Execute that then fails refunds nothing, whatever the refund calls would return on a live context; it keeps the payments before, and balances if and only if there are none |
| `SagaExecution.CancelledWhileExecutingHappens` | go-orchestrator/internal/application/service/saga_engine.go:99-142 | a run of the machine that meets these conditions, with one payment made and none refunded |
| `EdgeSync.Syncer.ReadUnsynced` | deployments/edge/edge-sync.py:44-59 | no file reads as no events; a log gives its unsynced events in order; exactly a line that is a JSON scalar raises |
| `EdgeSync.Syncer.MarkSynced` | deployments/edge/edge-sync.py:62-82 | rewrites the log with exactly the batch's ids marked; exactly a line that is a JSON scalar raises, and leaves it as it was |
| `EdgeSync.Syncer.Cycle` | deployments/edge/edge-sync.py:135-151 | the log after one turn, with others appending between read and mark, a refused batch, or a stop before marking |
| `EdgeSync.MarkedInFull` | deployments/edge/edge-sync.py:62-82 | marking drops blank lines and leaves every other line in its place, as it was or, for an event with an id of the batch, with the flag set |
| `EdgeSync.MarkingKeepsEvents` | deployments/edge/edge-sync.py:62-82 | marking keeps every event in order and changes only the synced flag, of exactly those named |
| `EdgeSync.MarkingKeepsTheRest` | deployments/edge/edge-sync.py:62-82 | marking keeps unparseable lines in order and takes exactly the named events off the unsynced list |
| `EdgeSync.AcceptedCycle` | deployments/edge/edge-sync.py:135-151 | after an accepted turn the unsynced events are those appended since the read if and only if none of them shares an id with the batch; always that list without those that do |
| `EdgeSync.UnmarkedCycle` | deployments/edge/edge-sync.py:135-151 | nothing to send, a refused batch, a stop before marking or a scalar line leaves the log as it was, with what others appended, so every event is resent |
| `EdgeSync.NothingLostNothingMarkedUnsent` | deployments/edge/edge-sync.py:44-151 | over every run of writers, turns, refusals and stops, the log holds every event written in order, and whatever no accepted batch held is still unsynced |
| `AuditCron.WaitWithinADay` | rust-engine/audit/src/main.rs:118-131 | the wait is more than 0 and at most 24 h, and ends at a 02:00, two hours into a day of 24 |
| `AuditCron.Cron.Backfill` | rust-engine/audit/src/main.rs:99-115 | the loop covers exactly those of the seven days before startup whose batch succeeds |
| `AuditCron.Cron.Run` | rust-engine/audit/src/main.rs:97-154 | one process covers those and the day before each tick, where the batch succeeds |
| `AuditCron.TicksCoverInterval` | rust-engine/audit/src/main.rs:118-153 | ticks on their due days cover consecutive dates |
| `AuditCron.CoverageIffBackfillInTime` | rust-engine/audit/src/main.rs:97-154 | covered dates have no gap if and only if the backfill ended before 02:00 of the day after startup; they are then all dates from startup minus 7 |
| `AuditCron.LateBackfillLeavesAGap` | rust-engine/audit/src/main.rs:97-154 | a backfill that ends at 02:00 of the next day leaves a gap, whatever the startup |
| `AuditCron.RestartIffWithinEightDays` | rust-engine/audit/src/main.rs:97-154 | a restarted process, with or without a tick before it stops, leaves no gap if and only if it starts at most 8 days after the last covered date and its backfill ends in time for its first tick |
| `AuditCron.NeverAGapIffAllInTime` | rust-engine/audit/src/main.rs:97-154 | over any number of restarts there is no gap after any process if and only if each is in time for what those before it covered |
| `AuditCron.RunLeavesNoGapIff` | rust-engine/audit/src/main.rs:97-154 | the dates Cron.Run adds, with batches that succeed, leave no gap if and only if the process is in time |
| `WebhookDispatcher.Delivery.RecordAttempt` | go-orchestrator/internal/application/service/webhook_dispatcher.go:122-146 | one more attempt, at that time with that code; delivered on 200 to 299, else pending up to the fourth attempt and failed at the fifth; due again exactly if pending |
| `WebhookDispatcher.Delivery.Dispatch` | go-orchestrator/internal/application/service/webhook_dispatcher.go:72-120 | a missing or inactive subscription leaves the delivery pending as it was; any answer is recorded once |
| `WebhookDispatcher.ProcessPending` | go-orchestrator/internal/application/service/webhook_dispatcher.go:61-70 | one pass dispatches each listed delivery once, independently of the others, and leaves those that are not listed alone |
| `WebhookDispatcher.DeliveryIsDecidedByAnswers` | go-orchestrator/internal/application/service/webhook_dispatcher.go:61-146 | for every sequence of ticks, outcomes and saves: delivered by a success among the first five saved answers, failed by five without one, else pending with k <= 4 attempts and due 2^k s after the last |
| `WebhookDispatcher.DeliveredIffTwoHundreds` | go-orchestrator/internal/application/service/webhook_dispatcher.go:122-146 | for every sequence of ticks: delivered if and only if one of the first five saved answers is 200 to 299, failed if and only if there are five and none is, else pending; with the code of the last one recorded and the waits in numbers |
| `WebhookDispatcher.WaitsAreKept` | go-orchestrator/internal/adapters/outbound/postgres/webhook_repo.go:174-200 | from an empty queue over any passes, a delivery with k attempts is tried again only 2, 4, 8 or 16 s after the last of them, and is listed exactly from then on with fewer than 100 due before it |
| `WebhookDispatcher.RequestsAndWaits` | go-orchestrator/internal/application/service/webhook_dispatcher.go:72-146 | requests exceed stored attempts by at most the lost saves; the waits scheduled are 2 + 4 + ... seconds over the stored attempts |
| `WebhookDispatcher.AttemptsAndWaitsBounded` | go-orchestrator/internal/application/service/webhook_dispatcher.go:122-146 | at most five requests plus one per lost save, and at most 30 s of scheduled waits |
| `WebhookDispatcher.SettledStays` | go-orchestrator/internal/application/service/webhook_dispatcher.go:61-146 | delivered and failed are final, whatever ticks follow |
| `WebhookDispatcher.ListPendingDeliveries` | go-orchestrator/internal/adapters/outbound/postgres/webhook_repo.go:174-200 | at most 100, oldest first, pending and without a retry time or past it; one left out comes after a hundred that were not |
| `WebhookDispatcher.PassUsesAttempts` | go-orchestrator/internal/application/service/webhook_dispatcher.go:61-120 | a pass uses up an attempt for each slot of its list that deliveries without an active subscription do not take, and keeps those |
| `WebhookDispatcher.ReachedWithin` | go-orchestrator/internal/application/service/webhook_dispatcher.go:61-146 | with fewer than 100 of those before it, a new delivery is listed within n + 1 passes, n being the attempts left to the others before it |
| `WebhookDispatcher.StarvedForGood` | go-orchestrator/internal/application/service/webhook_dispatcher.go:61-82 | with 100 of those before it, due, no pass ever lists it |
| `WebhookDispatcher.HundredStarveTheNext` | go-orchestrator/internal/application/service/webhook_dispatcher.go:61-82 | a hundred new deliveries to missing or deactivated subscriptions, and a new one behind them that no pass ever lists |
| `WebhookDispatcher.ListedIffFewStuck` | go-orchestrator/internal/application/service/webhook_dispatcher.go:61-146 | over enough passes a new delivery is listed if and only if fewer than 100 deliveries before it lack an active subscription |
| `RateLimitStatus.RateLimitService.RecordRequest` | go-orchestrator/internal/application/service/rate_limit_service.go:76-83 | increment and renewed deadline, and what is left when either cache call fails |
| `RateLimitStatus.RateLimitService.GetStatus` | go-orchestrator/internal/application/service/rate_limit_service.go:47-62 | limit, live count and burst of the policy, or 1000, 0 and 1000 without one |
| `RateLimitStatus.RateLimitService.Allow` | go-orchestrator/internal/application/service/rate_limit_service.go:64-74 | without a policy admits uncounted; with one, the tenant's limiter decides, at the policy's limit or 100 where that is 0, and is charged |
| `RateLimitStatus.RunLengthIsLongest` | go-orchestrator/internal/application/service/rate_limit_service.go:76-83 | the run length is the largest k for which the last k requests came under a minute apart |
| `RateLimitStatus.CounterIsRunLength` | go-orchestrator/internal/application/service/rate_limit_service.go:76-83 | the stored counter is the run length, with a deadline a minute after the last request |
| `RateLimitStatus.StatusCountsTheLongestRun` | go-orchestrator/internal/application/service/rate_limit_service.go:47-83 | among requests on any keys, the count reported for one is the length of the longest suffix of its requests with all gaps, the one to now included, under a minute |
| `RateLimitStatus.OthersDoNotMatter` | go-orchestrator/internal/application/service/rate_limit_service.go:76-83 | the counter of a key after requests on any keys is the one its own requests leave |
| `RateLimitStatus.StatusKeysApart` | go-orchestrator/internal/application/service/rate_limit_service.go:76-83 | for tenants without a colon in their names, two status keys are equal if and only if tenant and resource are |
| `RateLimitStatus.StatusKeysShared` | go-orchestrator/internal/application/service/rate_limit_service.go:76-83 | with a colon, two tenants share a status key |
| `RateLimitStatus.StraddlingRequestIsLost` | go-orchestrator/internal/application/service/rate_limit_service.go:76-83 | the first request whose INCR and EXPIRE fall on two sides of the deadline makes the count wrong |
| `RateLimitStatus.LostRequestExample` | go-orchestrator/internal/application/service/rate_limit_service.go:76-83 | two requests for which the count is wrong |
| `RateLimitStatus.CountsRightIffNoneStraddles` | go-orchestrator/internal/application/service/rate_limit_service.go:47-83 | the count is right throughout a run if and only if no request straddles the deadline |

## Left out

- Generated protobuf and gRPC code, process wiring, TLS, configuration, logging and metrics: no behaviour of their own.
- HTTP and gRPC calls and the webhook HMAC: calls are outcomes supplied to the model.
- The Postgres, Redis and in-memory adapters: they enter as the assumptions listed above.
- JSON encoding in the edge log: a line is blank, unparseable, a scalar or an event, and writing an event and reading it back gives the event.
- Type-assertion panics of the saga step handler: inputs are well typed.
- The phone number pattern, provider tables, response fields of RouteRequest, create_session and register_tenant: single branches that would only add easy members.
- DispatchEvent, which fans an event out to subscriptions: a filter.
- The edge sync path that only logs when the stubs are missing counts as an accepted batch; acceptance does not mean remote receipt.
- Appends to the edge log during its rewrite, a crash in the middle of the rewrite, and event ids that cannot be hashed.
- Poll timeouts, skipped and merged ticks, and drift between the cron's two clocks.
- Reads of a saga object between two field writes of the executor: each save is one step of the machine, as the repository keeps the saga object itself (go-orchestrator/internal/adapters/outbound/memory/saga_repo.go:23-38).
- The other Rust and Python services, and the one-off schema rewriting script.
- SagaEngine.Engine.ExecuteSaga: does not run concurrently with CancelSaga, which enters as the answers of the context; the interleaving is the subject of SagaInterleaving.
- EventVersions.VersionsStayInSequence: assumes a store that rejects a repeated version, which the schema does not; InSequenceIffUndisturbed gives the exact condition on either store.
- EventVersions.OutboxOnlyOpensStreams: assumes the same; TwoOutboxRowsShareVersionOne shows what happens on the store as it is.
- RoutedTraffic.MinuteRoutesAtMost: requests come one after another on a cache that does not err; interleaved calls and errors are in RateLimiter.MinuteAdmitsAtMostTwiceTheLimit.
- PaymentRouting.TurnedAwayIffFiveRejected: payments come one after another; payments in flight together are in CircuitBreaker.HalfOpenIffLogged and ConcurrentRejections.
- WebhookDispatcher.ListedIffFewStuck: assumes that saves succeed and that a subscription without an active endpoint stays so; lost saves are in RequestsAndWaits.
