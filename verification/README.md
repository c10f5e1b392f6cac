# Verification of the email-to-task pipeline

The repository turns emails into tasks. Core fetches each user's mail and publishes it in batches to a
raw queue; the analyzer turns every email of a batch into a task proposal with a language model and
publishes it to a parsed queue; the collector inserts one task per email into the `tasks` table. An auth
service issues and revokes tokens. This project models the parts of these services whose behaviour
depends on order, failure or concurrency, and proves what they promise in every run.

The modules:

- `Pipeline`: the whole chain as steps of any number of syncs, analyzer consumers and collector replicas
  over queues that deliver in any order and again after a requeue or a lost acknowledgement. Database,
  publish and model failures happen at any step, and a handler whose delivery was requeued goes on
  beside its successors. History variables record where each saved row went and what users deleted.
- `PipelineRuns`: more about its runs: what a task holds, redelivery and replay, and runs that take new
  messages to the raw queue and a queued batch to its tasks.
- `ConvertInPipeline`: the worker pool of one batch run inside the pipeline, between the steps of
  everybody else; it shows that the pipeline's steps are those of the code behind it.
- `SyncPool`, `ConvertPool` (with the multiset sums of `Workers`): the two worker pools over buffered
  channels, one channel operation per step. They share no code in Go: one collects results, the other
  closes its channels and collects errors.
- `Fairness`: the choice of integrations, least recently synced first, and how long one waits.
- `Syncer`: one `SyncIntegration` as a class method over the mail tables and the producer, proved equal
  to the function `SyncResult`, about which the batching and at-most-once results are proved.
- `Delivery`, `Analyzer`: the consumer loops that settle deliveries, and what happens to one email.
- `Retry`, `CircuitBreaker`, `SharedBudget`, `CallBudget`: the retry loop, the breaker under interleaved
  callers (one locked section per step), and the bound that both give together, for callers that share
  the breaker and for calls one after the other.
- `Auth`, `AuthRuns`, `LogoutGap`: the token rules and stores; every interleaving of requests, one clock
  reading or store access per step; and when a token can be used again, and
  for how long it can be used. The store counts TTLs in steps
  of any length: one tick of the clock is an exact store, 1_000_000 ticks is the client that sends
  whole milliseconds.
- `TaskTable`, `TaskQuery`, `Collector`: the `tasks` table and its operations, the compilation of
  filters and patches into numbered placeholders, and the classes that use both.
- `Migrations`, `UrlParsing`: the migration runner with crashes and concurrent runs, and the URL parser
  and mask.

Where an operation changes state in Go it is a method of a class whose contract gives the new state
exactly, as a function of the old one; the theorems are about those functions. Where several threads
meet, the model is a step function, and its results are invariants of every run.

Findings, each of which is a theorem with the exact condition or a concrete run:

- `SyncIntegration` panics at its final flush exactly when the number of accepted messages is a multiple
  of 7 and no publish has failed (`Syncer.PanicsExactlyWhen`): the batch pointer is nil there. That
  includes a mailbox whose unseen messages are all known (`Syncer.KnownMessagesPanic`), and
  such a panic repeats itself in every later sync until a new message arrives (`Syncer.PanicLoops`).
- Two overlapping syncs of one user can publish the same message twice
  (`Pipeline.OverlapPublishesTwice`), because the existence check and the insert are separate. Without
  overlap they cannot (`Pipeline.PublishedOnceExactlyWhen`). The collector does not merge the two: it deduplicates by row id, and each of the
  two saved rows has its own.
- A refresh that overlaps a logout can mint an access token that is alive 15 minutes after the logout
  returned (`AuthRuns.ExchangeOutlivesLogout`). The fifteen minutes hold if and only if no refresh of the
  token is past its blacklist check with its other checks still open to it
  (`AuthRuns.ExchangesDieExactlyWhen`); otherwise the duration of that refresh is added to them. A check in
  the last TTL step before the refresh token expires is the exception of the next item.
- A logged out token is used again only in the last millisecond before it expires, which the client
  may cut off its blacklist entry, or in another spelling of the same signature, which has an entry of its
  own: exactly when its own entry does not last until it expires (`LogoutGap.NeverUsedAgainExactlyWhen`).
- The workers of the analyzer share one breaker, and n of them exceed the budget of calls made one after the
  other: each round admits up to maxFailures + n - 1 calls (`SharedBudget.SharedBudget`), and that many
  can be admitted at once (`SharedBudget.BoundIsReached`).
- The collector's task list reads its rows without asking why the loop ended: a connection that breaks
  meanwhile gives a shorter list and no error (`Collector.TaskDb.GetUserTasks`).
- Nobody starves if and only if fewer integrations keep failing than a batch holds, or a batch holds them
  all (`Fairness.NoStarvationExactlyWhen`). With f failing out of N and fewer than
  a batch of B, the bound is `ceil(N / (B - f))` cycles; with B or more, every other integration is
  synced at most once more (`Fairness.NeverPickedAgain`).
- A reopened task keeps its `completed_at` (`TaskTable.ReopenedKeepsCompletionTime`).
- A caller that read Open earlier turns a Closed, healthy breaker back into HalfOpen, with any limits
  (`CircuitBreaker.StaleOpenReopensProbe`).
- The URL parser loses a user name with `:` or `@`, a password with `@` and a host with `:` or `/`, and
  no others; the mask hides every password without `@` completely, and no other one.
- The repository's own README says that the analyzer creates tasks in the Core Service. In the code
  the collector does, and the model follows the code.

## Model

| member | source | states |
|---|---|---|
| Pipeline.CoreKeepsInv | services/core/internal/imap/syncer.go:74-158 | every step of a sync (check, save, publish, publish failure, end) keeps the global invariant: each saved row has one place, pending rows are saved, batches hold at most 7, rows of one batch are distinct |
| Pipeline.AnalyzerKeepsInv | services/analyzer/internal/ai_agent/mistral/mistral.go:134-270 | delivering, replaying, publishing, acknowledging, requeueing and abandoning a batch by any number of handlers, several of one message included, keeps the invariant; an acknowledged batch has a parsed message for each of its emails |
| Pipeline.CollectorKeepsInv | services/collector/internal/rabbitmq/consumer.go:141-169 | existence check, insert, insert that commits with an error, acknowledge, drop and requeue under any number of handlers keep the invariant, including that a settled message has a task, a deletion or a recorded drop behind it |
| Pipeline.StepKeepsInv | pkg/rabbitmq/consumer.go:111-148 | every step of any service keeps the invariant |
| Pipeline.RunKeepsInv | pkg/rabbitmq/consumer.go:111-148 | every run of any length keeps the invariant |
| Pipeline.AtMostOneTaskPerKey | services/collector/internal/database/migrations/001_create_tasks_table.up.sql:23 | in every reachable state two task rows with the same (email id, user id) are the same row |
| Pipeline.EveryTaskWasSaved | services/core/internal/imap/syncer.go:115-158 | the email id of every task is a saved row, of the very user of the task, which was published; no task comes from nowhere or crosses users |
| Pipeline.AckedEmailAccounted | pkg/rabbitmq/consumer.go:111-148 | each email of an acknowledged raw batch has a parsed message that is queued or in flight, dropped by the collector, or behind which there is a task or a deleted task |
| Pipeline.DrainedMeansExactlyOnce | services/collector/internal/service/service.go:20-55 | once the queues are empty and nothing was dropped, a key that was not deleted has a task if and only if it was published, and exactly one |
| Pipeline.RowsPublishedOnce | services/core/internal/imap/syncer.go:86-104 | a saved row is in at most one published batch, at one position |
| Pipeline.MessagesPublishedOnce | services/core/internal/imap/syncer.go:117-143 | while syncs of a user never overlap, a (user, message id) is published at most once over all batches |
| Pipeline.OverlapPublishesTwice | services/core/internal/imap/syncer.go:117-143 | a run with two overlapping syncs publishes one message under two row ids |
| Pipeline.PublishedOnceExactlyWhen | services/core/internal/imap/syncer.go:117-143 | in all runs every message is published at most once if and only if syncs of one user never overlap |
| Pipeline.SavedRowHasOnePlace | services/core/internal/imap/syncer.go:74-105 | every saved row is pending in one sync, in one published batch, or stranded, and only one of these |
| Pipeline.StepStrandsOnlyPending | services/core/internal/imap/syncer.go:74-105 | only the end of a sync strands rows: exactly its pending ones, at most 7 |
| Pipeline.FirstInsertWins | services/collector/internal/service/service.go:33-54 | absent deletes, rows once inserted stay as they are, in order, over every run |
| PipelineRuns.InsertStores | services/collector/internal/service/service.go:40-54 | an insert, confirmed or not, adds one row with the key and the content of the message if the key has none; otherwise the handler meets a conflict and no row changes |
| PipelineRuns.CheckFinds | services/collector/internal/service/service.go:33-39 | the check sends a handler on to its insert exactly if the key has no task |
| PipelineRuns.TaskHoldsItsMessage | services/collector/internal/service/service.go:20-55 | in every reachable state the key and the content of a task are those of one and the same parsed message |
| PipelineRuns.FirstInsertDecides | services/collector/internal/service/service.go:33-54 | absent deletes, the task of a key holds the content of the first message that was inserted, with or without confirmation, while the key had no task |
| PipelineRuns.ReplaysMeetNoConflict | services/collector/internal/service/service.go:33-54 | replayed messages whose tasks exist never meet a unique violation: they are acknowledged, or dropped on other errors |
| PipelineRuns.RawDeliveredAgain | pkg/rabbitmq/consumer.go:111-148 | a requeued batch can be delivered to a new handler, which starts afresh; the old ones go on and cannot acknowledge it |
| PipelineRuns.ParsedDeliveredAgain | services/collector/internal/rabbitmq/consumer.go:141-169 | the same for a parsed message |
| PipelineRuns.AnythingCanFail | services/core/internal/imap/syncer.go:74-158 | whatever is under way can fail, be requeued or end at any moment |
| PipelineRuns.NewMessagesGetQueued | services/core/internal/imap/syncer.go:74-105 | whenever a sync of the user may start, some run saves any new messages and queues them in order in batches of seven, and ends |
| PipelineRuns.BatchGetsItsTasks | services/analyzer/internal/ai_agent/mistral/mistral.go:134-270 | in every state some run takes a queued batch to its tasks: acknowledged, each email published and acknowledged with its content, the missing tasks added and no other row changed |
| Pipeline.ReplayChangesNothing | services/collector/internal/service/service.go:33-54 | absent deletes, a run that only processes messages whose keys have tasks leaves the table unchanged |
| ConvertInPipeline.PoolStepAgrees | services/analyzer/internal/ai_agent/mistral/mistral.go:134-270 | each step of a pool is possible in the pipeline, as the publication or failure of one waiting email or as no step, and keeps the two in agreement |
| ConvertInPipeline.NeverRefused | services/analyzer/internal/ai_agent/mistral/mistral.go:134-270 | in every interleaving of the pool with steps of everybody else, requeues included, the pipeline never refuses a step of the pool |
| ConvertInPipeline.AckExactlyWhenNil | pkg/rabbitmq/consumer.go:111-148 | when `ConvertEmail` has returned, the pipeline allows the ack if and only if the result is nil and the delivery was not requeued, which is when the delivery loop acknowledges |
| ConvertInPipeline.OnlyRequeueDisowns | pkg/rabbitmq/consumer.go:111-148 | of all steps of others only the broker's requeue of that message takes the delivery away from a handler |
| ConvertInPipeline.RunIsReachable | services/analyzer/internal/ai_agent/mistral/mistral.go:134-270 | such interleavings are runs of the pipeline, so that all its results hold of them |
| ConvertInPipeline.DeliveryStarts | pkg/rabbitmq/consumer.go:111-148 | a delivery gives its handler a batch in which every email is waiting, and the ownership of the message |
| ConvertInPipeline.DeliveredContents | services/analyzer/internal/ai_agent/mistral/mistral.go:185-247 | from a delivery on, in every interleaving, each email that counts as published has a message in the parsed queue with its own key and the content, parsed or fallback, that the pool gave it |
| SyncPool.StepKeepsInv | services/core/internal/sheduler/sheduler.go:64-108 | every step keeps each integration in exactly one of queued, in flight, reported, collected, and decreases the measure by one |
| SyncPool.RunIsBounded | services/core/internal/sheduler/sheduler.go:64-108 | the same for runs; their length is what the measure lost |
| SyncPool.ChannelsNeverFull | services/core/internal/sheduler/sheduler.go:73-86 | no send on `jobs` or `results` ever blocks |
| SyncPool.SomeStepEnabled | services/core/internal/sheduler/sheduler.go:64-108 | with a worker, no state before the last result is a deadlock |
| SyncPool.CycleEnds | services/core/internal/sheduler/sheduler.go:64-102 | a run has at most 5n + 1 + workers steps, and where it stops all results are collected if and only if there is a worker or nothing to do |
| SyncPool.CycleComplete | services/core/internal/sheduler/sheduler.go:64-102 | when `syncAll` has its n results: each integration synced and collected exactly once, `success` is the number of successes, and no worker is still syncing, so every stamp precedes the next read |
| ConvertPool.StepKeepsInv | services/analyzer/internal/ai_agent/mistral/mistral.go:99-270 | every step of the pool keeps each email in exactly one place and decreases the measure |
| ConvertPool.RunIsBounded | services/analyzer/internal/ai_agent/mistral/mistral.go:99-270 | the same for runs of any length |
| ConvertPool.SendErrorIsSafe | services/analyzer/internal/ai_agent/mistral/mistral.go:99-270 | whenever a worker is about to send an error, `errChan` is open and has room |
| ConvertPool.SomeStepEnabled | services/analyzer/internal/ai_agent/mistral/mistral.go:99-270 | no state before the return is a deadlock |
| ConvertPool.PoolReturns | services/analyzer/internal/ai_agent/mistral/mistral.go:99-270 | a run has at most 5n + 2 steps, and one that cannot go on has returned |
| ConvertPool.EveryEmailEndsOnce | services/analyzer/internal/ai_agent/mistral/mistral.go:99-270 | at the return each email was published parsed, published as fallback or reported as an error, exactly once; nil if and only if every email was published |
| ConvertPool.FourWorkers | services/analyzer/internal/ai_agent/mistral/mistral.go:139-146 | the pool has four workers, or one for each email if there are fewer |
| Fairness.IntegrationTable.GetIntegrationsForSync | services/core/internal/database/database.go:88-111 | the rows are distinct, in order of stamp with NULL first, `min(limit, N)` of them, and no row left out is older |
| Fairness.IntegrationTable.UpdateLastSync | services/core/internal/database/database.go:113-117 | the stamp of that integration, if it is in the table, and no other, becomes the time |
| Fairness.IntegrationTable.SyncAll | services/core/internal/sheduler/sheduler.go:64-102 | one cycle, picking, syncing and stamping, is a cycle of the runs the results below are about, for any set of syncs that succeed |
| Fairness.PassedOver | services/core/internal/sheduler/sheduler.go:64-102 | a cycle that does not pick an integration moves at least B - f others from before it to behind it |
| Fairness.PickedWithinBound | services/core/internal/database/database.go:88-117 | if at most f < B integrations ever fail, every integration is picked within ceil(N/(B-f)) consecutive cycles |
| Fairness.PickedWhenNothingFails | services/core/internal/database/database.go:88-117 | if nothing fails, each is picked within ceil(N/B) cycles |
| Fairness.NeverPickedAgain | services/core/internal/database/database.go:88-117 | if B or more integrations fail for good, whatever their stamps, any other one is never picked again once it has been synced |
| Fairness.NeverSyncedFailuresStarve | services/core/internal/database/database.go:88-117 | if the B that fail are the ones never synced, they are the whole pick of every cycle and the table never changes |
| Fairness.NoStarvationExactlyWhen | services/core/internal/sheduler/sheduler.go:64-102 | some number of cycles is enough to pick every integration, from any table and in any run in which only the given f ever fail, if and only if f < B or N <= B |
| Retry.Retry | pkg/resilience/retry.go:28-62 | the loop's error, number of calls and sequence of delays under any cancellation are those of the recursive definitions the lemmas below are about |
| Retry.Uninterrupted | pkg/resilience/retry.go:28-62 | without cancellation: min(first success + 1, MaxAttempts) calls, nil if and only if one succeeded, otherwise the error of the last; one wait between any two calls and none after the last |
| Retry.NilMeansSuccess | pkg/resilience/retry.go:28-62 | under any cancellation, nil means that the last call made succeeded; an error means that no call did |
| Retry.Cancelled | pkg/resilience/retry.go:33-52 | a context that is done before attempt k, or during the wait before it, ends the loop with its error after exactly k calls and k waits |
| Retry.NoAttempts | pkg/resilience/retry.go:28-62 | `fn` is never called, for any environment, if and only if MaxAttempts <= 0, and then the result is nil |
| Retry.DelayClosedForm | pkg/resilience/retry.go:45-57 | for an integer multiplier the k-th delay is min(InitialDelay * m^k, MaxDelay) |
| Retry.TotalWait | pkg/resilience/retry.go:45-57 | for any multiplier and cancellation the waits take at most (MaxAttempts - 1) * MaxDelay |
| CircuitBreaker.CircuitBreaker.constructor | pkg/resilience/circuit_breaker.go:30-36 | a new breaker is Closed with no failure recorded |
| CircuitBreaker.CircuitBreaker.TryHalfOpen | pkg/resilience/circuit_breaker.go:46-56 | the second locked section: admits exactly when no failure is recorded or the timeout has passed, and then the state is HalfOpen with count 0; otherwise nothing changes |
| CircuitBreaker.CircuitBreaker.RecordResult | pkg/resilience/circuit_breaker.go:70-89 | the last locked section: a failure adds one to the count, stamps the time and opens at the limit; a success sets the count to 0 and closes a half-open breaker |
| CircuitBreaker.CircuitBreaker.Execute | pkg/resilience/circuit_breaker.go:39-90 | a call that nobody interrupts: refused exactly while Open before the timeout, with nothing changed; a success leaves Closed with count 0; a failure counts on from 0 after Open and opens at the limit |
| CircuitBreaker.StepIsLegal | pkg/resilience/circuit_breaker.go:39-90 | every step of any number of interleaved callers keeps the invariant; Open is left only for HalfOpen and only after the timeout, never for Closed; the last failure time never decreases |
| CircuitBreaker.RunKeepsInv | pkg/resilience/circuit_breaker.go:39-90 | the invariant and the growing failure time over every run |
| CircuitBreaker.BelowLimitUnlessOpen | pkg/resilience/circuit_breaker.go:70-89 | in every run from a new breaker, a state other than Open has 0 <= failures < maxFailures |
| CircuitBreaker.OpeningNeedsFailures | pkg/resilience/circuit_breaker.go:49-89 | a run that ends Open recorded enough failures to bring the count to maxFailures: from HalfOpen too |
| CircuitBreaker.CountIsInARow | pkg/resilience/circuit_breaker.go:49-84 | after every run the count is the number of failures in a row, from the last success or probe on |
| CircuitBreaker.OpensExactlyWhen | pkg/resilience/circuit_breaker.go:75-89 | after every run, a step opens the breaker if and only if it records a failure that makes maxFailures in a row, with no success and no probe among them |
| CircuitBreaker.OpeningNeedsARow | pkg/resilience/circuit_breaker.go:75-89 | every run from another state to Open has such a step |
| CircuitBreaker.OpenLasts | pkg/resilience/circuit_breaker.go:44-56 | a run that leaves Open lasted until resetTimeout after the last failure recorded at its start |
| CircuitBreaker.OpenAdmitsOnlyEarlierReaders | pkg/resilience/circuit_breaker.go:39-68 | before the timeout the breaker stays Open and admits no more calls than there were callers past their read |
| CircuitBreaker.StaleOpenReopensProbe | pkg/resilience/circuit_breaker.go:39-90 | for all limits a run from a new breaker in which a probe closes it and a caller that read Open before takes it from Closed to HalfOpen |
| CircuitBreaker.ClosedReopensExactlyWhen | pkg/resilience/circuit_breaker.go:44-56 | a step takes Closed to HalfOpen if and only if it is the second section of a caller that read Open, and the timeout has passed |
| CallBudget.Rounds | pkg/resilience/circuit_breaker.go:44-81 | over failing calls one after the other, admitted = probes * maxFailures + current count, and each probe costs a resetTimeout of elapsed time |
| CallBudget.AttemptsPerCall | services/analyzer/internal/ai_agent/mistral/mistral.go:162-179 | an admitted call makes at most MaxAttempts attempts, a refused one none |
| CallBudget.AttemptsUsedUp | services/analyzer/internal/ai_agent/mistral/mistral.go:162-179 | with no cancellation and no success an admitted call makes exactly MaxAttempts attempts |
| CallBudget.Budget | pkg/resilience/circuit_breaker.go:44-81 | the sequential case: over calls one after the other that take time T and never succeed, at most (1 + floor(T/resetTimeout)) * maxFailures * MaxAttempts attempts |
| SharedBudget.LedgerKept | pkg/resilience/circuit_breaker.go:39-90 | every step of any number of failing callers keeps the books: each round admits at most maxFailures + n - 1 calls and takes a resetTimeout |
| SharedBudget.AdmissionsBounded | pkg/resilience/circuit_breaker.go:39-90 | in every interleaving of n callers in which `fn` never succeeds, at most (1 + floor(T/resetTimeout)) * (maxFailures + n - 1) calls are admitted in time T |
| SharedBudget.SharedBudget | services/analyzer/internal/ai_agent/mistral/mistral.go:145-179 | the main bound: n workers on one breaker, each call a `Retry`, make at most (1 + floor(T/resetTimeout)) * (maxFailures + n - 1) * MaxAttempts attempts in time T without success |
| SharedBudget.FailingSchedulePlays | services/analyzer/internal/ai_agent/mistral/mistral.go:162-179 | the assignment of calls to schedules that the bound asks for exists for every schedule in which `fn` always fails |
| SharedBudget.BoundIsReached | pkg/resilience/circuit_breaker.go:39-90 | for all limits and n >= 1 a schedule admits maxFailures + n - 1 calls in no time, so that the bound cannot be improved |
| SharedBudget.AttemptsUsedUp | services/analyzer/internal/ai_agent/mistral/mistral.go:162-179 | admitted calls that nobody cancels and that fail to the end use up MaxAttempts attempts each |
| Analyzer.CallModel | services/analyzer/internal/ai_agent/mistral/mistral.go:158-184 | no error means that `resp` is the answer of the last attempt, which succeeded, and not of an earlier one |
| Analyzer.ProcessEmail | services/analyzer/internal/ai_agent/mistral/mistral.go:149-247 | an email is published parsed, published as fallback (exactly when the call failed and the breaker is open afterwards) or in error, each if and only if its condition holds, with the ids, sender and content that belong to it and the error of the step that failed |
| Delivery.Consumer.ConsumeMessage | pkg/rabbitmq/consumer.go:111-148 | each delivery is acknowledged iff its handler and the ack succeed, otherwise requeued iff the nack does, and never dropped; the flag is set iff one was acknowledged |
| Delivery.ProcessMessages | services/collector/internal/rabbitmq/consumer.go:122-169 | each delivery is acknowledged iff its handler and the ack succeed, dropped iff the handler fails and the nack succeeds, and never requeued |
| Auth.BlacklistRepo.AddToken | services/auth/internal/repository/redis/blacklist.go:23-37 | the entry lapses a TTL, in whole steps of the store, after the store executed the command; nothing is sent for a TTL that is not positive, so that cannot fail |
| Auth.UserRepo.Create | services/auth/internal/repository/postgres/user.go:31-62 | a row with version 1 exactly when id and email are new; emails stay unique |
| Auth.UserRepo.UpdatePassword | services/auth/internal/repository/postgres/user.go:129-147 | password and version + 1 of that row only; no row is no error |
| Auth.UserRepo.IncrementVersion | services/auth/internal/repository/postgres/user.go:110-127 | version + 1 of that row only |
| Auth.AuthService.ValidateToken | services/auth/internal/usecase/service/auth.go:180-227 | the user iff both stores answer and the token is an unlisted, live access token of a known user; a revoked token gets none, unless it is checked in the last TTL step of its life |
| Auth.AuthService.RefreshToken | services/auth/internal/usecase/service/auth.go:113-178 | a new access token, with the user and email of the token, an expiry in fifteen minutes and the time, iff both stores answer and the token is an unlisted, live refresh token with the current version of its user; a revoked one gets none, unless it is checked in the last TTL step of its life |
| Auth.AuthService.Logout | services/auth/internal/usecase/service/auth.go:229-253 | on success both tokens are revoked, although the clock was read six times on the way; no revoked token loses that. It fails exactly when a store access that was needed does, and the entries it leaves are given for either case |
| Auth.AuthService.ChangePassword | services/auth/internal/usecase/service/auth.go:280-302 | succeeds iff the old password matches; then only this user changes, with version + 1 |
| Auth.RevokedIsRefused | services/auth/internal/usecase/service/auth.go:113-127 | a revoked token that passes the blacklist check is in the last TTL step of its life, and with an exact store it is expired when it is parsed later |
| Auth.EntryRevokes | services/auth/internal/usecase/service/auth.go:229-278 | an expiry read, a TTL computed and an entry set at three later and later times still cover the life of the token, up to the last TTL step |
| Auth.EntryCoversExactlyWhen | services/auth/internal/repository/redis/blacklist.go:23-37 | for any resolution the entry lasts as long as a live token if and only if the part cut off its TTL is no more than the time until the store sets it |
| Auth.OnlyThatSpelling | services/auth/internal/usecase/service/auth.go:108-111 | an entry revokes the token as it is spelled: for every other spelling nothing changes |
| Auth.EntryLength | services/auth/internal/usecase/service/auth.go:229-253 | the entry for a live token outlasts the token by no more than the time until it is set and one TTL step |
| Auth.AccessTokenLifetime | services/auth/internal/usecase/service/auth.go:82-93 | an access token is dead 900 seconds after it was minted, and alive until a second before that |
| Auth.RefreshTokenLifetime | services/auth/internal/usecase/service/auth.go:95-106 | a refresh token is dead 604800 seconds, seven days, after it was minted, and alive until a second before that |
| Auth.AliveAfterLifetime | services/auth/internal/usecase/service/auth.go:82-93 | a token is alive 15 minutes after t if and only if it was minted in a later second than t |
| Auth.SameSecondSameToken | services/auth/internal/usecase/service/auth.go:82-93 | two access tokens of a user are the same if and only if they were minted in the same second |
| AuthRuns.RevokedKept | services/auth/internal/usecase/service/auth.go:229-253 | no step of any request makes a revoked token acceptable again, not even another Logout of it |
| AuthRuns.AcceptedUse | services/auth/internal/usecase/service/auth.go:113-227 | in every run, every token accepted was alive at its check, of the type asked for and of a known user, and exactly the refresh tokens were exchanged, for a token with the user, its email and an expiry fifteen minutes later |
| AuthRuns.RunKeepsEmails | services/auth/internal/repository/postgres/user.go:31-62 | in every run no two users have the same email address |
| AuthRuns.LogoutKept | services/auth/internal/usecase/service/auth.go:229-278 | every expiry and TTL that a running Logout holds covers its token, in every interleaving |
| AuthRuns.RefusedForEver | services/auth/internal/usecase/service/auth.go:113-227 | once revoked, no check made in that step or a later one, in any run, lets the token be accepted, up to the last TTL step of its life |
| AuthRuns.LogoutIsPermanent | services/auth/internal/usecase/service/auth.go:229-253 | in every run from the start, whoever else logs the token out again, a use of a token whose Logout is done had made its blacklist check in a step before that, or in the last TTL step before it expires; with an exact store there is no such step |
| LogoutGap.NeverUsedAgainExactlyWhen | services/auth/internal/usecase/service/auth.go:113-253 | in every reachable state, a token issued here, in any spelling, that nobody is logging out is never used again in any future without another Logout of it if and only if it has expired, its own entry lasts until it has, or its version is out of date |
| LogoutGap.TokenLasts | services/auth/internal/usecase/service/auth.go:113-227 | a token that nobody ever logs out is accepted in every reachable state in which it is alive and its user matches |
| LogoutGap.SessionLasts | services/auth/internal/usecase/service/auth.go:55-106 | after a sign-in, in every run in which nobody logs the token out, its access token validates up to 899 seconds later and its refresh token is exchanged up to 604799 seconds later while the version is the same |
| LogoutGap.SignInServes | services/auth/internal/usecase/service/auth.go:55-106 | the same from the moment the user is read with the right password: both tokens serve their time unless they are logged out or, for the refresh token, the password is changed |
| AuthRuns.ExchangesDieExactlyWhen | services/auth/internal/usecase/service/auth.go:113-178 | when a Logout of an issued refresh token, in whatever spelling, is done, every access token exchanged for it, before or in any future, after a check not in its last TTL step, is dead 15 minutes later if and only if no refresh of it is past such a check with its other checks still open to it |
| AuthRuns.NoExchangeForEver | services/auth/internal/usecase/service/auth.go:113-178 | without such a refresh no run exchanges the revoked token again after a check not in its last TTL step |
| AuthRuns.ExchangedAliveExactlyWhen | services/auth/internal/usecase/service/auth.go:113-178 | for every exchange in every run and any t, the new token is alive at t + 15 minutes if and only if it was minted in a later second than t |
| AuthRuns.ExchangedTokensDie | services/auth/internal/usecase/service/auth.go:113-178 | a refresh that overlaps the logout adds at most its own duration to the 15 minutes; exchanges before the logout add nothing |
| AuthRuns.ExchangeOutlivesLogout | services/auth/internal/usecase/service/auth.go:113-178 | at any time such an overlap is reachable, and its token is alive 15 minutes after the logout |
| AuthRuns.VersionsNeverDecrease | services/auth/internal/repository/postgres/user.go:129-147 | no step removes a user or decreases a version |
| AuthRuns.StaleForEver | services/auth/internal/usecase/service/auth.go:163-170 | a refresh token with an earlier version is never accepted if its user lookup is in that step or a later one, in any run |
| AuthRuns.PasswordChangeRevokes | services/auth/internal/usecase/service/auth.go:280-302 | when a password change writes, the user has the new password and version + 1, no other password signs in or changes it, every refresh token issued to the user so far, in any spelling, is stale and so is the version of every sign-in still running; none of them is accepted, in any run, unless it was looked up in a step before the change |
| Syncer.Producer.PublishEmailBatch | services/core/internal/rabbitmq/producer.go:39-76 | an empty batch publishes nothing; otherwise one attempt, and on success the batch, message by message and field by field, with a missing date or timestamp, and only that, replaced by the time |
| Syncer.NothingToDefault | services/core/internal/rabbitmq/producer.go:39-76 | a batch without missing dates is published unchanged: same length, order and fields |
| Syncer.MailSyncer.ProcessMessage | services/core/internal/imap/syncer.go:115-158 | a message is accepted exactly when no step fails and the user has no row with its id, and then it is saved and handed on with its own fields |
| Syncer.MailSyncer.AddToBatch | services/core/internal/imap/syncer.go:86-98 | the pending batch holds what is left over after full batches of 7; a full one is published at once |
| Syncer.MailSyncer.OneMessage | services/core/internal/imap/syncer.go:74-98 | one turn of the loop |
| Syncer.MailSyncer.Finish | services/core/internal/imap/syncer.go:99-113 | the final flush and the stamp, or the nil dereference |
| Syncer.MailSyncer.ProcessMessages | services/core/internal/imap/syncer.go:74-98 | the loop: all messages taken in order, or the end at a failed batch |
| Syncer.MailSyncer.SyncIntegration | services/core/internal/imap/syncer.go:29-113 | rows, batches, stamp and outcome of a whole sync, for every fetch, message fault, publish failure and stamp failure; the integration is stamped with the time exactly if the outcome is Synced, and no other stamp ever changes |
| Syncer.OutcomeOf | services/core/internal/imap/syncer.go:29-113 | the outcome by its numbers: which one it is from the messages saved, the batches of seven sent and the publication that fails; rows and batches only grow |
| Syncer.SyncsMakeCycle | services/core/internal/sheduler/sheduler.go:64-102 | the syncs of the integrations picked, in any order, make a cycle of the fairness results: the successful ones are stamped and all others keep their place |
| Syncer.PanicsExactlyWhen | services/core/internal/imap/syncer.go:100 | the nil dereference happens if and only if something was fetched, no full batch failed, and 7 divides the number of accepted messages |
| Syncer.KnownMessagesPanic | services/core/internal/imap/syncer.go:74-100 | a non-empty fetch of messages that were all saved before always ends in the nil dereference, with nothing changed |
| Syncer.PanicRepeats | services/core/internal/imap/syncer.go:74-100 | after a panic without message faults, a sync that fetches some of the same messages and no new one panics again and changes nothing, its stamp included |
| Syncer.PanicLoops | services/core/internal/imap/syncer.go:74-100 | so after any number of such syncs the rows, the batches and the stamps are those that the first panic left |
| Syncer.SyncedPublishesAll | services/core/internal/imap/syncer.go:74-105 | a sync that gets to its stamp published batches that concatenate to the accepted messages in order, all of 7 but the last, which is shorter and not empty |
| Syncer.FullBatchesFlatten | services/core/internal/imap/syncer.go:86-98 | the full batches and the rest are the accepted messages in order, every full batch has 7 |
| Syncer.SyncAdds | services/core/internal/imap/syncer.go:74-105 | in every outcome, what was saved is what was published followed by what was lost; a failed publish loses at most one batch, everything else loses none |
| Syncer.AcceptedKeepsDistinct | services/core/internal/imap/syncer.go:115-143 | saved (user, message) keys stay pairwise distinct, also when a fetch holds duplicates |
| Syncer.PublishedAtMostOnce | services/core/internal/imap/syncer.go:29-158 | over any sequence of syncs of any users: published keys are distinct and saved, and what is saved but not published is at most 7 rows per failed sync |
| TaskTable.OpKeepsUnique | services/collector/internal/database/migrations/001_create_tasks_table.up.sql:23 | every operation keeps ids and (email, user) keys unique |
| TaskTable.Lifecycle | services/collector/internal/database/database.go:41-243 | after any sequence of operations: completed implies `completed_at` set, and `completed_at` is set exactly for rows completed since they were inserted |
| TaskTable.ReopenedKeepsCompletionTime | services/collector/internal/database/database.go:139-203 | a task completed and then set to pending keeps `completed_at` |
| TaskTable.UsersAreIsolated | services/collector/internal/database/database.go:139-243 | a sequence of one user's operations leaves the rows of all others as they were, in order |
| TaskQuery.BuildConditions | services/collector/internal/database/database.go:72-102 | the generated conditions hold of a row exactly when the filter matches it, and the placeholders are $1 to $n, each used once |
| TaskQuery.BuildSelect | services/collector/internal/database/database.go:72-137 | the same for the whole statement with LIMIT and OFFSET, which are left out when not positive |
| TaskQuery.SelectMeansFilter | services/collector/internal/database/database.go:72-137 | on every table the statement answers the rows, order and page of the filter itself |
| TaskQuery.SelectedIsComplete | services/collector/internal/database/database.go:72-137 | without a page the answer holds each row of the user with the status, priority and deadline range asked for as often as the table and no other, earliest deadline first, none last, ties newest first |
| TaskQuery.SelectedIsPage | services/collector/internal/database/database.go:72-137 | row i of a page is row offset + i of the answer without a page, and the page has limit rows or what is left |
| TaskQuery.OrderRowsOrdered | services/collector/internal/database/database.go:104 | ORDER BY gives an ordered permutation |
| TaskQuery.BuildSets | services/collector/internal/database/database.go:139-178 | the SET list patches a row as the patch says, every argument used once; there is none exactly for an empty patch |
| TaskQuery.BuildUpdate | services/collector/internal/database/database.go:139-186 | the same with the id and user placeholders of the WHERE clause; no statement for an empty patch |
| TaskQuery.UpdateMeansPatch | services/collector/internal/database/database.go:139-203 | on every table the statement changes exactly the row of that id and user, by exactly the patch |
| Collector.TaskDb.CreateTask | services/collector/internal/database/database.go:41-49 | inserts, or fails on the connection or a row with that id or key and changes nothing |
| Collector.TaskDb.GetUserTasks | services/collector/internal/database/database.go:72-137 | the compiled query answers what the filter selects; an error iff the query or the scan of an arriving row fails; a connection that ends early leaves a prefix and no error |
| Collector.TaskDb.UpdateTask | services/collector/internal/database/database.go:139-203 | unless the statement fails or the patch is empty, each column of the row is the one in the patch or as before, the times follow, and all other rows are as before; not found iff nothing failed, the patch is not empty and there is no such row |
| Collector.TaskDb.CompleteTask | services/collector/internal/database/database.go:224-243 | unless the statement fails, the row with this id and user has status completed and both times set, its other columns and all other rows as before; not found iff nothing failed and there is none; a lost row count is an error although the row is changed |
| Collector.TaskDb.DeleteTask | services/collector/internal/database/database.go:205-222 | unless the statement fails, the row with this id and user is taken out and the others stay in order; not found iff nothing failed and there is none; a lost row count is an error although the row is gone |
| Collector.TaskService.HandleEmailMessage | services/collector/internal/service/service.go:20-55 | nil iff the body decodes, the check answers, and the key exists or its insert succeeds; exactly then and only for a new key one row is added, pending, with the ids, title, description and deadline of the message |
| Migrations.StepKeepsInv | services/auth/cmd/migrate/main.go:82-135 | any step or crash of any number of runs keeps: recorded versions are a prefix of the files, the schema is that prefix applied once in order |
| Migrations.AlwaysAPrefix | services/auth/cmd/migrate/main.go:59-64 | the same over every run, and the recorded prefix never shrinks |
| Migrations.FinishedMeansMigrated | services/auth/cmd/migrate/main.go:43-64 | from an empty database, when some run got past its last file, all files are recorded and applied once, in order |
| Migrations.OneMoreRunCompletes | services/auth/cmd/migrate/main.go:43-64 | whatever has failed or crashed before, one more run that nothing interrupts leaves all files applied once, in order |
| Migrations.DeathLosesNothing | services/auth/cmd/migrate/main.go:82-135 | a process that dies leaves the database as it is, cannot commit any more, and can be started again |
| Migrations.Migrator.RunMigration | services/auth/cmd/migrate/main.go:82-135 | success iff no statement failed, or the file was recorded and the check answered; the file is applied and recorded together or not at all |
| Migrations.Migrator.Migrate | services/auth/cmd/migrate/main.go:43-64 | from any prefix, with faults at any file: a longer or equal prefix; the whole list on success; success when nothing fails |
| UrlParsing.RabbitMQConfig.ParseRabbitURL | services/core/internal/config/config.go:124-146 | the fields the parser assigns, the others left as they were |
| UrlParsing.ParsedParts | services/core/internal/config/config.go:124-146 | a parsed user holds no `:` or `@`, a parsed password no `@`, a parsed host no `:` or `/` |
| UrlParsing.ReadsItsParts | services/core/internal/config/config.go:124-146 | for every address in its parts: the host is read, the port if there is one and it is a number and otherwise kept, user and password if there is a colon and otherwise kept, the rest kept |
| UrlParsing.NoAddress | services/core/internal/config/config.go:124-130 | without an `@` all settings are kept |
| UrlParsing.AtoiExactlyWhen | services/core/internal/config/config.go:138-143 | a port is a number exactly if it is a sign or none and digits, with a value in 64 bits, which is then read |
| UrlParsing.AtoiItoa | services/core/internal/config/config.go:138-143 | a 64-bit port printed in decimal parses to itself |
| UrlParsing.RoundTripsExactlyWhen | pkg/rabbitmq/rabbitmq_conn.go:24-30 | parsing the printed address gives back user, password, host and port if and only if the user has no `:` or `@`, the password no `@`, the host no `:` or `/` |
| UrlParsing.MaskIsIdempotent | services/core/internal/config/config.go:88-105 | masking twice is masking once, for every string |
| UrlParsing.MaskShowsTheRest | services/core/internal/config/config.go:88-105 | a string without credentials is shown unchanged |
| UrlParsing.MaskHidesExactlyWhen | services/core/internal/config/config.go:88-105 | on a URL with credentials the mask replaces the password, whatever it is, if and only if it holds no `@` |

## Left out

- Raw messages whose body cannot be decoded: the analyzer requeues them for ever, so they add nothing to what is proved about the others.
- Errors of `SaveEmail` and `PublishMessage` mean that nothing was saved or enqueued. Only the insert of a task also has the outcome that it commits and the caller sees an error.
- The collector's handler is in `Pipeline` as check, insert and settle steps, and in `Collector` as one method; nothing but the shared conditions connects these two. The interleaving of the pool is in `SyncPool`, and what its syncs do to the stamps in `Syncer.SyncsMakeCycle`.
- Calls that never return: the pools' results hold on the assumption that syncs and model calls do.
- A panic ends the process. `Syncer` has it as an outcome of one sync; `Pipeline` ends the sync there, like any failure.
- Integrations added, removed or paused between two cycles of a fairness bound.
- AuthRuns.LogoutIsPermanent: permanence is for the string that was logged out. That a signature has only one spelling is false of the JWT library, which does not decode strictly; another spelling has a blacklist entry of its own (`Auth.OnlyThatSpelling`) and is refused exactly as `LogoutGap.NeverUsedAgainExactlyWhen` says.
- Redis evictions and flushes; SHA-256 ids are taken as injective, and a token as its claims and its spelling.
- Fairness.IntegrationTable.GetIntegrationsForSync: a failing query makes no cycle, and a connection that ends while the rows are read, which gives a shorter pick, is not modelled.
- bcrypt, JWT signing and AES: a password matches itself only, and a token is either minted here or refused.
- Overflow of the 32-bit version counter and of 64-bit durations; the delay multiplier is a real number without rounding.
- Auth.UserRepo.Create: the row's two timestamps, which nothing reads, are not part of the model; the same holds for the other user operations.
- TaskQuery.BuildSelect: the statement is a list of clauses and placeholder numbers, not SQL text, and rows with equal deadline and `created_at` come in the order of the table.
- Analyzer.ProcessEmail: the configured number of attempts is at least 1, as the constructor sets it (mistral.go:74-79); with 0, `Retry` gives nil without an answer (`Retry.NoAttempts`).
- Clocks, generated ids and the priority computed from the deadline are parameters.
- Migration file discovery and sorting: the list of files is given, sorted and without duplicates.
- IMAP access, message parsing, the model's prompt and JSON, AMQP connections and declarations: any outcome is possible.
- HTTP handlers, routing, middleware, `normalizeKey`, UUID checks, task statistics, `IsConsumed` and `IsPublished`, `IsRetryableError` (which only changes a log line): each is one branch.
