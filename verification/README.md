# Verified models of the platform's stateful components

This project models the parts of the services (gateway, user, admin) whose guarantees hold over whole
runs, and proves those guarantees for every run. Most components come in three layers:

- **a step system**: a state, a set of atomic actions and a total function `Step` in which an action that does
  not apply changes nothing, so that *any* sequence of actions is a run. One action is one critical section, one
  script execution, one database call or one event at the broker, and every call can fail, or take effect while
  its report is lost;
- **guarantees**: invariants kept by every step, and theorems over all runs;
- **a program**: classes with the source's fields, whose methods update them as the source does. An abstraction
  function reads a state of the step system off the fields, and each method is proved to move it only by steps while
  arbitrary other actions are let in between its calls, so that the theorems apply to it. The pipeline's broker and database
  have no fields of their own in the source; there the publisher and the consumer act on the step system's state.

| component | files |
|---|---|
| Redis sliding-window limiter | `RateLimiter`, `RateLimiterHistory`, `RateLimiterPromises` |
| operation-log pipeline on RabbitMQ | `OperationLog`, `Topology`, `Pipeline`, `PipelineGuarantees`, `PipelineProgress`, `PipelineHeaders`, `PipelineProgram` |
| AMQP connection | `AmqpClient`, `AmqpClientProgram` |
| gRPC client manager | `ClientManager`, `ClientManagerProgram` |
| ID generator and shard router | `Snowflake`, `SnowflakeRuns`, `Sharding` |
| sharded first-login creation and user pages | `UserStore`, `UserStoreProgress`, `UserStoreReports`, `UserStoreProgram`, `UserPages` |
| one-time Keycloak binding | `AdminBinding`, `AdminBindingProgress`, `AdminBindingReads`, `AdminBindingProgram` |
| Consul address resolver | `Resolver` |
| runtime configuration | `RuntimeConfig` |
| shared | `Runs`, `Common`, `Bits`, `Ordering`, `Text` |

Check the whole project with `dafny verify dfyconfig.toml`.

## Where the code does less than it seems to

Except for the last, each of these is a lemma with a concrete input, beside a lemma that says exactly when the code does
meet the property.

- **Binding.** A request that did not find its subject, and looks for the name only after another request of the same
  person has bound it, is refused although the administrator is now its own: `LateRacerIsRefused`.
  `RacersAreFoundUnlessTooLate` proves that this is the only way to lose a race.
- **Limiter.** `PEXPIRE` counts on the server's clock and the scores on the gateway's. If a later call takes longer
  to reach the server than the admission did, the key can be gone while an admission is still inside the window:
  `GrowingDelayAdmitsTwice`. `RefinesFullHistory` gives the exact condition, `ExpiryInvisible` a sufficient one.
  A positive window limits nothing exactly when it is below one millisecond: `ShortWindowLimitsNothing`. Rounding the
  delay up for the header overflows within a second of the longest duration: `HeaderCoversDelay`.
- **ID generator.** The capacity error resets the sequence but not the last millisecond, so a clock that passes the
  capacity and falls back makes an instance repeat an ID: `CapacityErrorThenBackRepeats`, over runs exactly when in
  `IncreasingExactlyWithoutReplay`. The documentation calls IDs positive; zero is issued exactly by a first call of node 0
  that reads the epoch's millisecond: `ZeroIsIssued`.
- **Operation log.** The status column has a default of 1 (`admin/internal/model/operation_log.go:18`). Whether the ORM
  leaves a zero out of the insert is a parameter; if it does, every failure is recorded as a success:
  `FailuresLookLikeSuccesses`, exactly when in `StatusTellsSuccess`.
- **User pages.** The offset is computed in 32 bits before it is widened: `OverflowShowsEarlierUsers`, exactly when
  in `PageIsRight`.
- **Resolver.** After a refused update the cache is empty, and an empty list then counts as known, so the connection
  keeps addresses of a service that has none: `RefusedThenEmptyKeepsStale`, exactly when in `CacheFollowsConnection`.
- **Consumer.** The documentation of permanent errors names damaged JSON (`admin/internal/mq/errors.go:5`). The code does
  not mark decoding errors permanent: a body whose decoding fails but still fills in a valid event is retried
  until its retries are used up. The model does what the code does.

## Hypotheses

- The limiter's rule is fixed over a run and request IDs are fresh. Exactness is for a non-decreasing gateway clock;
  `SkewBound` covers gateway clocks that go back; it also asks that the server's clock does not, and that the server
  expires a key no more than d ahead of the gateways' clocks. The exact retry delay and remaining count hold on runs
  without early expiry and with a window of at least one millisecond.
- The pipeline's exchanges have distinct names, its bindings are the only ones of its exchanges, and the
  configured number of retries fits the int32 header.
- Ordinary database transactions are atomic and there is one primary.

## Model

| member | source | states |
|---|---|---|
| RateLimiter.Redis.Eval | gateway/internal/ratelimit/redis.go:14-78 | Running the script's commands one by one on the stored sorted set, with the loop that finds the oldest score and with the key gone once the set is empty or expired, gives the key and the reply of the one-step specification, and touches no other key. |
| RateLimiter.Redis.ZRangeFirstScore | gateway/internal/ratelimit/redis.go:34-51 | The first score is a minimum over all members, and there is none exactly for an empty set. |
| RateLimiter.Redis.Prune | gateway/internal/ratelimit/redis.go:22-29 | What expiry and range removal leave of the key, which is gone when nothing is left. |
| RateLimiter.Redis.Deny | gateway/internal/ratelimit/redis.go:33-58 | The denying branch replies with the count and the oldest entry's remaining time. |
| RateLimiter.Redis.Admit | gateway/internal/ratelimit/redis.go:60-77 | The admitting branch adds the entry at its own time, restarts the countdown on the server's clock, and replies with a delay of zero. |
| RateLimiter.RedisSlidingWindow.Allow | gateway/internal/ratelimit/redis.go:96-177 | Which argument error wins, that an argument error runs no script, that a lost reply still counts the request, and for the script's reply its decision, the clipped remaining count, no delay for an admission, and the delay in nanoseconds unless it overflows. |
| RateLimiter.RedisSlidingWindow.Interpret | gateway/internal/ratelimit/redis.go:133-176 | A reply is accepted exactly if it is three integers, with the first wrong position reported otherwise; count and delay are read in 64-bit arithmetic. |
| RateLimiterHistory.StepExact | gateway/internal/ratelimit/redis.go:22-31 | From a key that refines the full history the kept members are exactly the admissions in (now - window, now], unless the server expired the key early, and then the count is wrong. |
| RateLimiterHistory.RunRefines | gateway/internal/ratelimit/redis.go:14-78 | Over every run the pruned and expiring set keeps refining a log that forgets nothing: what it holds is in the log, and what the log has in the window it holds. |
| RateLimiterHistory.CallExactness | gateway/internal/ratelimit/redis.go:24-33 | After an exact prefix, a call is answered as from the full history if and only if the key does not expire early at that call. |
| RateLimiterHistory.RefinesFullHistory | gateway/internal/ratelimit/redis.go:14-78 | Main theorem: over all runs with a non-decreasing gateway clock every answer (admission and count) is that of the never-forgetting limiter if and only if no key expires early. |
| RateLimiterHistory.ExpiryInvisible | gateway/internal/ratelimit/redis.go:67-71 | PEXPIRE never changes an answer when the delay from reading the clock to running the script does not grow. |
| RateLimiterHistory.GrowingDelayAdmitsTwice | gateway/internal/ratelimit/redis.go:67-71 | A concrete run in which expiry on the server's clock lets a limit of one admit two calls 10 ms apart in an 11 ms window. |
| RateLimiterHistory.NoWindowNoLimit | gateway/internal/ratelimit/redis.go:120-125 | With a window of zero milliseconds every call of every run is admitted and nothing is kept. |
| RateLimiterPromises.ShortWindowLimitsNothing | gateway/internal/ratelimit/redis.go:114-125 | Among the windows that `Allow` accepts, in nanoseconds, exactly those below a millisecond admit every call of every run. |
| RateLimiterPromises.NeverOverLimit | gateway/internal/ratelimit/redis.go:33-65 | Over every run, with any clocks, the set never holds more than `limit` members. |
| RateLimiterPromises.DenialMeaning | gateway/internal/ratelimit/redis.go:33-58 | A denial finds exactly `limit` admissions in the window and reports the time the oldest of them has left. |
| RateLimiterPromises.DelayUntilOldestLeaves | gateway/internal/ratelimit/redis.go:42-51 | With any clocks and any key, a denied caller waits exactly until the oldest counted entry leaves the window, at least a millisecond. |
| RateLimiterPromises.AdmissionHasNoDelay | gateway/internal/ratelimit/redis.go:73-77 | An admission has no retry delay, and a call is denied exactly when `limit` entries are kept. |
| RateLimiterPromises.RetryAfterIsExact | gateway/internal/ratelimit/redis.go:42-57 | Main theorem: after a denial with delay w, 1 <= w <= window, every call before w is over is denied and the first one after it is admitted. |
| RateLimiterPromises.HeaderCoversDelay | gateway/internal/middleware/rate_limit.go:112-121 | The Retry-After header (section 10.2.3 of RFC 9110) covers the delay and exceeds it by less than a second if and only if rounding up does not overflow. |
| RateLimiterPromises.HeaderIsPositive | gateway/internal/middleware/rate_limit.go:112-119 | The header is never below one second, and one second without a delay. |
| RateLimiterPromises.RemainingIsExact | gateway/internal/ratelimit/redis.go:165-168 | Main theorem: until an admission counted with an admitted call leaves the window, of the calls that follow, whenever they come, exactly the next limit - count are admitted. |
| RateLimiterPromises.RemainingIsKept | gateway/internal/ratelimit/redis.go:165-168 | Main theorem: the next limit - count calls after an admitted one are admitted however late they come. |
| RateLimiterPromises.SkewBound | gateway/internal/ratelimit/redis.go:22-71 | Main theorem: with gateway readings at most d behind any earlier one, and a server clock that never goes back and expires keys at most d ahead of the gateways' clocks, every span of length window - d holds at most `limit` admissions, over all call sequences. |
| RateLimiterPromises.BoundedOffsetIsSkewed | gateway/internal/ratelimit/redis.go:124-125 | Offsets from the server clock that lie within d of each other meet the hypothesis of the skew bound. |
| RateLimiterPromises.SkewBoundIsTight | gateway/internal/ratelimit/redis.go:22-71 | A run with d = 3 in which a span one millisecond longer than window - d holds more than `limit` admissions. |
| OperationLog.NextRetryAddsOne | admin/internal/mq/consumer.go:143-150 | The count read back from the int32 header written for a retry is exactly one more, and no other header changes. |
| OperationLog.RetryCountMeaning | admin/internal/mq/message.go:131-160 | The count is read whatever integer kind it arrives in, wraps only beyond 63 bits, and is zero when missing or not a number. |
| OperationLog.CloneHeaders | admin/internal/mq/message.go:123-130 | Copying entry by entry yields an equal table. |
| Topology.DeclareOperationLogTopology | admin/internal/mq/topology.go:14-57 | Success means that all exchanges, queues with their arguments, and bindings are there; it succeeds on every broker that holds nothing contradictory while the channel works; existing objects are never altered, nothing but the topology's own bindings is added even on failure, and redeclaring changes nothing. |
| Topology.DeclareAndBind | admin/internal/mq/topology.go:36-41 | One queue with its binding: declared with exactly these arguments, bound once, idempotent. |
| Topology.TopicMatchesItself | admin/internal/mq/topology.go:26-29 | A topic pattern, wildcards included, matches itself as a routing key, so a configured key reaches its own binding for every exchange type. |
| Topology.LiteralMatch | admin/internal/mq/topology.go:39-41 | A routing key without wildcards is bound to itself only. |
| Topology.WildcardMatch | admin/internal/mq/topology.go:26-29 | In a topic exchange a star is exactly one word and a hash any number. |
| Topology.WordsJoin | admin/internal/mq/topology.go:39-41 | The words a key is matched by are what lies between its dots. |
| Topology.QueueArguments | admin/internal/mq/topology.go:34-52 | The main queue dead-letters to the dead-letter exchange and never expires, the retry queue keeps a message for the delay in whole milliseconds and then publishes it to the main exchange, and the DLQ keeps what it gets. |
| Topology.RoutingGraph | admin/internal/mq/topology.go:25-55 | Main theorem: each of the three publications reaches exactly its one queue and an expired retry message returns to exactly the main queue. |
| Pipeline.Wiring | admin/internal/mq/topology.go:25-55 | In the step system the declared topology sends publications to the main queue, the retry queue and the DLQ, and the retry TTL to the main queue. |
| Pipeline.HandleKeepsInv | admin/internal/mqhandler/operation_log.go:32-78 | Handling a delivery, whether the insert reports success, fails, or takes effect unreported, keeps the invariant: a delivery counts as saved only with its event in the table, and rows stay unique per event. |
| Pipeline.AcceptKeepsInv | admin/internal/mq/publisher.go:121-152 | The broker's taking of a republication, even after the publisher stopped waiting, keeps the invariant and creates a copy with the same body and origin. |
| Pipeline.ChildOk | admin/internal/mq/consumer.go:142-176 | The republished copy's count is the number of retries in its line of descent, and a dead-lettered copy has a reason. |
| Pipeline.ExpireKeepsInv | admin/internal/mq/topology.go:42-49 | The retry TTL moves the copy to the main queue with its count intact. |
| Pipeline.StepKeepsInv | admin/internal/mq/consumer.go:108-176 | Every action (publish, deliver, handle, accept, confirm, refuse, ack, nack, TTL, channel loss, crash) keeps the invariant, appends to rows only, and never changes a message's body, origin or count. |
| PipelineGuarantees.NothingIsLost | admin/internal/mq/consumer.go:108-176 | Main theorem: after any interleaving every message the broker ever took is in the main queue, held, in the retry queue or in the DLQ, or its event is in the database. |
| PipelineGuarantees.RetriesAreBounded | admin/internal/mq/consumer.go:142-150 | Main theorem: a message published without a retry header never has a count above the maximum, is republished at most maximum + 1 times in any line of descent, and each retry raises the count by exactly one. |
| PipelineGuarantees.DeadLettersHaveReasons | admin/internal/mq/consumer.go:134-147 | Main theorem: every DLQ entry has an event the protocol rejects (said field by field), or an administrator ID that does not fit, or has used up its retries. |
| PipelineGuarantees.OnlyRetryableIsRetried | admin/internal/mq/consumer.go:134-139 | Main theorem: over every run whatever was republished and is not in the DLQ has an event the protocol accepts, and an administrator ID that fits if its body decodes. |
| PipelineGuarantees.RowsAgreeWithEvents | admin/internal/mqhandler/operation_log.go:44-72 | Main theorem: over every run each row agrees column by column with an event that a handled delivery carried and the protocol accepts, and a failure's status is 0 unless the ORM leaves zeros out. |
| PipelineHeaders.HeadersSurvive | admin/internal/mq/consumer.go:148-165 | Main theorem: over every run a republished message keeps every header it came with but the retry count, the error text and the broker's record, and every DLQ entry carries an error text. |
| PipelineGuarantees.ExactlyOnceEffect | admin/internal/repository/operation_log.go:37-48 | Main theorem: under any duplication of deliveries the table has at most one row per event ID, each what is stored for the valid event of a delivery that was handled, and rows once written stay as they are. |
| PipelineGuarantees.RecordedRowIsOwn | admin/internal/mqhandler/operation_log.go:44-77 | If event IDs identify events, the row of a recorded message is what is stored for that message itself. |
| PipelineGuarantees.StatusTellsSuccess | admin/internal/model/operation_log.go:18 | The stored status tells success from failure for all events if and only if the ORM writes the zero. |
| PipelineGuarantees.FailuresLookLikeSuccesses | admin/internal/mqhandler/operation_log.go:55-72 | If it does not, over every run every row says success. |
| PipelineProgress.OnePerGeneration | admin/internal/mq/consumer.go:142-176 | As long as no copy of a message is put back, its copies form a chain with one copy of each generation. |
| PipelineProgress.HandlingsAreBounded | admin/internal/mq/consumer.go:119-176 | Main theorem: over every run, with anything interleaved, a message published without a retry header whose copies are never put back by a lost channel or a nack is handled at most maximum + 1 times. |
| PipelineProgress.NothingLeftMeansSettled | admin/internal/mq/consumer.go:108-176 | Main theorem: over every run, when no copy of a message waits in a queue or with a consumer, its event is in the database or one of its copies is in the DLQ. |
| PipelineGuarantees.RoundOutcome | admin/internal/mq/consumer.go:108-176 | One handling with working republication and acknowledgement stores the message, moves it to the DLQ, or queues one copy with a count one higher. |
| PipelineGuarantees.MessagesDrain | admin/internal/mq/consumer.go:119-176 | From every state with a queued message the schedule that handles it undisturbed settles it within maximum + 1 handlings, whatever the database answers. |
| PipelineProgram.Publisher.Republish | admin/internal/mq/publisher.go:89-152 | It reports success exactly for an open publisher with a usable or recovered channel, a successful write and a broker acknowledgement, and then the broker has the message; a closed publisher sends nothing; a failed write drops the channel and a working one is kept. |
| PipelineProgram.Publisher.Publish | admin/internal/mq/publisher.go:57-85 | A new event is published successfully exactly if it is valid and confirmed, and is then in the main queue as its own message; an invalid one is not sent. |
| PipelineProgram.Publisher.Close | admin/internal/mq/publisher.go:192-201 | Closing drops the channel once; closing again changes nothing. |
| PipelineProgram.Consumer.HandleDelivery | admin/internal/mq/consumer.go:108-140 | A delivery is handled to its end by steps of the step system: persisted exactly if its body decodes, its ID fits and the insert is reported, with its event in the table; retried only if retryable with retries left and dead-lettered only otherwise, with the broker holding the copy; put back exactly if neither storing nor republishing worked; and released if the acknowledgement arrives. |
| PipelineProgram.Consumer.RetryOrDeadLetter | admin/internal/mq/consumer.go:142-161 | Below the maximum the copy goes to the retry exchange with the raised count, else to the dead-letter exchange; the delivery is acknowledged exactly after a confirmed republication. |
| PipelineProgram.Consumer.MoveToDeadLetter | admin/internal/mq/consumer.go:163-176 | The delivery is acknowledged exactly after a confirmed dead-letter publication, and put back otherwise. |
| AmqpClient.StepKeepsInv | admin/internal/mq/client.go:97-136 | Every step keeps that only the holder of reconnectMu is past the checks, that a live connection is the client's own or in the holder's hand, and that a closed client neither reopens nor dials. |
| AmqpClient.AtMostOneConnection | admin/internal/mq/client.go:97-178 | Main theorem: over every interleaving at most one connection is live, none is ever dialed after close, none is live once the calls are done, and Reconnect's second closed check and its closing of a live old connection never fire. |
| AmqpClient.ReconnectRestores | admin/internal/mq/client.go:97-136 | From every reachable open state an undisturbed Reconnect leaves a usable connection: the old one if it lives, else the dialed one. |
| AmqpClientProgram.Client.OpenChannel | admin/internal/mq/client.go:75-93 | Opening is attempted exactly on a live connection of an open client, and may still fail; a closed client is told apart from a lost connection. |
| AmqpClientProgram.Client.Reconnect | admin/internal/mq/client.go:97-136 | The method, updating the client's fields under their locks, moves by steps of the step system and returns the outcome recorded there; each outcome but success has its cause. |
| AmqpClientProgram.Client.Look | admin/internal/mq/client.go:103-117 | The first checks: closed, then a live connection, then the context; otherwise the call goes on to dial, holding reconnectMu. |
| AmqpClientProgram.Client.DialNew | admin/internal/mq/client.go:118-121 | A failed dial leaves with that outcome and the lock released; a successful one holds a connection never seen before. |
| AmqpClientProgram.Client.SwapIn | admin/internal/mq/client.go:122-135 | The second closed check, the swap and the closing of the old connection, by steps of the step system. |
| AmqpClientProgram.Client.DropPrevious | admin/internal/mq/client.go:132-135 | The replaced connection is closed if it still lives, and the lock released. |
| AmqpClientProgram.Client.Close | admin/internal/mq/client.go:161-178 | Once it has the lock the client is closed and opens no channel; closing again does nothing. |
| AmqpClientProgram.Client.Mark | admin/internal/mq/client.go:165-173 | The first Close marks the client closed and takes its connection; a later one changes nothing. |
| ClientManager.PublishKeepsFlight | gateway/internal/grpc/client.go:127-139 | Handing over a creation ends exactly that creation's pending entry. |
| ClientManager.PublishMovesOwnership | gateway/internal/grpc/client.go:127-139 | The hand-over moves the creator's connection to the cache, or to nobody if the manager has closed, and leaves every other owner alone. |
| ClientManager.DialKeepsOwnership | gateway/internal/grpc/client.go:121-125 | A new connection gets its creator as its only owner. |
| ClientManager.ShutKeepsOwnership | gateway/internal/grpc/client.go:397-405 | Close takes over every cached connection at once and leaves the cache empty. |
| ClientManager.CloseOneKeepsOwnership | gateway/internal/grpc/client.go:407-413 | Closing one connection ends its owner's responsibility and nobody else's. |
| ClientManager.StepKeepsInv | gateway/internal/grpc/client.go:75-142 | Every step of every thread keeps single flight, ownership, the life cycle of the cache and the correctness of what was returned. |
| ClientManager.OpenConnectionsHaveOneOwner | gateway/internal/grpc/client.go:98-139 | Main theorem: in every reachable state a connection is open if and only if it has an owner (cache, in-flight creator or a running Close), and then exactly one. |
| ClientManager.NothingLeaksAfterClose | gateway/internal/grpc/client.go:393-417 | Main theorem: once closed and with all calls returned, no connection is open and no creation pending. |
| ClientManager.CreationIsSingleFlight | gateway/internal/grpc/client.go:107-128 | Main theorem: a pending entry exists exactly while a thread creates for the service, and never two threads do. |
| ClientManager.AtMostOneConnectionPerService | gateway/internal/grpc/client.go:98-127 | In every reachable state a successful newClient is the first for its service. |
| ClientManager.MadeIsStable | gateway/internal/grpc/client.go:98-139 | The record of the connection made for a service is never overwritten. |
| ClientManager.AllCallersShareOneConnection | gateway/internal/grpc/client.go:75-142 | Main theorem: any two successful calls for a service, at any two moments of a run, return the same connection. |
| ClientManager.WaitersGetTheCreatorsResult | gateway/internal/grpc/client.go:108-116 | Main theorem: a released waiter returns exactly its creator's result, and the creator has finished. |
| ClientManagerProgram.Manager.Lookup | gateway/internal/grpc/client.go:87-96 | The read-locked lookup, by a step of the step system, with the closed check first. |
| ClientManagerProgram.Manager.Reserve | gateway/internal/grpc/client.go:98-120 | The locked second lookup: refused exactly if closed, else cached, else join the creation in flight, else start one. |
| ClientManagerProgram.Manager.Wait | gateway/internal/grpc/client.go:110-115 | A finished creation's connection or failure is returned unless the context has ended too and is picked; an ended context ends the wait; otherwise it goes on. |
| ClientManagerProgram.Manager.NewClient | gateway/internal/grpc/client.go:144-171 | Dialing, outside the lock, yields a connection never used before or none. |
| ClientManagerProgram.Manager.Deliver | gateway/internal/grpc/client.go:127-141 | The hand-over returns what the run records for the creation, nothing if the manager has closed. |
| ClientManagerProgram.Manager.Create | gateway/internal/grpc/client.go:117-141 | The call's own creation succeeds exactly if the dial does and the manager is open, and then the connection is in the cache. |
| ClientManagerProgram.Manager.GetClient | gateway/internal/grpc/client.go:75-142 | A missing context, a blank name or a missing registry is refused, in this order, without touching the manager; otherwise, with anything happening between its critical sections, the call returns the service's one connection or a refusal with its cause: closed manager, own dial failed, joined creation failed, context ended. |
| ClientManagerProgram.Manager.CloseNext | gateway/internal/grpc/client.go:407-413 | Each turn of the closing loop closes one of the connections left, and the loop ends when none is. |
| ClientManagerProgram.Manager.TakeAll | gateway/internal/grpc/client.go:397-405 | The first Close marks the manager closed and empties the cache into its own hands; a later one takes nothing. |
| ClientManagerProgram.Manager.Close | gateway/internal/grpc/client.go:393-417 | The manager ends closed with the call's loop finished, whether or not it was closed before. |
| Bits.OrIsSum | user/internal/idgen/snowflake.go:90 | Bitwise OR of a shifted number and a smaller one is their sum, for all widths. |
| Bits.AndMaskIsMod | user/internal/idgen/snowflake.go:15 | Masking with 2^k - 1 is the remainder modulo 2^k, for all k. |
| Bits.BitsOf | user/internal/idgen/snowflake.go:76-90 | OR and AND act on every bit position by itself. |
| Bits.WrapMeaning | user/internal/service/admin_user.go:94 | Wrapping keeps a value modulo the width and brings it into the signed range. |
| Snowflake.UnpackPack | user/internal/idgen/snowflake.go:84-90 | Timestamp, node and sequence decode back from every ID, and every ID is below 2^63. |
| Snowflake.PackUnpack | user/internal/idgen/snowflake.go:10-22 | Every 63-bit integer is the ID of the fields it decodes to, so packing is a bijection. |
| Snowflake.PackOrder | user/internal/idgen/snowflake.go:90 | IDs of one node compare as timestamp, then sequence. |
| Snowflake.PositiveUnlessZero | user/internal/idgen/snowflake.go:61 | An ID is positive except for node 0, sequence 0 in the epoch's millisecond. |
| Snowflake.ZeroIsIssued | user/internal/idgen/snowflake.go:61-91 | NextID returns zero exactly on the first call of node 0 when it reads the epoch's millisecond. |
| Snowflake.NextSequenceMeaning | user/internal/idgen/snowflake.go:76 | The masked increment is the successor, or zero after 4095. |
| Snowflake.EpochIs2026 | user/internal/idgen/snowflake.go:19-21 | The epoch is the first millisecond of 2026, by counting days. |
| Snowflake.DrawErrors | user/internal/idgen/snowflake.go:67-87 | Exactly which readings are rejected, and why. |
| Snowflake.DrawnFields | user/internal/idgen/snowflake.go:75-90 | An issued ID carries the reading it was made at, the node, and the next sequence number of that millisecond, and the generator remembers them. |
| Snowflake.NewGenerator | user/internal/idgen/snowflake.go:46-59 | A generator is created exactly for node IDs 0..1023, at its initial state. |
| Snowflake.Generator.NextID | user/internal/idgen/snowflake.go:63-101 | The method with its busy-wait loop over successive clock readings does one draw of the specification, on the first reading and the reading that ended the wait. |
| SnowflakeRuns.DrawIncreases | user/internal/idgen/snowflake.go:63-91 | An issued ID exceeds all issued before, and every rejection but the capacity error leaves the generator as it was. |
| SnowflakeRuns.IdsStrictlyIncrease | user/internal/idgen/snowflake.go:61-91 | Main theorem: IDs of one instance strictly increase over every run, through waits, wrap-around and rejected clocks, if readings never go back or stay below the capacity. |
| SnowflakeRuns.MillisecondHolds4096 | user/internal/idgen/snowflake.go:75-82 | Main theorem: in one millisecond an instance issues all 4096 sequence numbers, in order and without waiting. |
| SnowflakeRuns.ReplayCondition | user/internal/idgen/snowflake.go:75-89 | Exactly when one call issues an ID larger than one of the last millisecond, for every generator state. |
| SnowflakeRuns.IncreasingExactlyWithoutReplay | user/internal/idgen/snowflake.go:63-91 | Main theorem: over every run and with any clock the IDs of one instance strictly increase if and only if no call reads the last ID's millisecond with a sequence that a capacity error has set back behind it. |
| SnowflakeRuns.CapacityErrorThenBackRepeats | user/internal/idgen/snowflake.go:80-87 | A run in which a capacity error followed by a fallen-back clock repeats an ID. |
| SnowflakeRuns.NodesNeverCollide | user/internal/idgen/snowflake.go:44-45 | Main theorem: instances with different node IDs never issue the same ID, over any pair of runs and with any clocks. |
| Sharding.NewUserRouter | user/internal/sharding/router.go:22-38 | A router exists exactly for an enabled configuration with eight tables and a valid prefix, with the numbered names in order; otherwise the first failing check is reported. |
| Sharding.PrefixShape | user/internal/sharding/router.go:10 | The accepted prefixes are a lower-case letter, any name characters and an underscore. |
| Sharding.UserRouter.NameShape | user/internal/sharding/router.go:33-36 | Table i is named by the prefix, a zero and the digit i. |
| Sharding.UserRouter.TableNameByIndex | user/internal/sharding/router.go:55-60 | The name at the index, or an error outside 0..7. |
| Sharding.UserRouter.TableName | user/internal/sharding/router.go:47-53 | The name of the shard the ID routes to, or an error for an ID that is not positive. |
| Sharding.UserRouter.NamesDiffer | user/internal/sharding/router.go:33-36 | Different shards have different tables, for every prefix. |
| Sharding.ShardOfGeneratedId | user/internal/sharding/router.go:40-45 | The shard of a generated ID is its sequence number modulo 8; the one unroutable ID is zero. |
| UserStore.InsertKeeps | user/internal/repository/user.go:101-114 | The two inserts keep index and shards in agreement and add exactly one subject. |
| UserStore.StepKeepsInv | user/internal/repository/user.go:92-125 | Every database call of every caller keeps the agreement, the truth of what callers were told, and all rows and entries. |
| UserStore.AllCallersAgree | user/internal/repository/user.go:92-125 | Main theorem: after any interleaving all successful callers for a subject hold the same user, at most one was told it created it, and index and shards agree row for row, so no shard row is orphaned. |
| UserStore.InsertCondition | user/internal/repository/user.go:101-114 | Exactly when the creating transaction can go through. |
| UserStore.LookupFindsWinner | user/internal/repository/user.go:119-123 | The loser of a race, and a winner whose commit report was lost, find the stored row on the second lookup. |
| UserStore.ByIDFindsTheRoutedRow | user/internal/repository/user.go:40-56 | A lookup by ID through the index hits exactly when a row is stored in the shard the ID routes to, and names that row. |
| UserStoreProgress.OnlyTheSubjectConflicts | user/internal/repository/user.go:101-119 | With distinct IDs the transaction fails of itself exactly when the subject already has a user, in every reachable state. |
| UserStoreProgress.GeneratedIdsAreDistinct | user/internal/service/user.go:54-63 | Main theorem: IDs taken from different NextID calls on instances with different node IDs are distinct and positive, unless one is the zero ID. |
| UserStoreProgress.UndisturbedCallSucceeds | user/internal/repository/user.go:92-125 | Main theorem: with distinct IDs a call whose own database calls work always succeeds, however others interleave and even if its own commit report is lost. |
| UserStoreReports.UnhinderedCallsSucceed | user/internal/repository/user.go:92-125 | Main theorem: with distinct IDs, over every run, a finished call whose queries worked has succeeded, even after an aborted transaction if somebody has created the subject by then. |
| UserStoreReports.CreatorIsTold | user/internal/repository/user.go:115-117 | Main theorem: over every run the caller whose transaction inserted the user is told so, unless that commit's report was lost. |
| UserStoreReports.ExistingUsersAreOnlyRead | user/internal/repository/user.go:93-96 | Main theorem: over every run a call for a subject that has a user opens no transaction and reports no creation. |
| UserStoreProgram.UserRepository.FindByID | user/internal/repository/user.go:42-56 | With others running before each query, a row found is the one stored where the ID routes, a row stored before the call is found, and only a failing query breaks the lookup. |
| UserStoreProgram.Database.CreateBoth | user/internal/repository/user.go:101-114 | The two inserts under their unique keys, rolled back together, are the step system's transaction; it commits exactly when both can be made. |
| UserStoreProgram.UserRepository.FindBySubject | user/internal/repository/user.go:24-38 | The two queries, with others running before each, are the step system's lookup, and the result is what the run records. |
| UserStoreProgram.UserRepository.Create | user/internal/repository/user.go:101-117 | The transaction either reports the caller's user created or sends the caller back to the lookup. |
| UserStoreProgram.UserRepository.FindOrCreateBySubject | user/internal/repository/user.go:92-125 | Whatever the others do, the program takes only steps of the step system, its own calls fail exactly where they are made to, it returns the outcome recorded there, and with distinct IDs and working calls it succeeds. |
| UserStoreProgram.UserRepository.CreateOrFind | user/internal/repository/user.go:101-124 | From the transaction on: the caller's own user if the commit was reported, else what the second lookup finds. |
| UserPages.ListingIsUnique | user/internal/repository/user.go:77-86 | The store determines the listing: the one strictly ordered sequence of exactly the stored rows, without repetition and as long as the sum of the shard counts. |
| UserPages.ListingShowsEveryone | user/internal/repository/user.go:58-90 | The listing shows exactly the subjects that have an index entry. |
| UserPages.NewestFirst | user/internal/repository/user.go:84-86 | The newest user comes first, and of users created at one moment the one with the larger ID. |
| UserPages.List | user/internal/repository/user.go:61-90 | With others running before each of the two queries, sorting the union of the shards row by row and cutting it gives the slice of the listing at the second query, and the total is the length of the listing at the first; bad pagination or a failing query is an error. |
| UserPages.ListingGrows | user/internal/repository/user.go:77-89 | A later listing shows everybody an earlier one shows, so the total never exceeds the listing that the page is cut from. |
| UserPages.GetUserList | user/internal/service/admin_user.go:90-110 | The response holds the requested page of the listing, with defaults, limits and the 32-bit offset of the code, whatever others do between the two queries. |
| UserPages.PagesPartition | user/internal/repository/user.go:84-86 | Main theorem: pages of any size cut the listing into consecutive pieces; enough of them give every user once. |
| UserPages.PageIsRight | user/internal/service/admin_user.go:94 | Main theorem: a valid request gets the page it asks for if and only if the 32-bit offset does not overflow, or wraps to an offset past the last user. |
| UserPages.PageShows | user/internal/service/admin_user.go:94-110 | Main theorem: a valid request whose offset fits shows, column by column, as many users from that offset as the page holds or are left. |
| UserPages.RequestMeaning | user/internal/service/admin_user.go:113-128 | A missing request is page 1 of 20, a missing value takes its default, and exactly pages below 1 and sizes outside 1..100 are invalid. |
| UserPages.OverflowShowsEarlierUsers | user/internal/service/admin_user.go:94 | A valid request whose offset wraps to 4 and shows users of the first page. |
| AdminBinding.BindKeepsInv | admin/internal/repository/admin.go:84-105 | The conditional update, reported, aborted or unreported, keeps subjects injective and binds only an unbound row. |
| AdminBinding.AdministrationKeepsInv | admin/internal/repository/admin.go:154-197 | Creating, updating and deleting administrators keeps every binding, as the subject is not among the updated columns. |
| AdminBinding.BindingIsSetOnce | admin/internal/service/get_admin_info.go:96-129 | Main theorem: over every interleaving no two administrators share a subject, a bound subject never changes and only an administrator that is not deleted gets one, a caller gets only an administrator bound to its subject and not deleted when read, and callers get the same administrator exactly when they present the same subject. |
| AdminBindingProgress.RacersAreFoundUnlessTooLate | admin/internal/service/get_admin_info.go:112-128 | Main theorem: for any number of racing requests of one subject for an administrator that nobody else disturbs, in every interleaving, a finished request was given that administrator if and only if it did not look for the name after a fellow racer had bound it. |
| AdminBindingProgress.BoundSubjectsAreFoundAtOnce | admin/internal/service/get_admin_info.go:104-107 | Main theorem: over every undisturbed run a request whose subject is bound already is given its administrator by its first lookup. |
| AdminBindingReads.ReturnedRecordWasRead | admin/internal/service/get_admin_info.go:104-128 | Main theorem: over every run the administrator a request is given is, up to the subject, what that row was at some moment of the run. |
| AdminBindingProgress.LateRacerIsRefused | admin/internal/service/get_admin_info.go:116-118 | A run in which one of two requests of the same person is refused the administrator just bound to their subject. |
| AdminBindingProgram.AdminTable.UpdateSubject | admin/internal/repository/admin.go:93-104 | The conditional update changes exactly one unbound, undeleted row if the subject is new, is an error if the subject is taken, and otherwise affects no row. |
| AdminBindingProgram.GetAdminInfoService.FindByKeycloakSubject | admin/internal/repository/admin.go:48-65 | The query, with others running before it, is a step of the step system, and its result decides where the caller stands. |
| AdminBindingProgram.GetAdminInfoService.FindByUsername | admin/internal/repository/admin.go:107-124 | An unbound administrator of that name leads to the binding; a bound one, none or an error leads to refusal. |
| AdminBindingProgram.GetAdminInfoService.BindKeycloakSubject | admin/internal/repository/admin.go:84-105 | Success hands out the administrator as read with the caller's subject; failure leads to the second lookup. |
| AdminBindingProgram.GetAdminInfoService.FindAndBindAdmin | admin/internal/service/get_admin_info.go:96-129 | Whatever the others do, the request takes only steps of the step system, its own calls fail exactly where they are made to, and it returns the outcome recorded there. |
| AdminBindingProgram.GetAdminInfoService.BindByName | admin/internal/service/get_admin_info.go:112-128 | The migration of an administrator found by name: refuse a bound one, bind, and look again if that failed. |
| Text.TrimMeaning | gateway/internal/consul/grpc_discovery.go:155-162 | Trimming takes off exactly the white space at both ends, so a host is empty exactly when it is blank. |
| Text.SplitJoin | gateway/internal/consul/grpc_discovery.go:163-164 | Every address splits back into the host and port it was joined from, IPv6 literals in their brackets included. |
| Text.AtoiItoa | gateway/internal/consul/grpc_discovery.go:164 | Ports read back from their decimal digits. |
| Text.LessMeaning | gateway/internal/consul/grpc_discovery.go:172-174 | Addresses are ordered by their first difference. |
| Resolver.AddressesIdentifyEndpoints | gateway/internal/consul/grpc_discovery.go:163-168 | Two endpoints format to the same address only if host and port are the same, so deduplicating by the text merges nothing else. |
| Resolver.GrpcResolverAddresses | gateway/internal/consul/grpc_discovery.go:145-176 | Filtering, deduplicating with a set and sorting gives the canonical list. |
| Resolver.CanonicalMeaning | gateway/internal/consul/grpc_discovery.go:144-176 | Main theorem: the list is strictly sorted, holds exactly the usable addresses, and depends only on which entries there are, not on order or repetition. |
| Resolver.ListedExactly | gateway/internal/consul/grpc_discovery.go:150-169 | Main theorem: an address is listed exactly if some entry with a port in 1..65535 has it, as the service's own address if that is not blank, else as its node's if that is not. |
| Resolver.CacheFollowsConnection | gateway/internal/consul/grpc_discovery.go:129-142 | Main theorem: over every run with refused updates a non-empty cache is the state the connection accepted last; exactly when a successful update leaves the connection with the current addresses; a known list is not pushed again, a new one succeeds exactly if it is accepted, and a refusal empties the cache. |
| Resolver.RefusedThenEmptyKeepsStale | gateway/internal/consul/grpc_discovery.go:131-138 | A run in which a successful update leaves the connection with stale addresses. |
| Resolver.GrpcResolver.UpdateAddresses | gateway/internal/consul/grpc_discovery.go:129-142 | The method is one update of the view with the canonical list; a refusal empties the cache and keeps what the connection has. |
| Resolver.GrpcResolver.WatchGRPCService | gateway/internal/consul/grpc_discovery.go:98-108 | One watch applies its updates until one is refused, and reports whether any got through. |
| Resolver.GrpcResolver.Watch | gateway/internal/consul/grpc_discovery.go:94-127 | The wait after each watch is 500 ms doubled per fruitless watch in a row, 15 s at most, and the view is the fold of the sessions. |
| Resolver.DelaysStep | gateway/internal/consul/grpc_discovery.go:112-124 | The loop's reset-then-double variable computes that closed form. |
| Resolver.BackoffSequence | gateway/internal/consul/grpc_discovery.go:94-124 | The waits are 500, 1000, 2000, 4000, 8000 and from then on 15000 milliseconds. |
| Resolver.DelayAfterWatch | gateway/internal/consul/grpc_discovery.go:112-124 | After a watch with an update the wait starts over; without one it is the next longer one. |
| Resolver.WatchAppliesAll | gateway/internal/consul/grpc_discovery.go:98-108 | A watch whose updates all get through applies them all. |
| Resolver.RefusalEndsWatch | gateway/internal/consul/grpc_discovery.go:98-108 | A refused update ends the watch: nothing after it is applied. |
| Resolver.WatchCoherent | gateway/internal/consul/grpc_discovery.go:94-142 | Over every sequence of watches a non-empty cache is what the connection accepted last. |
| RuntimeConfig.Run | gateway/internal/runtimeconfig/manager.go:36-80 | Main theorem: after any events the store shows, field by field, the last valid configuration that advanced the index, or the initial snapshot; the wait index is the largest seen; the delay after k errors since the last publication is min(2^k, 30) seconds. |
| RuntimeConfig.SnapshotMeaning | gateway/internal/runtimeconfig/snapshot.go:33-63 | A configuration is published exactly if both durations parse and are positive, and then field by field. |
| RuntimeConfig.PublishesExactly | gateway/internal/runtimeconfig/manager.go:58-77 | An event publishes exactly if its index exceeds every earlier one and zero and its body parses with positive durations. |
| RuntimeConfig.MaxIndexMeaning | gateway/internal/runtimeconfig/manager.go:58-62 | The wait index is at least every index seen, and one of them or zero. |
| RuntimeConfig.ErrorsSinceMeaning | gateway/internal/runtimeconfig/manager.go:44-56 | The errors counted are those after the last publication. |
| RuntimeConfig.DelaySequence | gateway/internal/runtimeconfig/manager.go:52-55 | The waits are 1, 2, 4, 8, 16 and from then on 30 seconds. |
| RuntimeConfig.IndexAndPublication | gateway/internal/runtimeconfig/manager.go:58-77 | The wait index never decreases, and as soon as any event publishes there is a last publication. |

## Left out

- Servers, routes, handlers, forwarding, logging, tracing, TLS, JWT and role checks: input, output and foreign calls.
- The internals of Redis, RabbitMQ, PostgreSQL and the ORM: a sorted set, a queue and a table are values; a script, a broker event and a database call are atomic; there are no read replicas. A key is gone once the server clock has passed its deadline. Lua numbers are integers.
- Concurrency is interleaving of critical sections and single calls; memory models and scheduling fairness are not modelled. A wait that never ends is a run that stops there.
- Pipeline.StepKeepsInv: does not model prefetch limits, message order within a queue, or the trace headers that a publication adds.
- The consumer's endless consume-and-reconnect loop (`admin/internal/mq/consumer.go:55-106`): its effect on messages is channel loss, redelivery and redeclaration, which are modelled; its timing is not.
- PipelineProgram.Consumer.MoveToDeadLetter: the text of the error header is not modelled.
- PipelineProgram.Publisher.Republish: reconnecting inside a recovery is one outcome, recovered or not; the connection itself is modelled in `AmqpClient`.
- Soft deletion and age-based deletion of log rows.
- JSON and duration parsing: a body is the pair of decoding success and the event it filled in, a duration is a number or missing.
- ClientManagerProgram.Manager.GetClient: does not model error texts, nor a panic inside newClient; a failed joined creation is not told apart by why it failed.
- UserStore.AllCallersAgree: error values are one failure, and columns that creation does not look at are one opaque profile.
- AdminBinding.BindingIsSetOnce: subject and username arrive trimmed, as the only caller trims them (`admin/internal/service/get_admin_info.go:65-69`); the profile cache, sessions and roles are left out.
- RuntimeConfig.Run: cancellation ends the sequence of events; a configuration without its CORS or rate-limit section counts as one that does not parse.
- The copies of the gateway logic in the admin service, the user service's own gRPC client and discovery, web3 and llm: duplicates, variants and stubs.
