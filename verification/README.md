# Verified model of the order service

A Dafny 4.11 model of the parts of the service that are hard to get right, with proofs:

1. **The transactional outbox pipeline** (`Pipeline*.dfy`, `Drain.dfy`, `Prune.dfy`,
   `Startup.dfy`, `EndToEnd.dfy`, `MessageIds.dfy`, `Subjects.dfy`). Any number of relays claim,
   publish, mark, roll back or quarantine rows; the broker stores copies and deduplicates their
   ids inside a window; any number of workers take deliveries, run the projection and ack, nak
   or dead-letter; a pruner deletes old rows. Every statement, failed commit, lost
   acknowledgement and crash is one step of `Pipeline.Next`, and a run is any sequence of steps
   by anyone. `Drain` holds the code of `DrainOnce`, `dispatch`, `deadLetter` and `Handle` as
   methods that take those steps, with arbitrary steps of everybody else between any two of
   them. `PipelineStranding` says exactly how a message can be lost to its consumer,
   `PipelineRecovery` when a committed event can still be handled, `PipelineOnce` which settings
   count each event once, and `EndToEnd` joins the pipeline to the store. `Startup` ties the
   startup checks to those settings, `PipelineSteps` says what single steps do in the tables'
   own terms, and `PipelineScenarios` holds the small runs the witnesses use.
2. **The rate limiter** (`Gcra.dfy`): the script over one expiring Redis key, against the
   virtual-scheduling form of the Generic Cell Rate Algorithm.
3. **Money and totals** (`GoInts.dfy`, `Money.dfy`, `Orders.dfy`, `LineOrder.dfy`): Go's wrapping
   `int64` and truncating division, against exact integers.
4. **The stores** (`OrderStore.dfy`, `Sorting.dfy`, `Paging.dfy`, `Uuids.dfy`,
   `PostgresStore.dfy`): the transactional in-memory store and its event log, keyset
   pagination, and the agreement of the two implementations of `List`.
5. **The signing-key cache** (`KeyCache.dfy`): concurrent callers in separately locked sections.

Code that changes state is a class with the source's fields, and its methods are proved against
a specification function; what the repository promises is then proved about that function, for
all inputs and all runs. The main methods also state their outcome in the terms of the request
and the stored fields alone, so that a wrong specification function would not go unnoticed.

## What is assumed

- Postgres: row locks last until commit or rollback; a statement that waited for a lock re-reads
  its rows; `ON CONFLICT` waits for an uncommitted rival; `now()` is the start of the
  transaction; uuids compare by value, most significant byte first, and of the forms that
  `uuid.Validate` accepts its input syntax (PostgreSQL documentation, section 8.12) reads all
  but the `urn:uuid:` one.
- JetStream: an id is remembered for the duplicate window; a message may be redelivered at any
  moment, up to `MaxDeliver` times, until it is older than `MaxAge`; a handler runs under a
  deadline of `AckWait` from its delivery. Whether a dead letter matches the consumer's filter
  depends on the two subject prefixes alone (`Subjects.Loops`, by `DeadLetterLoop`); it is the
  setting `loops` of the runs, and statements that need it to be false say so.
- Redis: its clock does not go back, and a key is not dropped before its TTL has elapsed. After
  that it may vanish at any moment, or not at all.
- JSON, base64url, the filter hash and `uuid.Validate` are parameters: a page token is a value
  that survives its encoding, and nothing is assumed of the hash (two filters may collide).
  Where the forms that `uuid.Validate` accepts matter, `Uuids.IsUuid` spells them out.
- Time, new ids, and the answers of the broker, the database and the identity provider are
  parameters or free choices of a run.

## Where the code does less than its comments say, or than one might expect

- **Retention floor.** `config.Validate` accepts any dedup retention greater than the stream's
  age. That leaves out the handler that is still at work on a last redelivery. Without late
  republishes, no event is applied twice if and only if dead letters do not come back, and the
  retention is at least the stream's age plus one `AckWait` or, with a `MaxDeliver` of 1, the
  duplicate window is longer than that sum (`RetentionThatIsEnough`). And no retention helps
  against a relay that comes back after the duplicate window and the retention
  (`LateRepublishAppliesTwice`).
- **Dead-letter loop.** `validateNATS` refuses only settings that loop, but accepts some that
  do: `a.a` for events with `a` for dead letters (`CoherentSettingsCanLoop`). The exact
  condition is in `DeadLetterLoop`. A dead letter that comes back has a new message id, so the
  projection can count its event again: in all unpruned runs the counts stay within the
  committed events if and only if the settings do not loop (`CountsAreBoundedUnlessLooping`).
- **Marked, then lost.** An event whose row is not marked published can always still be
  dead-lettered, and applied if it is one to apply (`WhatCanBeSetAside` and `WhatCanBeApplied`
  say exactly when). Marking ends that: a marked event is lost without any failure if no worker
  comes before it ages out (`PublishedAndLost`). No comment promises otherwise.
- **Last attempt.** A dead letter that does not land is said to be left for redelivery. On the
  last attempt nothing is left, and the message is stranded: `WhatStrands` has the exact
  condition, and `RefusedDeadLetterStrands` reaches it under every configuration.
- **Burst.** An idle key admits `floor(tolerance / emission)` requests, not always exactly
  `Burst` (`IdleBurst`, `BurstCanBeExceeded`). `NewRedis` also accepts configurations whose
  tolerance wraps `int64`, and such a limiter can admit nothing at all
  (`WrappedToleranceAdmitsNothing`), and intervals below a microsecond, which limit nothing
  (`NothingIsLimitedBelowAMicrosecond`).
- **One answer from both stores.** Validating the token's id does not make the stores agree on
  every token. Among accepted ids they agree on all tables exactly for those in plain
  lower-case form, those without hyphens whose first group is in lower case and whose other
  digits are all `f`, and the greatest uuid in braces (`WhichTokensReadAlike`). A urn is a raw
  driver error from Postgres only (`UrnIsRefused`).
- **Totals.** `Service.Create` sums before it validates the items. Whether it accepts an order
  never depends on the order of the lines (`CreateIgnoresItemOrder`), but which error it
  reports can (`OrderDecidesTheError`). The sum alone does depend on it, for lines of mixed
  sign: `WhenOrderDecides` has the exact condition. No comment promises otherwise.

## Model

| member | source | states |
|---|---|---|
| PipelineSteps.WhatIsClaimable | internal/platform/outbox/relay.go:37-46 | the claim sees exactly the rows that are neither published nor set aside nor in another open claim |
| PipelineSteps.WhatInsertsAndReplaysDo | internal/platform/outbox/relay.go:190-199 | an insert adds one pending row under a fresh id; a replay clears failed_at of one row that no claim holds; neither touches anything else |
| PipelineSteps.WhatStoringDoes | internal/platform/events/publisher.go:122-167 | a publish appends one copy with its id, body and time, unless one with that id was stored less than the window ago |
| PipelineSafety.FirstIdsAreLeast | internal/platform/outbox/relay.go:37-46 | the claim query returns the least claimable ids, in order, as many as the limit allows, and skips none below the last |
| PipelineSafety.EveryRunKeepsInv | internal/platform/outbox/relay.go:101-251 | the invariant of rows, claims, stream, workers, fates, counters and dedup rows survives every step by anyone, and the stream only grows |
| PipelineTheorems.NoLostEvents | internal/platform/outbox/relay.go:101-251 | in every run: open claims are disjoint; a published row has a stored copy and is not quarantined; every committed event is still in the table or on the stream |
| PipelineTheorems.MarkedMatchesClaimed | internal/platform/outbox/relay.go:227-251 | in every run the marking UPDATE matches exactly as many rows as the claim holds |
| PipelineOrder.SingleRelayOrder | internal/platform/outbox/relay.go:101-188 | with one relay, ids visible in order and no replay, first-stored copies ascend in id with no gap but quarantined rows, through any failures |
| Drain.Deployment.DrainOnce | internal/platform/outbox/relay.go:101-188 | whatever fails and whatever others do in between, the drain is a run of the steps and leaves no claim; without an error the n rows are the claim this relay opened in the course of it, the first claimable ones at that moment, all stored and marked published as of that moment, and the marking touched no other row; undisturbed, row by row, all of the first batch is marked as of now, or its first row that can never be published is set aside and nothing else is different |
| Drain.Deployment.PublishBatch | internal/platform/outbox/relay.go:137-171 | all rows acknowledged, or the claim given up at the first failure; a permanent failure sets aside exactly the first bad row |
| Drain.Deployment.SetRowAside | internal/platform/outbox/relay.go:200-224 | quarantine runs after the rollback and a row reported as set aside is no longer pending, also when another relay published it first |
| Drain.Deployment.MarkAndCommit | internal/platform/outbox/relay.go:173-187 | success means every row of the claim is stored and has published_at equal to the claim transaction's instant, with body and failed_at as before, and no other row was stamped; a commit may take effect without being reported |
| Drain.AfterCalmDrainMeans | internal/platform/outbox/relay.go:132-171 | the table that a calm drain leaves, row by row |
| Drain.CalmDrainProgress | internal/platform/outbox/relay.go:132-171 | one undisturbed drain disposes of a non-empty set of pending rows, touches no other, and lowers the number of drains needed by exactly one |
| Drain.Deployment.DrainBacklog | internal/platform/outbox/relay.go:259-296 | poison rows do not block: p unpublishable and n other rows are all set aside or published after exactly p + ceil(n / batch) drains |
| PipelineTheorems.DeadLetterDiscipline | internal/platform/events/consumer.go:194-277 | in every run, with dead letters coming back or not, a message is acked only if it is no OrderCreated or was applied, never if it does not decode or names no tenant, and terminated only after a dead letter with the same body is stored |
| PipelineSteps.WhatAcknowledgementsDo | internal/platform/events/consumer.go:194-277 | the broker's record of a message changes only when an ack or a termination of it arrives, for the first time |
| PipelineStranding.WhatStrands | internal/platform/events/consumer.go:194-277 | a message becomes stranded (unsettled, of interest, neither applied nor dead-lettered, never to be delivered again, with nobody) if and only if its last worker dies, fails to land its dead letter or naks it, or it ages out idle |
| PipelineStranding.RefusedDeadLetterStrands | internal/platform/events/consumer.go:258-264 | under every configuration a run in which the last attempt's dead letter is refused and the message is stranded |
| PipelineStranding.AgedOutIsStranded | internal/platform/events/consumer.go:77-137 | under every configuration a run in which a message is stranded by its age alone |
| PipelineStranding.StrandedForGood | internal/platform/events/consumer.go:139-231 | in no run from there on does a worker get the message or the broker see it settled |
| PipelineRecovery.WhatCanBeApplied | internal/platform/events/consumer.go:139-277 | from every reachable state some continuation applies a committed event, by its own message, if and only if it is applied, or it is one to apply and its row is not marked published or a copy is deliverable, or a worker has it in hand before its deadline |
| PipelineRecovery.WhatCanBeSetAside | internal/platform/events/consumer.go:238-277 | the same for its dead letter: stored, or its row not marked published, or a copy deliverable, or a worker at it on its last attempt, failed for good, or about to refuse it |
| PipelineRecovery.PublishedAndLost | internal/platform/outbox/relay.go:173-188 | under every configuration a run with no failure in which an event is published and marked, and no continuation applies or dead-letters it |
| PipelineSteps.WhatEventsAre | internal/order/orderproj/orderproj.go:50-70 | an event is of no interest exactly if it is no OrderCreated, unusable exactly if it does not decode or neither header nor payload names a tenant, and otherwise counts for the header's tenant, or the payload's exactly if the header's is empty |
| Drain.Deployment.Dispatch | internal/platform/events/consumer.go:139-231 | with others acting before every step: acked only if no OrderCreated or applied; one that does not decode or names no tenant is dead-lettered if the copy lands, never acked; left for retry only with deliveries left; undisturbed, the fate of the message and the tables row by row |
| Drain.Deployment.Answer | internal/platform/events/consumer.go:194-231 | the handler's result and the delivery count determine ack, dead letter or nak |
| Drain.Deployment.SendDeadLetter | internal/platform/events/consumer.go:238-277 | the original is terminated only after the copy is stored; otherwise the delivery ends without it |
| Drain.Deployment.Handle | internal/order/orderproj/orderproj.go:50-119 | success means the event is no OrderCreated or applied; exactly the undecodable or tenantless OrderCreated fail permanently; undisturbed, for the one tenant it counts for, the dedup row is written and that counter alone is one higher with the later time, exactly if no earlier delivery did |
| Drain.Deployment.Transact | internal/order/orderproj/orderproj.go:72-117 | a failed or rolled-back transaction leaves a retriable failure, a committed one both rows |
| PipelineTheorems.EffectivelyOnce | internal/order/orderproj/orderproj.go:50-119 | without pruning, in every run a tenant's count is the number of its distinct processed message ids, each of a committed OrderCreated row, and last_order_at is the latest applied; if dead letters do not come back it never exceeds those rows |
| PipelineOnce.CountsAreBoundedUnlessLooping | internal/order/orderproj/orderproj.go:50-119 | over all unpruned runs every tenant's count stays within its committed OrderCreated rows if and only if dead letters do not come back |
| PipelineOnce.LoopAppliesTwice | internal/platform/events/consumer.go:238-277 | under every looping configuration a run with one committed event that counts it twice |
| PipelineTheorems.SameEventsSameCounts | internal/order/orderproj/orderproj.go:98-109 | two runs that processed the same messages have the same order_counts table, whatever the order, multiplicity or interleaving |
| EndToEnd.CountsFollowTheStore | internal/order/orderproj/orderproj.go:50-119 | for any calls of the service and any unpruned run of the pipeline over the events they logged, a tenant's count is at least its stored orders once its events are processed, and never exceeds them if dead letters do not come back |
| EndToEnd.LastOrderFollowsTheStore | internal/order/orderproj/orderproj.go:98-109 | last_order_at is the time of one of the tenant's logged OrderCreated events, and once caught up none is later |
| PipelineTheorems.ProjectCounts | internal/order/orderproj/orderproj.go:98-109 | replaying the upserts gives each tenant the number of its distinct applied rows |
| PipelineTheorems.ProjectLatest | internal/order/orderproj/orderproj.go:98-109 | GREATEST leaves the latest occurrence time of the applied events |
| PipelineSteps.WhatPrunesDo | internal/platform/outbox/prune.go:72-92 | a prune step deletes, of the rows it names, exactly those published, respectively processed, before the cutoff, and changes nothing else |
| PipelineRetention.PruningKeepsAtMostOnce | internal/platform/outbox/prune.go:72-121 | if every copy of an applied event is out of reach before its dedup row may be pruned, no interleaving of prunes, republishes and redeliveries applies an event twice |
| Startup.ValidateRetention | internal/platform/config/config.go:620-642 | each of the four errors is reported exactly when its condition holds, the floor included |
| PipelineOnce.RetentionThatIsEnough | internal/platform/config/config.go:620-642 | for every accepted configuration, over all runs without late republishes, no event is applied twice if and only if dead letters do not come back and either the dedup retention is at least the stream's age plus AckWait, or MaxDeliver is 1 and the duplicate window is longer than that sum |
| Startup.WhichAcceptedSettingsCountOnce | internal/platform/config/config.go:620-642 | of the settings that pass both startup checks, exactly which count no event twice without a late republish, in the settings' own terms |
| PipelineOnce.ShortRetentionAppliesTwice | internal/platform/config/config.go:636-642 | every accepted configuration that meets neither bound has a run without late republishes that applies an event twice |
| PipelineOnce.OneDeliveryIsEnough | internal/platform/events/consumer.go:77-137 | with MaxDeliver 1 and a duplicate window longer than the stream's age plus AckWait, no message is applied twice in any run without late republishes, however short the retention |
| PipelineOnce.LateRepublishAppliesTwice | internal/platform/outbox/relay.go:177-185 | every configuration has a run in which an unmarked row republished late enough is applied twice |
| Prune.DeleteInBatches | internal/platform/outbox/prune.go:148-187 | deletes eligible rows only, however it ends; counts them exactly unless the result of a DELETE is lost, and then falls short by at most that batch; completing means all of them are gone |
| Prune.Pruner.Eligible | internal/platform/outbox/prune.go:123-146 | counts the rows with published_at before the one cutoff and the messages processed before the other |
| Prune.Pruner.Run | internal/platform/outbox/prune.go:98-121 | any prune keeps, unchanged, every row never published or published at or after now - outboxAge and every dedup row within its retention; a completed one leaves no other, and reports how many there were |
| MessageIds.DecimalIsNotation | internal/platform/events/publisher.go:174-176 | digits only, whose value is the number, without a leading zero |
| MessageIds.FormatIsNotation | internal/platform/events/publisher.go:174-176 | a sign exactly for negative numbers, then the size in decimal |
| MessageIds.MsgIdIsInjective | internal/platform/events/publisher.go:174-176 | for positive row ids, one message id names one row of one service |
| MessageIds.DeadLetterCollision | internal/platform/events/consumer.go:252 | a live id equals a dead-letter id exactly when the service is named "dlq-" plus the other's name and the row ids agree |
| MessageIds.OrdinaryServicesAreDisjoint | internal/platform/events/consumer.go:249-252 | services not named "dlq-..." never share an id with a dead letter |
| MessageIds.RenderIsInjective | internal/platform/events/publisher.go:174-176 | within one service, of any name, live ids, dead-letter ids and those of dead letters of dead letters are all told apart |
| MessageIds.FallbackCollision | internal/platform/events/consumer.go:280-309 | a relayed event keeps its own id; the fallback id equals a relayed one only for a service named after the stream plus "-seq" |
| MessageIds.NegativeIdsCollide | internal/platform/events/publisher.go:174-176 | a negative row id would let two services share an id |
| Subjects.PrefixedIsTokenPrefix | internal/platform/config/config.go:843-849 | the string test holds exactly when the prefix's dot-tokens begin the subject's |
| Subjects.WhatTheFilterMatches | internal/platform/events/consumer.go:77-137 | the filter matches exactly the subjects that go on after the prefix and a dot |
| Subjects.DeadLetterLoop | internal/platform/events/consumer.go:238-239 | a dead letter comes back to the consumer's filter if and only if the filter's prefix begins the dead letter of that prefix |
| Subjects.RefusedSettingsLoop | internal/platform/config/config.go:797-812 | the startup check refuses only settings that loop |
| Subjects.AcceptedSettingsDoNotLoop | internal/platform/config/config.go:797-812 | accepted settings do not loop unless the event prefix begins with the dead-letter prefix's tokens |
| Subjects.CoherentSettingsCanLoop | internal/platform/config/config.go:771-841 | settings that pass every startup check and still loop |
| Subjects.ValidateNATS | internal/platform/config/config.go:771-841 | each error is reported exactly when its condition holds, down to the characters of the names; none exactly when no broker is configured or all is in order |
| Subjects.WhichSubjectsAreBuilt | internal/platform/events/events.go:100-132 | a subject is built exactly from a prefix and a type that are groups of letters, digits, underscores and hyphens divided by single dots, and is the two joined by a dot |
| Subjects.SubjectIsDelivered | internal/platform/events/events.go:100-132 | a built subject is well formed, matches its prefix's filter, and names one event type |
| Gcra.RedisKey.Allow | internal/platform/ratelimit/gcra.go:39-69 | admitted exactly if the next slot plus one interval is within the tolerance, with the exact retry time and remainder; an admission stores the slot moved on and a TTL that is the remaining schedule rounded up to whole milliseconds, a rejection changes nothing |
| Gcra.RedisKey.Expire | internal/platform/ratelimit/gcra.go:64-67 | the stored time goes exactly if its TTL has elapsed |
| Gcra.ExpiryIsInvisible | internal/platform/ratelimit/gcra.go:42-67 | whenever Redis reclaims the key, every request of every run gets the answer of virtual scheduling with a TAT kept forever |
| Gcra.FreshKeyFollowsTheStandard | internal/platform/ratelimit/gcra.go:39-69 | from a fresh key the answers are those of GCRA with increment emission and limit tolerance minus emission |
| Gcra.WindowBound | internal/platform/ratelimit/gcra.go:39-69 | no window admits more than floor((width + tolerance) / emission) requests, from any key and with any rejections between |
| Gcra.WindowBoundIsAttained | internal/platform/ratelimit/gcra.go:39-69 | for every window some run admits exactly that many |
| Gcra.RetryAfterIsExact | internal/platform/ratelimit/gcra.go:54-58 | for every quota, after a rejection and with nothing admitted since, a request is admitted if and only if the tolerance covers one interval and RetryAfter has passed |
| Gcra.RemainingIsExact | internal/platform/ratelimit/gcra.go:67-69 | Remaining is how many more requests are admitted at that instant |
| Gcra.WhichQuotasAreRefused | internal/platform/ratelimit/gcra.go:83-99 | exactly the configurations with a limit, period or burst that is not positive, and with which error |
| Gcra.QuotaOf | internal/platform/ratelimit/gcra.go:83-105 | for every accepted configuration: the emission interval is the truncated one, and the tolerance is exact if and only if emission times burst fits int64; then the quota admits something |
| Gcra.AdmitsAnything | internal/platform/ratelimit/gcra.go:54-64 | a quota ever admits a request if and only if its tolerance covers one interval |
| Gcra.WrappedToleranceAdmitsNothing | internal/platform/ratelimit/ratelimit.go:79-81 | an accepted configuration whose tolerance wraps and that admits no request of any key, ever |
| Gcra.IdleBurst | internal/platform/ratelimit/ratelimit.go:68-81 | for every accepted configuration an idle key admits floor(tolerance / emission) at once, or none if negative; when the product fits int64 that is at least Burst, and exactly Burst if and only if the truncated nanoseconds do not add up to one more interval; an interval truncated to zero admits any number |
| Gcra.NothingIsLimitedBelowAMicrosecond | internal/platform/ratelimit/gcra.go:83-105 | the interval is zero exactly below a microsecond per request, and then every request of every run from a fresh key is admitted, or none if the tolerance wraps below zero |
| Gcra.BurstCanBeExceeded | internal/platform/ratelimit/ratelimit.go:74-81 | a configuration with a burst of 2 that admits 3 |
| MoneyModel.ValidMeans | internal/order/money.go:94-108 | in the fields: three upper-case letters, nanos below a thousand million, no mixed signs, units within the bound |
| MoneyModel.MaxUnitsIsTheTightBound | internal/order/money.go:12-35 | maxUnits is the largest bound under which no well-formed amount wraps |
| MoneyModel.AddSubAreExact | internal/order/money.go:111-139 | on valid amounts Add and Sub return the exact result, or overflow exactly when it is out of range, or a currency mismatch |
| MoneyModel.SignRevealsWrap | internal/order/money.go:127-137 | the check after the addition catches exactly the additions that wrapped |
| MoneyModel.OversizeIsRefused | internal/order/money.go:111-222 | an operand with more units than the bound makes every operation report an overflow |
| MoneyModel.MulIsExact | internal/order/money.go:141-154 | for every int64 factor Mul returns the exact product, or overflow exactly when it is out of range |
| MoneyModel.DivisionDetectsWrap | internal/order/money.go:146-152 | dividing the product back detects exactly the products that wrapped |
| MoneyModel.CompareIsTheOrder | internal/order/money.go:169-190 | Compare is -1, 0 or 1 as the amounts are ordered, and 0 only for equal values |
| MoneyModel.FromTotalNanosIsExact | internal/order/money.go:224-244 | the inverse of totalNanos, refusing exactly what Validate refuses |
| MoneyModel.NewMoneyIsExact | internal/order/money.go:80-86 | every int64 and int32 pair with a code of three letters of either case is accepted with its amount kept and the code in upper case, or refused, exactly as the combined amount is in range, even when normalizing wraps; any other code is refused |
| MoneyModel.Normalize | internal/order/money.go:247-260 | the step-by-step normalization computes Normalized, within Go's field types |
| MoneyModel.NewMoneyRoundTrip | internal/order/money.go:80-86 | constructing a valid amount from its own fields gives it back |
| Orders.ComputeTotal | internal/order/order.go:184-200 | the accumulating loop computes TotalOf, errors included |
| Orders.TotalIsExact | internal/order/order.go:184-200 | on valid items a total exists exactly when they share a currency and the exact sum is representable, and it is that sum |
| Orders.TotalIgnoresItemOrder | internal/order/order.go:184-200 | reordering valid items changes neither whether there is a total nor what it is |
| Orders.UnvalidatedOrderMatters | internal/order/service.go:96-118 | items on which the order of summing decides between a total and an overflow |
| LineOrder.WhenOrderDecides | internal/order/order.go:184-200 | of the sum alone, before validation: for valid one-currency prices and lines that fit, one order has a total and another overflows if and only if the sum is representable but the gains alone or the losses alone are not |
| LineOrder.TheThreeLinesDecide | internal/order/order.go:184-200 | the three lines of UnvalidatedOrderMatters meet that condition |
| LineOrder.CreateIgnoresItemOrder | internal/order/service.go:96-118 | for any lines, valid or not, reordering them changes neither whether Create goes ahead nor anything of the order it inserts but the order of its lines |
| LineOrder.OrderDecidesTheError | internal/order/service.go:96-118 | the same three lines are refused as an invalid item in one order and as an overflow in another |
| LineOrder.EveryOrderSucceeds | internal/order/order.go:184-200 | every order has a total if and only if gains and losses are each representable |
| LineOrder.SomeOrderSucceeds | internal/order/order.go:184-200 | some order has a total if and only if the exact sum is representable, and every total there is is that sum |
| LineOrder.SucceedsIfItFits | internal/order/order.go:184-200 | for lines of either sign the loop succeeds exactly if no running total leaves the range, with the exact sum |
| Orders.WhichTransitionsAreAllowed | internal/order/order.go:79-96 | exactly the four moves forward from Pending and Confirmed are allowed, so an order comes to an end |
| Orders.OrderVar.Cancel | internal/order/order.go:173-180 | from Pending and Confirmed the variable holds the order with status Cancelled and the given update time, every other field as before; from any other status an illegal transition is reported and it is unchanged |
| Orders.CancelKeepsValid | internal/order/order.go:173-180 | a cancellation keeps a valid order valid, happens at most once, and changes nothing but status and update time |
| OrderStore.State.Clone | internal/order/ordermem/ordermem.go:40-49 | a fresh state with equal contents |
| OrderStore.State.Create | internal/order/ordermem/ordermem.go:63-73 | inserts one order, or reports a missing tenant or a duplicate and changes nothing |
| OrderStore.State.Update | internal/order/ordermem/ordermem.go:86-96 | replaces one order, or reports its absence and changes nothing |
| OrderStore.Store.InTx | internal/order/ordermem/ordermem.go:202-213 | for any callback its writes and events appear together, or the store keeps its very state object, untouched, however far the callback got |
| OrderStore.Store.CreateOrder | internal/order/service.go:96-148 | succeeds exactly for an acceptable request, spelled out in its own fields, whose id is not taken; then exactly the order asked for, pending, with the exact sum for a total, is stored, found by Get and reported, and its OrderCreated is the one event added; otherwise the same state object stays |
| OrderStore.Store.CancelOrderById | internal/order/service.go:172-203 | the order under that tenant and id is stored and reported as cancelled, nothing else about it changed, and its OrderCancelled is the one event added, exactly if it is pending or confirmed; otherwise the same state object stays |
| OrderStore.LogIsAJournal | internal/order/service.go:96-203 | after any calls with any outcomes, replaying the event snapshots rebuilds the table; every order is valid, has one OrderCreated, and one OrderCancelled exactly if cancelled |
| OrderStore.CreatedEventsCountOrders | internal/order/service.go:96-148 | a tenant's OrderCreated events are as many as its orders |
| OrderStore.KeyIsInjective | internal/order/ordermem/ordermem.go:56 | NUL-free ids, such as uuids, are enough for a key to name one tenant and id, whatever the tenants |
| OrderStore.KeyNamesOne | internal/order/ordermem/ordermem.go:56 | among all strings a key names one tenant and id if and only if both are NUL-free |
| OrderStore.LookupsStayInTheTenant | internal/order/ordermem/ordermem.go:75-84 | with NUL-free ids, in every reachable store a lookup returns only the asked tenant's own order |
| Sorting.SortedIsUnique | internal/order/ordermem/ordermem.go:126-134 | rows with distinct sort keys have one sorted sequence, so sort.Slice's result is determined |
| Paging.List | internal/order/ordermem/ordermem.go:98-157 | in the orders' own fields: the first of the wanted orders by creation time and id, as many as asked for (50 if none, at most 1000), and a token of the last one exactly if more are wanted; a token of another filter or without a uuid is refused |
| Paging.TokenResumes | internal/order/cursor.go:91-110 | the token of a listed order is accepted for its filter and resumes right after that order |
| Paging.WalkIsTheListing | internal/order/cursor.go:91-110 | following tokens over an unchanged table lists exactly the matching orders, sorted, each once, in max(1, ceil(n / size)) calls, with the size asked for, 50 or 1000 |
| Paging.WalkEnds | internal/order/cursor.go:91-110 | the tokens run out: such a walk exists |
| Paging.WalkOverChanges | internal/order/ordermem/ordermem.go:98-157 | with creates and CreatedAt-preserving updates between calls no id repeats and every order that matched at every call is returned |
| Uuids.TextOrderIsValueOrder | internal/order/orderpg/orderpg.go:147 | canonical uuid texts compare as the uuids do |
| PostgresStore.RowRoundTrip | internal/order/orderpg/model.go:96-166 | toDomain undoes toRow on every valid order |
| PostgresStore.StatusRoundTrip | internal/order/order.go:27-72 | ParseStatus reads the five names, and the empty text as unspecified, and nothing else; it inverts String |
| PostgresStore.WhatRowsReadAs | internal/order/orderpg/model.go:129-166 | any row of the right column types, valid or not, reads as its own columns and its lines in the order of their numbers, exactly if its status is a known name and every amount is in range; an unknown status is an error of its own |
| PostgresStore.ReadOrder | internal/order/orderpg/model.go:129-166 | the conversion loop computes ToDomain, errors included |
| PostgresStore.ListRows | internal/order/orderpg/orderpg.go:89-175 | the seek, limit size + 1, conversion and cut give, for a token with a canonical id, the page that List owes over the orders the rows hold; for any token the same refusals and the same limits |
| PostgresStore.TwoStoresOneAnswer | internal/order/orderpg/orderpg.go:109-175 | for every set of storable orders, filter and token with a canonical id, both stores give the same page, token and errors |
| PostgresStore.WhichTokensReadAlike | internal/order/cursor.go:60-77 | for every accepted token, whichever of the four forms its id takes, the stores agree on all tables if and only if the text meets ReadAlike: canonical, or without hyphens with a lower-case first group and all other digits f, or all f in braces |
| PostgresStore.UrnIsRefused | internal/order/cursor.go:60-77 | over empty stores a urn id is an error in one and a page in the other |
| Uuids.FormsAreSpellings | internal/order/cursor.go:74 | the accepted texts are exactly the spellings, in either case, of canonical ids: plain, without hyphens, in braces, or as a urn; each reads as the value of its id, a urn not at all |
| Uuids.WhichFormsSortAlike | internal/order/orderpg/orderpg.go:147 | an accepted text compares with every canonical id as the value read in it if and only if it meets ReadAlike |
| PostgresStore.RespelledTokenSplitsTheStores | internal/order/cursor.go:60-77 | on an order's own table a token with any spelling of its id: Postgres returns nothing more, the in-memory store the order again exactly if the spelling is not canonical |
| Uuids.FormIsCanonicalInLowerCase | internal/order/cursor.go:74 | a text in uuid form is canonical exactly if it has no upper-case letter, and lower case keeps its value |
| Uuids.OneUpperCaseLetter | internal/order/cursor.go:74 | a concrete id in uuid form that is not canonical |
| KeyCacheModel.KeyCache.Refresh | internal/platform/auth/jwks.go:196-241 | too soon: nothing happens, an error only of a cold cache; otherwise the attempt is stamped and exactly a set with keys in it is installed |
| KeyCacheModel.KeyCache.KeyFor | internal/platform/auth/jwks.go:150-177 | a key within its age is served and nothing else happens; otherwise one refresh, then the key from whatever the cache holds, or one of the three errors |
| KeyCacheModel.KeyForIsARun | internal/platform/auth/jwks.go:150-241 | that call is a run of the concurrent step system |
| KeyCacheModel.FreshKeysNeedNoFetch | internal/platform/auth/jwks.go:150-191 | with any number of callers, a key within its age is answered at the first look, without lock or fetch; any other call goes on to refresh |
| KeyCacheModel.FetchesBeginWhenDue | internal/platform/auth/jwks.go:196-220 | a holder of the refresh mutex goes on to fetch exactly if minRefresh has passed, and nothing else begins a fetch |
| KeyCacheModel.KeysAreAsFreshAsCanBe | internal/platform/auth/jwks.go:150-241 | over every interleaving a returned key is in the last set fetched; it was within maxAge, or the call came back from refresh with a set fetched since, or younger than minRefresh then, or after a failed attempt |
| KeyCacheModel.StaleKeysMeanAnOutage | internal/platform/auth/jwks.go:150-241 | a set older than both limits when the call reached refresh, and not replaced since, is served only if the last finished attempt failed |
| KeyCacheModel.FetchesAreSpaced | internal/platform/auth/jwks.go:196-220 | in every run fetches start at least minRefresh apart and each ends before the next begins |
| KeyCacheModel.OneFetchAtATime | internal/platform/auth/jwks.go:196-198 | at most one call is fetching |
| KeyCacheModel.AnswersAreHonest | internal/platform/auth/jwks.go:157-177 | back from refresh, a call succeeds exactly if its key is in the last set fetched, and reports Unavailable exactly if no fetch ever succeeded |

## Left out

- Gcra.NothingIsLimitedBelowAMicrosecond: the number of remaining requests that Redis makes of
  the script's division by zero is left open.
- Lua's doubles: integers are unbounded here; the values stay below 2^53.
- Text is ASCII: `strings.ToUpper`, `strings.TrimSpace` and lengths in bytes agree with the
  model on ASCII only.
- Messages that no relay published (without a relayed id) do not appear in the step system;
  `MessageIds.FallbackCollision` says when their ids could matter.
- One durable consumer name, and the table of one projection.
- Delivery of a message and the start of its handler are one step; client-side buffering before
  the handler runs is not modelled, nor is an ack that extends a deadline.
- The death of a process inside `DrainOnce` or `dispatch` is a step of the runs (`Abandon`,
  `Die`), not an ending of those methods.
- Prune.Pruner.Run: runs on tables nobody else changes meanwhile; prunes interleaved with
  everything else are steps of the runs.
- OrderStore.Store.InTx: a callback is what it makes of its private copy and what it returns;
  one that panics is not modelled.
- OrderStore.State.Clone: the slices of an order that copies of the state share are values here.
- Sorting.SortedIsUnique: the algorithm of `sort.Slice` and the planner's execution of
  `ORDER BY ... LIMIT` are not modelled, only that result.
- PostgresStore.TwoStoresOneAnswer: creates and updates of the Postgres store are not modelled;
  its table is the image of the orders. Times have the same precision in both stores, and text
  columns hold no NUL.
- KeyCacheModel.KeyCache.KeyFor: the class runs one call at a time; the mutexes and the
  interleavings are in the step system.
- JWT signatures, JWK parsing, gRPC and HTTP plumbing, tracing, metrics, logging, migrations,
  `Money.String`, the error-kind table, `EnsureStream` and `classify`: I/O, wiring, or short
  single-branch code.
