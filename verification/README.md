# Verification of the payment platform's protocols

A Dafny model of the parts of the platform on which money and identity depend, with proofs. Check it
with `dafny verify dfyconfig.toml`.

| area | files | main results |
|---|---|---|
| saga coordinator | Saga, SagaMachine, SagaRun, SagaRecovery, SagaCompensated, SagaStranding, SagaReports, SagaCoordinator | crash safety over every run; the exact trace of a run and of a resumption; when a resumed saga is right, when one is stranded |
| outbox, publisher, consumer, double entry | Ledger, Outbox, OutboxProgress, OutboxPipeline | exactly-once effect, no loss, balanced books; exactly when everything comes to be booked |
| V1 to V2 migration | Reshard, ReshardMigrator | checkpoints never pass an uncopied row; done means complete; exactly when a shard is done |
| etcd registration | Registrar, EtcdRegistry | one lease at a time; nothing survives deregistration; when a `Register` leaks; loops end; a lost lease is replaced |
| identifiers | Identity | two-way inverse codecs, exact validators, shortcuts that agree |
| configuration cache | ConfigCache, ConfigClient | answers are in force and do not depend on the swapper's timing |
| redaction | Luhn, CardScrub, JsonScrub, JsonFields | error detection; exact, idempotent scrubbing; what is read as a field |
| amounts | Money, MoneyText | banker's rounding in two languages; format and parse round trip |
| rate limit | TokenBucket, TokenSupply, RateLimiter | window bound, and exactly when it is the configured one; when the collector is invisible; refusals cost nothing, and a key that asks gets its rate |
| id worker | Snowflake | increasing, collision-free ids under every clock; exactly when an id can be repeated |
| approvals | Approval, ApprovalVotes, ApprovalRules, ApprovalCoordinator | genuine approvals, append-only history, every action explained by its request |

A protocol is a small-step machine whose events carry everything the environment decides: whether a
store write arrives, what a call returns, where a process dies, which goroutine moves. The theorems
quantify over all lists of such events. Beside each machine a class keeps the source's fields and
performs its statements; its methods are proved to be paths of the machine, so the theorems hold of
them. In those methods a ghost set `on`, closed under the machine's events, stands for "every state
reachable from here".

Saga: `W` is the world outside the coordinator. `Setting.applied` counts how often a step is in effect
in it; re-executing an applied step must succeed without further effect, a failed step must leave none.
`stick` chooses between the two readings of the crash-safety theorem: with it a step that failed keeps
failing; without it a saga stored as `forwarding` neither dies nor loses its last write while it
compensates. Only the `completed` half of crash safety needs that: `SagaCompensated` proves the
`compensating` half without it, `StartedIsUntouched` the `started` half.

## Where the code differs from what it promises

- A crash or a lost write during compensation leaves `forwarding` in the store, so the saga is resumed
  forward (`SagaMachine.CrashWhileCompensatingBreaks`, `LostLastWriteBreaks`); `ResumeIsExact` says when
  that is harmless. A saga stored as `started` is never resumed; `SagaStranding.StrandedIff` says when
  that leaves something undone.
- A failure report in the asynchronous mode undoes earlier steps but does not stop later success
  reports, so a saga can be stored `completed` with steps undone (`SagaReports.CompletedButUndoneIff`).
  A report for the index after the last step of a completed saga panics.
- `ListUnfinished` returns one instance when asked for none.
- The migrator never copies rows whose key is not positive (`Reshard.CompleteIffKeysArePositive`).
- A `Register` on a registrar whose last registration may still succeed or is in effect can leak a lease
  (`Registrar.RegisterLeaksIff`, `SecondRegisterLeaks`).
- `ValidateAccountIDLayout` refuses V2 tables 100 to 999; shadow fleet ids from 9,009,000,000 on decode
  to channels that cannot be encoded; `ShadowUserID(1e8)` is 9.01e9, not 9e9 as its comment says.
- A deleted configuration key is still served from the fallback; an immediate update removes a pending
  one whatever its version; a scheduled update can overtake a due one.
- `divHalfToEven` has the wrong sign for the smallest 64-bit number and `FormatMinor` does not print it
  as a decimal number; for currencies without decimals the web parser truncates.
- `Retry-After` is rounded down. The collector gives idle buckets back full, so a key can get more than
  its rate exactly if ten minutes do not refill an empty bucket (`TokenBucket.BoundHoldsIff`).
- The id worker can repeat an id exactly if the clock, having gone back, jumped past the recorded second
  when it was issued (`Snowflake.RepeatsIff`).
- An approval under review can be completed after its expiry date.

## Model

| member | source | states |
|---|---|---|
| Saga.Rollback | packages/payment-util/outbox/saga.go:311-336 | compensation is either clean, and then reaches step 0, or it stops at a step that has a compensator |
| Saga.RollbackRestores | packages/payment-util/outbox/saga.go:311-336 | if, at the worlds of this run, compensators that succeed give back a view of the world, a clean rollback of k successful steps gives the first view back, from any world that shows the same view |
| Saga.CleanCompensationRestores | packages/payment-util/outbox/saga.go:247-256 | a saga whose first failing step is i and whose compensation is clean leaves the view as it was before step 0 |
| SagaMachine.InvStep | packages/payment-util/outbox/saga.go:199-336 | one invariant over worker position, in-memory instance, stored instance and world is kept by every store write (arriving or lost), business call, crash and resume |
| SagaMachine.CrashSafety | packages/payment-util/outbox/saga.go:199-267 | for any number of crashes, resumptions and lost writes: stored `completed` means every step in effect exactly once, `compensating` no undoable step in effect, absent none at all; only a crash or a lost last write while a saga stored as `forwarding` compensates is excluded, unless failures stick |
| SagaMachine.StartedIsUntouched | packages/payment-util/outbox/saga.go:230-237 | if one of the two early `forwarding` writes arrives, a saga stored as `started` has no step in effect, whatever crashes and fails |
| SagaCompensated.CompensatingIsClean | packages/payment-util/outbox/saga.go:247-256 | with crashes and lost writes anywhere, compensation included, and no assumption on failures: stored `compensating` means no undoable step in effect |
| SagaCompensated.CompensatingIsCleanAmongOthers | packages/payment-util/outbox/saga.go:247-256 | the same when other sagas change the shared world in between |
| SagaMachine.CrashSafetyAmongOthers | packages/payment-util/outbox/saga.go:199-267 | crash safety when other sagas change the shared world in between, as long as they leave the effects of this one alone |
| SagaMachine.StartedIsUntouchedAmongOthers | packages/payment-util/outbox/saga.go:230-237 | the statement on `started` in that setting |
| SagaMachine.FailuresCanStick | packages/payment-util/outbox/saga.go:199-267 | the stronger assumption is met by a saga whose second step always fails |
| SagaMachine.ResumeIsExact | packages/payment-util/outbox/saga.go:392-410 | a resumed saga that ends `completed` has every step in effect exactly once if and only if every step below the stored `CurrentStep` was in effect when it was resumed |
| SagaMachine.CrashWhileCompensatingBreaks | packages/payment-util/outbox/saga.go:333-333 | a concrete run of idempotent steps: a crash in the middle of compensation leaves `forwarding` in the store, and the resumed saga completes without its first step |
| SagaMachine.LostLastWriteBreaks | packages/payment-util/outbox/saga.go:253-256 | the same without a crash, when only the write of the final `compensating` state is lost |
| SagaMachine.LostForwardingWritesStrand | packages/payment-util/outbox/saga.go:230-237 | a concrete run: both early writes are lost, a step is applied, the process dies, and the stored `started` saga is never resumed |
| SagaStranding.RunIsExact | packages/payment-util/outbox/saga.go:230-266 | at every point of an uninterrupted run, with any writes lost: which steps are in effect and what is stored |
| SagaStranding.StrandedIff | packages/payment-util/outbox/saga.go:230-237 | for every saga of idempotent steps and a death at any point: it is stored `started`, which nothing resumes, with a step in effect, if and only if no write after the first has arrived and the place of death shows a step not undone |
| SagaStranding.StrandedAfterFirstCallIff | packages/payment-util/outbox/saga.go:230-237 | death right after the first call strands the saga if and only if both writes of the `forwarding` state are lost and the call succeeded |
| SagaRun.RunFromStart | packages/payment-util/outbox/saga.go:199-267 | every uninterrupted run calls E0..Ei and then exactly the non-nil compensators of i-1..0 in reverse order, or a prefix of them ending in the one that failed; step results and final state follow |
| SagaRecovery.RunFromStored | packages/payment-util/outbox/saga.go:387-412 | every uninterrupted resumption of a stored `forwarding` saga calls the steps from the stored `CurrentStep` on, in order; it ends `completed` exactly if all succeed, and otherwise calls the non-nil compensators of all steps before the failed one, those of the first life included, in reverse order |
| SagaRun.CompensatedRunRestores | packages/payment-util/outbox/saga.go:247-256 | a run that ends `compensating` restores the reversible part of the initial world |
| SagaRun.IdempotentIsReversible | packages/payment-util/outbox/saga.go:379-379 | idempotent steps none of which is in effect yet are reversible: the view is the ledger of the undoable steps |
| SagaRun.CompensatedRunLeavesNothing | packages/payment-util/outbox/saga.go:247-256 | so a run of such a saga that ends `compensating` has no undoable step in effect |
| SagaRun.ShopIsReversible | packages/payment-util/outbox/saga.go:379-379 | a shop with a debit and a credit meets it |
| SagaCoordinator.Coordinator.constructor | packages/payment-util/outbox/saga.go:185-190 | an empty store and a definition |
| SagaCoordinator.Coordinator.Save | packages/payment-util/outbox/saga.go:273-290 | a write replaces one stored instance or is lost; nothing else changes |
| SagaCoordinator.Coordinator.TryStep | packages/payment-util/outbox/saga.go:233-257 | the forward call of step i is moves of the machine |
| SagaCoordinator.Coordinator.RecordStep | packages/payment-util/outbox/saga.go:258-259 | recording a completed step is a move of the machine |
| SagaCoordinator.Coordinator.UndoStep | packages/payment-util/outbox/saga.go:314-334 | one round of the compensation loop is moves of the machine |
| SagaCoordinator.Coordinator.Compensate | packages/payment-util/outbox/saga.go:311-336 | the compensation loop is a path of the machine from step k down |
| SagaCoordinator.Coordinator.Forward | packages/payment-util/outbox/saga.go:233-266 | the forward loop is a path of the machine to an idle worker with a final state |
| SagaCoordinator.Coordinator.Start | packages/payment-util/outbox/saga.go:199-267 | every error of `Start`, and otherwise the trace and world that RunFromStart describes; the final instance is stored if its write arrives, and otherwise what is stored is not final |
| SagaCoordinator.Coordinator.RetryStep | packages/payment-util/outbox/saga.go:392-404 | a resumed step is a move of the machine; nothing is stored in between |
| SagaCoordinator.Coordinator.Retry | packages/payment-util/outbox/saga.go:392-410 | the resume loop over one instance is a path of the machine |
| SagaCoordinator.Coordinator.ResumeOne | packages/payment-util/outbox/saga.go:387-412 | resuming one stored instance is a run of the machine that begins with Resume; calls, world and final instance are as RunFromStored describes, and that instance is stored if the last write arrives |
| SagaCoordinator.Coordinator.AdvanceStep | packages/payment-util/outbox/saga.go:343-375 | the error for every case, one of them a panic, the stored state, step results and position, the compensators called, and the rollback of a failure report |
| SagaCoordinator.Coordinator.FailStep | packages/payment-util/outbox/saga.go:354-366 | a failure report runs Rollback from the reported step and stores the outcome, with every step that was compensated marked, without moving `CurrentStep` |
| SagaCoordinator.Coordinator.ListUnfinished | packages/payment-util/outbox/saga.go:135-150 | distinct unfinished instances: as many as there are up to `limit`, or up to one if `limit` is 0 |
| SagaCoordinator.Coordinator.ResumeUnfinished | packages/payment-util/outbox/saga.go:381-414 | every listed `forwarding` saga is resumed in turn, as RunFromStored describes, each in the world the one before left, and what is stored of it is its final instance if that write arrived; all others stay as stored; their number is returned |
| SagaCoordinator.Coordinator.ResumeEach | packages/payment-util/outbox/saga.go:387-412 | the loop resumes the listed `forwarding` sagas, one after the other, and counts them |
| SagaCoordinator.Coordinator.ResumeIfForwarding | packages/payment-util/outbox/saga.go:387-390 | a `forwarding` saga is resumed from its stored step: the calls made, the world they leave, what is stored; any other saga is left alone |
| SagaReports.ReportsAccepted | packages/payment-util/outbox/saga.go:343-375 | for every sequence of reports, `CurrentStep` is the length of the longest chain of stored successes in index order, and `completed` is stored exactly when it reaches n |
| SagaReports.AcceptedChain | packages/payment-util/outbox/saga.go:350-353 | the accepted reports are such a chain: each index once, in order |
| SagaReports.NoLongerChain | packages/payment-util/outbox/saga.go:350-353 | no longer chain exists in the reports |
| SagaReports.IntactIff | packages/payment-util/outbox/saga.go:354-366 | for every sequence of reports, `completed` in the end or not: no compensator has been called if and only if no failure of the then current step was reported with a compensator below it |
| SagaReports.CompletedButUndoneIff | packages/payment-util/outbox/saga.go:343-375 | exactly which sequences of reports leave a saga stored `completed` with compensated steps |
| SagaReports.SuccessAfterFailureCompletes | packages/payment-util/outbox/saga.go:354-374 | the smallest one: step 1 fails, step 0 is compensated, step 1 is then reported done, and the saga is stored `completed` |
| Ledger.PostAllAdds | packages/accounting-system/internal/outboxconsumer/handler.go:87-193 | posting movements changes each account by exactly the sum of its debits and credits |
| Ledger.PostKeepsTotal | packages/accounting-system/internal/outboxconsumer/handler.go:87-193 | posting movements keeps the total of the touched accounts in every currency |
| Ledger.WhatEventsMove | packages/accounting-system/internal/outboxconsumer/handler.go:53-193 | for each of the five events, what it adds to every account: amount, fees only if positive, net amount, in which direction |
| Ledger.AccountsDiffer | packages/accounting-system/internal/outboxconsumer/handler.go:87-193 | the four accounts are different for all payloads, and no two merchants or currencies share one |
| Ledger.SharesAreExact | packages/accounting-system/internal/outboxconsumer/handler.go:87-193 | so the wallet, the receivable, the revenue and the bank account each get exactly their share of an event |
| Ledger.ReversalsUndo | packages/accounting-system/internal/outboxconsumer/handler.go:87-193 | a refund or reversal with the same payload undoes its event on every account, up to the fees |
| Ledger.SameEventsSameEffect | packages/accounting-system/internal/outboxconsumer/handler.go:53-75 | the combined effect of events does not depend on their order or on events that post nothing |
| Outbox.RunKeeps | packages/payment-util/outbox/consumer.go:107-186 | the pipeline invariant holds after every run of appends, fetches, publications, deliveries, replays and clean-ups |
| Outbox.BookKeeps | packages/accounting-system/internal/outboxconsumer/handler.go:112-112 | the booking key of an event is seen at most once, so balances stay the sum of distinct booked events |
| Outbox.ExactlyOnceEffect | packages/payment-util/outbox/consumer.go:133-186 | in every run, with duplicate deliveries and crashes anywhere around the commit, balances equal the movements of the booked events counted once; processed events are booked and booked events are committed |
| Outbox.NoEventIsLost | packages/payment-util/outbox/publisher.go:129-159 | in every run a committed event is in the table or was deleted after a successful publication; `published` implies a success, `failed` implies DLQ mode and enough failures; a published event is in the topic |
| Outbox.QuietMeansAllBookedOnce | packages/payment-util/outbox/consumer.go:107-186 | once nothing is pending and every message is acknowledged, balances are those of every committed event exactly once |
| Outbox.BooksBalance | packages/accounting-system/internal/outboxconsumer/handler.go:87-193 | in every run the balances of all touched accounts sum to zero per currency |
| OutboxProgress.ComesToRest | packages/payment-util/outbox/publisher.go:90-214 | from wherever a run has come, publishing, replaying and delivering what is left brings the outbox to rest, if no committed event is malformed |
| OutboxProgress.RestIsReachableIff | packages/payment-util/outbox/publisher.go:90-214 | the outbox can be brought to rest from there if and only if no committed event is malformed; at rest every committed event that carries movements is booked |
| OutboxPipeline.Pipeline.Append | packages/payment-util/outbox/append.go:19-45 | a valid event of a committed transaction becomes one pending row and nothing else changes; an invalid one, one whose id has a row, or a rollback leaves everything as it was |
| OutboxPipeline.Pipeline.FetchPending | packages/payment-util/outbox/publisher.go:96-122 | distinct pending rows, at most the limit, all of them if fewer |
| OutboxPipeline.Pipeline.SendNext | packages/payment-util/outbox/publisher.go:129-131 | the message may reach the topic even if the call reports an error |
| OutboxPipeline.Pipeline.UpdateRow | packages/payment-util/outbox/publisher.go:132-156 | one status update, or none if it is lost |
| OutboxPipeline.Pipeline.PublishOne | packages/payment-util/outbox/publisher.go:129-159 | success makes the row `published`; a failure counts one more try and makes it `failed` exactly in DLQ mode at `maxRetries`; no other row changes, and none does if the update is lost |
| OutboxPipeline.Pipeline.Tick | packages/payment-util/outbox/publisher.go:90-127 | is a fetch followed by one publication per fetched row, in order; a failed query does nothing |
| OutboxPipeline.Pipeline.ReplayFailed | packages/payment-util/outbox/publisher.go:181-202 | makes exactly the named failed rows pending with no tries, and returns their number |
| OutboxPipeline.Pipeline.CleanupPublished | packages/payment-util/outbox/publisher.go:205-214 | deletes exactly the old published rows, leaves the others alone, and returns their number |
| OutboxPipeline.Pipeline.PostMovements | packages/accounting-system/internal/outboxconsumer/handler.go:34-36 | posts every movement once per key |
| OutboxPipeline.Pipeline.HandleEvent | packages/accounting-system/internal/outboxconsumer/handler.go:53-75 | books exactly the events that carry movements; reports an error for a malformed payload or a failing booking call |
| OutboxPipeline.Pipeline.ProcessOne | packages/payment-util/outbox/consumer.go:133-186 | success and new tables for every way a delivery can go |
| OutboxPipeline.Pipeline.Consume | packages/payment-util/outbox/consumer.go:114-128 | a message is acknowledged exactly if it was processed and the acknowledgement arrives; a success marks its event processed |
| Reshard.BucketedHolds | packages/payment-util/reshard/migrator.go:408-421 | the buckets hold exactly the transformed rows of the batch, each under its own destination |
| Reshard.StoreKeeps | packages/payment-util/reshard/migrator.go:81-85 | insert-ignore of image rows leaves only image rows, keeps what was there, and stores all of them |
| Reshard.StepKeeps | packages/payment-util/reshard/migrator.go:294-395 | the copy invariant is kept by every event of every worker, with crashes, partial writes and lost saves |
| Reshard.CheckpointIsSafe | packages/payment-util/reshard/migrator.go:365-371 | no saved checkpoint ever passes a row that is not in V2, and V2 holds transformed rows only |
| Reshard.DoneShardIsComplete | packages/payment-util/reshard/migrator.go:374-382 | a shard that has been reported done has all its transformable rows with positive keys in V2, whatever the other shards do |
| Reshard.DoneMeansComplete | packages/payment-util/reshard/migrator.go:374-382 | when every shard has been reported done, V2 holds exactly the transformed rows with a positive key |
| Reshard.CompleteIffKeysArePositive | packages/payment-util/reshard/migrator.go:66-73 | a finished migration has copied every row if and only if all keys are positive, because the first scan starts after 0 |
| Reshard.RowZeroIsSkipped | packages/payment-util/reshard/migrator.go:66-73 | a concrete source whose row with key 0 is never copied |
| Reshard.CheckpointOnlyAdvances | packages/payment-util/reshard/checkpoint.go:43-51 | a checkpoint never moves back |
| ReshardMigrator.MemCheckpoint.Save | packages/payment-util/reshard/checkpoint.go:83-100 | keeps the larger of old and new for both numbers and changes no other entry |
| ReshardMigrator.MemCheckpoint.Load | packages/payment-util/reshard/checkpoint.go:102-111 | the saved entry, zero if there is none |
| ReshardMigrator.Migrator.ScanV1 | packages/payment-util/reshard/migrator.go:66-73 | a scan that meets the interface contract |
| ReshardMigrator.Migrator.WriteV2 | packages/payment-util/reshard/migrator.go:81-85 | insert-ignore that stops after some rows |
| ReshardMigrator.Migrator.SortIntoBuckets | packages/payment-util/reshard/migrator.go:408-421 | the loop builds the specified buckets |
| ReshardMigrator.Migrator.ProcessBatch | packages/payment-util/reshard/migrator.go:400-432 | true exactly if the limiter agrees and the write of every bucket succeeds, in any order; a path of the machine |
| ReshardMigrator.Migrator.RunBatch | packages/payment-util/reshard/migrator.go:344-372 | a batch either advances the worker to its last key or leaves it where it was |
| ReshardMigrator.Migrator.Pass | packages/payment-util/reshard/migrator.go:305-394 | when one pass of the loop ends the shard and where it leaves the tail; a finished shard whose save arrives has its checkpoint at the last key |
| ReshardMigrator.Migrator.RunShard | packages/payment-util/reshard/migrator.go:294-395 | an allowed run of the machine from wherever other workers left the tables; reports done exactly if its rounds finish the shard from the checkpoint it loaded, and then, if the saves arrive, the checkpoint is the last key |
| ReshardMigrator.SweepingEnds | packages/payment-util/reshard/migrator.go:305-394 | whatever failed before, a round that scans to the last key ends the shard if limiter and writes succeed |
| ReshardMigrator.EndsOnlyAtLast | packages/payment-util/reshard/migrator.go:374-382 | no shard ends without a scan that finds its last row |
| ReshardMigrator.ReachableIsSafe | packages/payment-util/reshard/migrator.go:294-395 | whatever calls were made since empty tables, the copy invariant holds |
| Registrar.StepKeeps | packages/payment-util/kitexutil/registrar.go:117-230 | the lease invariant is kept by every step of every goroutine, every stream loss, lost revocation, and every `Register` after the last registration has ended or failed |
| Registrar.AtMostOneIsKeptAlive | packages/payment-util/kitexutil/registrar.go:146-161 | in every interleaving without overlapping registrations, at most one stream is open, it belongs to the goroutine in charge, and a current lease is the one its loop watches |
| Registrar.NothingSurvivesDeregister | packages/payment-util/kitexutil/registrar.go:207-230 | at rest after `Deregister`, whichever revocations failed: no loop left, nothing kept alive, every granted lease revoked, or its keep-alive cancelled, or never kept alive at all |
| Registrar.StoppedLoopsEnd | packages/payment-util/kitexutil/registrar.go:181-199 | after `Deregister` the goroutines take a bounded number of steps, whatever etcd answers and however many there are |
| Registrar.RegisterLeaksIff | packages/payment-util/kitexutil/registrar.go:146-152 | before `Deregister`, a further `Register` opens the way to a lease that stays alive for ever if and only if the registration before it has neither ended nor failed |
| Registrar.OverlappingRegisterLeaks | packages/payment-util/kitexutil/registrar.go:146-152 | the run that leaks, from every such point of every run |
| Registrar.SecondRegisterLeaks | packages/payment-util/kitexutil/registrar.go:146-152 | the smallest one: a second `Register` overwrites `keepCanc`, and the first lease is still kept alive after `Deregister` |
| EtcdRegistry.Registry.Install | packages/payment-util/kitexutil/registrar.go:146-161 | the lock section of `doRegisterOnce`: installs the lease unless stopped |
| EtcdRegistry.Registry.Acquire | packages/payment-util/kitexutil/registrar.go:117-144 | succeeds exactly if grant, endpoint and keep-alive do, other goroutines interleaved; a lease it was granted and does not keep is revoked if etcd lets it |
| EtcdRegistry.Registry.DoRegisterOnce | packages/payment-util/kitexutil/registrar.go:117-162 | fails exactly if one of the three calls does; success ends looping with the new lease installed or, if stopped meanwhile, with that lease given back |
| EtcdRegistry.Registry.Forget | packages/payment-util/kitexutil/registrar.go:170-180 | the lock section after a lost stream |
| EtcdRegistry.Registry.Retry | packages/payment-util/kitexutil/registrar.go:181-199 | goes on until an attempt succeeds or everything is stopped: still waiting only if all attempts failed, over only if stopped, otherwise looping on a lease one of them was granted, and that lease is the current one |
| EtcdRegistry.Registry.KeepaliveLoop | packages/payment-util/kitexutil/registrar.go:166-200 | a lost stream is followed by forgetting the lease and retrying, with the same ends |
| EtcdRegistry.Registry.Register | packages/payment-util/kitexutil/registrar.go:90-113 | one attempt; it ends looping on its lease, or over: after an error, or because everything is stopped |
| EtcdRegistry.Registry.Deregister | packages/payment-util/kitexutil/registrar.go:207-230 | the first call stops, clears both fields, cancels the keep-alive, and revokes the lease unless it returns the error; a second call does nothing |
| EtcdRegistry.ReachableIsClosed | packages/payment-util/kitexutil/registrar.go:117-230 | the states that runs reach, with registrations kept apart or not, form a set that no event leaves |
| EtcdRegistry.RegistryGivesEverythingBack | packages/payment-util/kitexutil/registrar.go:207-230 | a registry in such a state, with registrations kept apart, has given everything back when it rests after `Deregister` |
| Identity.Split | packages/payment-util/shadow/identity.go:826-865 | a number splits into high and low digits in one way only |
| Identity.DecodeUndoesEncode | packages/payment-util/shadow/identity.go:746-771 | decoding gives back every field of a V1 or V2 encoding |
| Identity.EncodersFit | packages/payment-util/shadow/identity.go:797-824 | no product, partial sum or result of an encoder leaves int64 |
| Identity.EncodeUndoesDecode | packages/payment-util/shadow/identity.go:830-865 | every id below 4e18 with a non-zero serial is the encoding of what it decodes to |
| Identity.ImagesAreBlocks | packages/payment-util/shadow/identity.go:681-706 | the images of the two encoders by shadow flag are exactly four disjoint blocks of ids |
| Identity.TableIndexIsDecoded | packages/payment-util/shadow/identity.go:873-888 | the table shortcut equals the decoded table on every integer, negative ones included |
| Identity.ShadowShortcutIsDecoded | packages/payment-util/shadow/identity.go:921-923 | the shadow shortcut equals the decoded flag exactly below 4e18 or where the leading digit is odd |
| Identity.ValidateIsExact | packages/payment-util/shadow/identity.go:931-956 | accepted are exactly the V1 ids of the context and its V2 ids with a table up to 99 |
| Identity.ValidateRefusesV2Tables | packages/payment-util/shadow/identity.go:946-948 | a well-formed V2 id of table 100 is refused |
| Identity.EntityIsExact | packages/payment-util/shadow/identity.go:397-462 | entity ids round-trip both ways and the validator accepts exactly the encodings of its context |
| Identity.GenericIsExact | packages/payment-util/shadow/identity.go:1036-1076 | generic ids round-trip; encodings are exactly the ids below 2e18 with a non-zero serial |
| Identity.GenericIndexIsDecoded | packages/payment-util/shadow/identity.go:1080-1095 | the table shortcut equals the decoded table on every integer, and the encoded one; the database is the fifteenth digit |
| Identity.MerchantIsExact | packages/payment-util/shadow/identity.go:277-333 | the validator accepts exactly the encodings of its context; the shadow mapping keeps the serial and is idempotent |
| Identity.SegmentsAreDisjoint | packages/payment-util/shadow/identity.go:62-84 | no user id lies in two of the four segments |
| Identity.FleetRoundTrip | packages/payment-util/shadow/identity.go:127-189 | fleet ids land in their segment and round-trip, except the last million of the shadow segment |
| Identity.ShadowFleetChannel9000 | packages/payment-util/shadow/identity.go:165-178 | the first shadow fleet id that decodes but is not encoded by what it decodes to |
| Identity.ShadowUserIsInjective | packages/payment-util/shadow/identity.go:204-241 | main users map one to one into the shadow user segment; mapping twice changes nothing |
| ConfigCache.OneKey | packages/payment-util/configcenter/client.go:423-449 | what a tick or an event does to one key depends on that key alone |
| ConfigCache.FoundIff | packages/payment-util/configcenter/client.go:355-379 | a value is answered exactly if pending, active or fallback holds one whose time has come and not gone, and what is answered is one of those |
| ConfigCache.AnswersAreInForce | packages/payment-util/configcenter/client.go:355-379 | after every list of updates, deletions and ticks, what a key answers was pushed for that key, has taken effect and has not expired |
| ConfigCache.TickIsInvisibleIff | packages/payment-util/configcenter/client.go:431-437 | a tick changes what a key offers later exactly if it promotes a value that expires before an active one does |
| ConfigCache.TicksOnlyRunAhead | packages/payment-util/configcenter/client.go:423-449 | along a whole run the slots with ticks are those without, at most with a due value already promoted |
| ConfigCache.TicksDoNotMatter | packages/payment-util/configcenter/client.go:355-379 | for a key without expiry the answer does not depend on when the swapper ticked, unless a scheduled update overtakes a due pending value |
| ConfigCache.OthersDoNotMatter | packages/payment-util/configcenter/client.go:355-379 | ticks and events for other keys, in any order, leave the answer as it was |
| ConfigCache.OvertakingLosesTheDueValue | packages/payment-util/configcenter/client.go:602-607 | exactly when such an overtaking update makes the answer depend on the tick |
| ConfigCache.ImmediateDropsPending | packages/payment-util/configcenter/client.go:598-601 | the code keeps the promise of its comment about pending versions exactly when nothing is pending or the pending version is lower |
| ConfigCache.LateOldVersionWins | packages/payment-util/configcenter/client.go:598-601 | a concrete run: an older version that arrives late removes a newer scheduled one |
| ConfigCache.DeletionIsServedFromFallback | packages/payment-util/configcenter/client.go:587-589 | after a deletion `Get` still answers the old active value exactly as long as it is effective |
| ConfigCache.DeletionTakesTwoChanges | packages/payment-util/configcenter/client.go:372-378 | the deleted key is gone once any other key changes |
| ConfigClient.Client.Get | packages/payment-util/configcenter/client.go:355-379 | the first effective of pending, active and fallback, or the right error |
| ConfigClient.Client.MaybeSwap | packages/payment-util/configcenter/client.go:423-449 | promotes every due pending value, keeps the old snapshot as fallback, and notifies exactly the promoted keys, each once |
| ConfigClient.Client.OnUpdate | packages/payment-util/configcenter/client.go:571-633 | routes to active or pending, moves `maxVersion` to the maximum, and notifies exactly values effective at once, which `Get` then answers |
| ConfigClient.Client.OnDelete | packages/payment-util/configcenter/client.go:587-589 | removes the key and leaves `maxVersion` alone |
| Luhn.Check | packages/payment-util/piiredact/piiredact.go:590-605 | the right-to-left loop computes the weighted sum modulo 10 |
| Luhn.OneWrongDigitIsCaught | packages/payment-util/piiredact/piiredact.go:590-605 | changing one digit of an accepted string of any length is detected |
| Luhn.AdjacentSwapIsCaught | packages/payment-util/piiredact/piiredact.go:590-605 | swapping two adjacent digits goes unnoticed exactly if they are equal or 0 and 9 |
| CardScrub.RunEnd | packages/payment-util/piiredact/piiredact.go:573-576 | finds the maximal digit run |
| CardScrub.Scrub | packages/payment-util/piiredact/piiredact.go:561-588 | the scan replaces exactly the middle of Luhn-valid maximal runs of 13 to 19 digits |
| CardScrub.LongRunIsOld | packages/payment-util/piiredact/piiredact.go:561-588 | a long run in the output was there before and is no card number |
| CardScrub.NoCardIsLeft | packages/payment-util/piiredact/piiredact.go:561-588 | no digit run of the output is a card number |
| CardScrub.ScrubbingIsExact | packages/payment-util/piiredact/piiredact.go:561-588 | length kept, exact positions changed, idempotent |
| CardScrub.CardAlone | packages/payment-util/piiredact/piiredact.go:578-581 | a card number keeps its first six and last four digits |
| JsonScrub.ScanOne | packages/payment-util/piiredact/piiredact.go:252-316 | one round of the scan consumes exactly the first piece of the rest |
| JsonScrub.Scrub | packages/payment-util/piiredact/piiredact.go:248-319 | the scan loop computes the scrubbed text |
| JsonScrub.PrintParse | packages/payment-util/piiredact/piiredact.go:248-319 | the pieces concatenate to the text: everything not replaced is copied |
| JsonScrub.ScrubbedParses | packages/payment-util/piiredact/piiredact.go:248-319 | the output is read as the same pieces, with the placeholder under every matching key and nothing else changed |
| JsonScrub.ScrubTwice | packages/payment-util/piiredact/piiredact.go:248-319 | a second Drop pass changes nothing |
| JsonScrub.ChangesOnlyMatches | packages/payment-util/piiredact/piiredact.go:308-315 | the text stays as it is exactly if every matching value is the placeholder already |
| JsonFields.FieldIsRead | packages/payment-util/piiredact/piiredact.go:252-316 | a text that begins with a quoted key, blanks, a colon, blanks and a quoted value, escaped quotes allowed in both, is read as that field |
| JsonFields.FieldIff | packages/payment-util/piiredact/piiredact.go:252-316 | nothing else is read as a field |
| JsonFields.MatchingValueIsReplaced | packages/payment-util/piiredact/piiredact.go:304-316 | such a value is replaced exactly under a matching key, and the scan goes on behind it |
| Money.RoundedIsHalfToEven | packages/payment-util/money/money.go:205-225 | the rounding is a nearest integer, the even one of two |
| Money.HalfToEvenIsUnique | packages/payment-util/money/money.go:205-225 | there is only one such integer |
| Money.RoundingIsOdd | packages/payment-util/money/money.go:205-225 | rounding commutes with the sign |
| Money.RoundingIsMonotone | packages/payment-util/money/money.go:205-225 | rounding keeps order |
| Money.DivHalfToEven | packages/payment-util/money/money.go:206-225 | with 64-bit arithmetic the result is that integer if and only if neither negating the numerator nor doubling the remainder overflows |
| Money.WebRoundsTheSame | packages/accounting-admin-web/src/utils/money.ts:142-164 | the TypeScript version rounds half to even on all integers |
| Money.StorageToMinorBanker | packages/payment-util/money/money.go:198-203 | an error exactly for an unknown currency; Go and TypeScript agree on every 64-bit amount except the smallest, which changes its sign |
| Money.RoundToStorage | packages/payment-util/money/money.go:280-286 | an error exactly for an unknown currency; the rounded amount; the smallest 64-bit amount comes out positive |
| Money.RoundToStorageIsIdempotent | packages/payment-util/money/money.go:280-286 | moves by at most half a minor unit, is accepted by the strict conversion, and is idempotent |
| MoneyText.MinorUnitsPerMajor | packages/payment-util/money/money.go:157-167 | the loop computes the power of ten |
| MoneyText.FormatMinor | packages/payment-util/money/money.go:242-262 | the text of every 64-bit amount, or an error for an unknown currency |
| MoneyText.FormattedIsDecimal | packages/payment-util/money/money.go:242-262 | for every amount but the smallest the text is sign, whole units and the fraction padded to the precision |
| MoneyText.MinIsNoDecimal | packages/payment-util/money/money.go:248-251 | the text of the smallest 64-bit amount is not a decimal number |
| MoneyText.ValueAppend | packages/accounting-admin-web/src/utils/money.ts:264-277 | the value of a concatenation of digit strings |
| MoneyText.ReadDecimal | packages/accounting-admin-web/src/utils/money.ts:253-261 | a decimal string is read as its sign, whole part and fraction |
| MoneyText.FormatThenParse | packages/accounting-admin-web/src/utils/money.ts:253-290 | for precision at least 1, parsing the Go text of a 64-bit amount returns the amount if and only if it is not the smallest one |
| MoneyText.ShortFractionsAreExact | packages/accounting-admin-web/src/utils/money.ts:271-272 | a fraction of at most `precision` digits is read exactly |
| MoneyText.LongFractionsAreRounded | packages/accounting-admin-web/src/utils/money.ts:273-286 | a longer fraction is the exact value rounded half to even, sign included |
| MoneyText.NoDecimalsTruncates | packages/accounting-admin-web/src/utils/money.ts:270-270 | for precision 0 the fraction is dropped, which is that rounding exactly below a half or at a half of an even amount |
| TokenBucket.RunKeeps | packages/payment-mw/ratelimit.go:77-98 | tokens stay between 0 and the capacity |
| TokenBucket.RunSpends | packages/payment-mw/ratelimit.go:77-98 | from any bucket, with the collector or without, tokens left plus admissions never exceed the capacity and any gain that covers the refill and the buckets given back full |
| TokenBucket.RunFits | packages/payment-mw/ratelimit.go:66-130 | a run from any sound bucket admits at most capacity + r * T, for every r that is at least the rate and, with the collector, refills an empty bucket in ten minutes |
| TokenBucket.WindowBound | packages/payment-mw/ratelimit.go:66-130 | with the collector or without, in any stretch of any run at most capacity + LongRunRate * T requests are admitted: the rate, or a full bucket every ten minutes if the collector passes and that is more |
| TokenBucket.BoundHoldsIff | packages/payment-mw/ratelimit.go:66-130 | the limiter as it runs, with its collector, admits at most capacity + r * T in every stretch of every run, for the rate or a higher r, if and only if ten minutes at r refill an empty bucket |
| TokenBucket.RunsAlike | packages/payment-mw/ratelimit.go:114-130 | with capacity at most 600 * rate, every decision is the same with and without the collector |
| TokenBucket.TwiceWithCollector | packages/payment-mw/ratelimit.go:118-127 | two full bursts get through if the collector passes between them |
| TokenBucket.CollectorIsInvisibleIff | packages/payment-mw/ratelimit.go:114-130 | dropping idle buckets changes no decision in any run if and only if ten minutes refill an empty bucket |
| TokenBucket.RetryAfterIsEnoughIff | packages/payment-mw/ratelimit.go:84-87 | waiting `Retry-After` seconds finds a token exactly if the needed wait is whole or at most one second |
| TokenSupply.RefusalsCostNothing | packages/payment-mw/ratelimit.go:77-98 | leaving refused requests out of a run, all or some, changes no decision on the others, without the collector or where ten minutes refill an empty bucket |
| TokenSupply.RefusalIsJustified | packages/payment-mw/ratelimit.go:77-98 | at every refusal the key has been admitted, since some request that found the bucket full, more often than the capacity and the refill since then, less one |
| TokenSupply.PollingLosesNothing | packages/payment-mw/ratelimit.go:77-98 | for a key that asks at least as often as tokens come and a capacity of two or more: admissions and tokens left are together what there was and the refill |
| TokenSupply.PollingGetsItsRate | packages/payment-mw/ratelimit.go:77-98 | so it is admitted at least once and at its rate |
| TokenSupply.EachAdmissionLosesOneGap | packages/payment-mw/ratelimit.go:77-98 | with any capacity and however seldom it asks, each admission stands for one token and at most the refill of one gap |
| TokenSupply.WaitingIsServed | packages/payment-mw/ratelimit.go:77-98 | a request one token after the last one is admitted, whatever was refused before |
| RateLimiter.Limiter.GetBucket | packages/payment-mw/ratelimit.go:104-111 | the bucket of the key, a full one if there is none |
| RateLimiter.Limiter.Handle | packages/payment-mw/ratelimit.go:77-98 | one request is one step of its key alone: the tokens left are those after the refill, less one if it passes, with the whole tokens that remain and the retry advice |
| RateLimiter.Limiter.Collect | packages/payment-mw/ratelimit.go:117-129 | one pass is one Collect for every key |
| Snowflake.OrIsSum | packages/accounting-system/internal/common/idgen.go:78-78 | bitwise or of disjoint bit ranges is their sum |
| Snowflake.IdsAreOrdered | packages/accounting-system/internal/common/idgen.go:78-78 | ids are equal only with equal fields, ordered by second and number, and positive |
| Snowflake.NextMovesForward | packages/accounting-system/internal/common/idgen.go:43-79 | whatever the clock does, second and number of the worker move strictly forward and the id is not earlier than they are |
| Snowflake.WaitsNoLongerThanNeeded | packages/accounting-system/internal/common/idgen.go:43-79 | a call returns exactly if the clock shows a second in which the worker has a number left, and takes the first such reading; when it counts on and when it starts again |
| Snowflake.IdsIncreaseAndDoNotCollide | packages/accounting-system/internal/common/idgen.go:43-79 | for every clock: an id whose call did not overshoot is smaller than all later ids of its worker, and workers never collide |
| Snowflake.GoodClocks | packages/accounting-system/internal/common/idgen.go:43-79 | no call overshoots with a clock that never goes back, nor with one that advances by at most a second per reading |
| Snowflake.IdsIncrease | packages/accounting-system/internal/common/idgen.go:43-79 | with such a clock all ids of a worker strictly increase |
| Snowflake.OvershootsIff | packages/accounting-system/internal/common/idgen.go:61-76 | exactly when an id carries a second later than the worker records |
| Snowflake.OvershootRepeats | packages/accounting-system/internal/common/idgen.go:61-76 | such an id is issued again |
| Snowflake.RepeatsIff | packages/accounting-system/internal/common/idgen.go:43-79 | the id of a call can be issued again by its worker, under some later clock, if and only if the call overshoots |
| Snowflake.IDWorker.NextId | packages/accounting-system/internal/common/idgen.go:43-79 | the call computes Next on the readings it consumes |
| Snowflake.IDWorker.RollOver | packages/accounting-system/internal/common/idgen.go:50-57 | waits for a later second and starts numbering again |
| Snowflake.IDWorker.Await | packages/accounting-system/internal/common/idgen.go:63-66 | stops at the first reading that is late enough |
| Approval.CountIsPeople | packages/payment-util/approval/types.go:65-73 | with distinct reviewers the approve count is the number of approvers |
| Approval.StepKeeps | packages/payment-util/approval/coordinator.go:65-226 | the store invariant is kept by every operation with every outcome |
| Approval.ApprovalsAreGenuine | packages/payment-util/approval/coordinator.go:108-164 | in every reachable store, approved or executed means enough distinct approvers other than the requester, no reject, and a last vote |
| Approval.DecidingVoteCounts | packages/payment-util/approval/coordinator.go:65-81 | an approval by one more vote is genuine exactly if the votes before it are |
| ApprovalVotes.GivenVotesCount | packages/payment-util/approval/coordinator.go:65-164 | `Request` keeps the votes it is given: all approvals ever reached from an accepted request are genuine if and only if those votes all approve, none is the requester's, and their count is the number of people or one more person suffices |
| ApprovalVotes.RunAdds | packages/payment-util/approval/coordinator.go:108-164 | along every run votes are added by new people other than the requester, and the last of them decides |
| ApprovalVotes.ComesToApproval | packages/payment-util/approval/coordinator.go:108-164 | an open action can always still be approved |
| Approval.AlwaysAddressable | packages/payment-util/approval/coordinator.go:204-206 | the index of the last vote in `Cancel` is always valid, whatever votes a request brings |
| Approval.HistoryIsAppendOnly | packages/payment-util/approval/coordinator.go:65-226 | along any run votes are only appended, the request is fixed, and rejected, executed, expired and cancelled are absorbing |
| Approval.ExpiryIsCheckedOnlyWhilePending | packages/payment-util/approval/coordinator.go:114-118 | a vote past the date is accepted exactly if the action is already under review |
| Approval.ApprovedAfterItsDate | packages/payment-util/approval/coordinator.go:114-118 | a concrete run in which an action is approved after its expiry |
| ApprovalRules.EveryActionIsExplained | packages/payment-util/approval/coordinator.go:65-226 | after every list of operations: each action goes back to a complete request for it, on the terms of that request or the defaults (two approvals, seven days), and a cancelled one was taken back by its requester, before approval or within the window |
| ApprovalRules.CancellableIff | packages/payment-util/approval/coordinator.go:192-218 | who may cancel, and until when |
| ApprovalRules.VotableIff | packages/payment-util/approval/coordinator.go:108-130 | exactly which votes are accepted |
| ApprovalRules.ExecutedOnce | packages/payment-util/approval/coordinator.go:167-178 | exactly the approved actions are executed, and never twice, whatever happens in between |
| ApprovalCoordinator.MemStore.Create | packages/payment-util/approval/store.go:42-50 | adds a new id only |
| ApprovalCoordinator.MemStore.Get | packages/payment-util/approval/store.go:52-60 | the stored action or none |
| ApprovalCoordinator.MemStore.Update | packages/payment-util/approval/store.go:62-70 | replaces an existing action only |
| ApprovalCoordinator.FindReviewer | packages/payment-util/approval/types.go:55-62 | the search loop finds a reviewer exactly if there is one |
| ApprovalCoordinator.CountApprovals | packages/payment-util/approval/types.go:65-73 | the counting loop |
| ApprovalCoordinator.Coordinator.constructor | packages/payment-util/approval/coordinator.go:52-60 | defaults if no requirement is configured |
| ApprovalCoordinator.Coordinator.Request | packages/payment-util/approval/coordinator.go:65-95 | store and error of the Request step |
| ApprovalCoordinator.Coordinator.Review | packages/payment-util/approval/coordinator.go:108-164 | store and error of the Review step, including the expiry that is stored although the call fails |
| ApprovalCoordinator.Coordinator.MarkExecuted | packages/payment-util/approval/coordinator.go:167-188 | store and error of the MarkExecuted step |
| ApprovalCoordinator.Coordinator.Cancel | packages/payment-util/approval/coordinator.go:192-226 | store and error of the Cancel step |

## Left out

- Saga step timeouts: they live inside `Execute`, which is an arbitrary function of the world.
- Saga payload, correlation id, definition name and times: the payload is part of the world, the rest is carried along unread.
- `MemorySagaStore.Load` and `ListUnfinished` copy an instance but share its `StepResults` slice; the model copies it.
- Several processes driving one saga at once: one worker per saga. Other sagas are the subject of SagaMachine.CrashSafetyAmongOthers.
- Saga steps, outbox batches and shard scans that never return.
- Outbox: one publisher, as its file demands; acknowledgement per message; the id of an event that clean-up has deleted is not used again; rows are fetched in no particular order; headers, topics and error texts are not kept.
- Migration: the rate limiter and pauses only delay; statistics beyond the counters; the MySQL checkpoint, whose upsert has the same effect; a source that changes while it is copied.
- Registrar: the endpoint record itself and lease expiry by time to live; address selection.
- Identity: string ids, the database of an account id, the superseded 1e10 account segments, the per-entity wrappers.
- Configuration cache: loads and stores without compare-and-swap are atomic steps here; transport, JSON binding and reconnection.
- Redaction: the Mask action, exact-key replacement, reflection, case folding (a parameter); text is a sequence of characters, of which only ASCII ones are looked at.
- Money symbols, grouping with commas when printing, and JavaScript numbers above 2^53.
- TokenBucket.WindowBound: reals instead of floating point, and a limit that is not negative; a key always served with the same limit.
- Rate limiter: a request that holds a bucket while the collector drops it; one request is one step here.
- Snowflake.IDWorker.NextId: the clock is a finite list of readings, and a call returns nothing where the source would wait on.
- Snowflake.IdsIncreaseAndDoNotCollide: seconds before the epoch or beyond 31 bits after it are excluded, as the bit layout demands.
- Approval lists, audit events and payloads; concurrent operations on one action, which the store does not serialise.
- HTTP servers, gateways, user interface, dependency wiring, metrics and logging.
- etcd, Kafka, MySQL and the rate limiter library are contracts only.
