# A verified model of the device-uniqueness backend

A Dafny model of the backend's stateful core, with proofs over every input, every run
or every reachable state. `dafny verify dfyconfig.toml` checks all of it. Nothing was
executed: the proofs are about the model, which follows the Rust code branch by branch.

## What is modelled

**The chain writer** (`Lease`, `Outbox`, `WriterProtocol`, `Engine`, `Lanes`). Writers
compete for an expiring, epoch-numbered lease and move reservation rows through two
coupled state machines, the People registration and the dotNS reservation. `Lease` and
`Outbox` are the SQL statements as methods over mutable tables. `WriterProtocol` is the
state machine of any number of writers that acquire, claim, write, fence, lapse, are
taken over and crash in any order. `Engine` is one drain pass with every answer of the
outside world as an input, and the startup reconciliation of stuck rows. `Lanes` shows
that what a pass writes is what the state machine allows.

**The registration queue** (`Queue`, `DrainEstimate`, `QueueFairness`, `Cadence`). The
promoter's four slots over the table, the four-deque estimate of the status endpoint
proved to predict the promoter, fairness over runs with arrivals and group refreshes,
and the advancer's service loop with its lease, instant by instant.

**The username indexer** (`Chain`, `Projection`, `Indexer`, `Sync`, `Bootstrap`,
`SeedingRuns`, `Like`, `Paging`). Decoding, finalized indexing, the speculative window
with its event cache, the reconciliation pass, seeding with its chain-identity check,
whole runs with crashes and reconnections, and the search endpoint's prefix pattern and
continuation cursors.

**Smaller cores.** `Turn` is the TURN credential cache with its breaker, `RateLimiter`
the bank of refunded admissions, `BatchRead` the batched storage read.

### Modelling choices

- A Postgres statement is atomic. Its `now()` is fixed when its transaction begins, so
  in `WriterProtocol` it may trail the clock by any amount.
- A block hash is the block itself, that is, hashes do not collide. Two chains differ in
  their genesis hash.
- An account whose storage entry changes in a block is named by one of the block's
  events, and the SS58 prefix of a chain does not change (`Chain.Follows`).
- The clock, the node's answers, balances, quota verdicts and upstream replies are
  parameters. Where a database or chain call may fail, the model lets it fail at will,
  unless its `reliable` parameter says that none does.
- `lower()` is any function on strings; accepting cursors needs it to keep non-empty
  text non-empty.
- A claim that arrives later sorts behind the claims already queued. The queue orders by
  `created_at`, which is when the inserting transaction began, so an insert that commits
  late could sort ahead.
- One indexer instance writes the projection at a time, as its advisory lock ensures.
- An identifier key is never empty, as on the chain; `get_byte` on an empty key would
  fail the whole query, where `Paging.Listed` merely skips the row.

### What the code does that its comments do not say

- A checkpoint written before the genesis column existed is adopted without comparing
  anything with the connected chain. The stamp is then right if and only if the
  checkpoint's block is that chain's block at its height
  (`SeedingRuns.AdoptionIsSafeExactlyAtHome`), and `SeedingRuns.ForeignAdoptionHappens`
  shows a start that gets it wrong.
- The guarded updates test the lease and nothing about the row: alone they would move a
  settled row (`Outbox.BareWritesAreNotSafe`). That terminal states are terminal follows
  from the claim discipline, not from the statements.
- `drain_estimate` casts the snapshot length to 32 bits and counts positions in 32 bits.
  `QueueFairness.EstimateIsExact` gives the exact condition under which it still finds a
  queued claim, and `QueueFairness.CastLengthFindsNobody` a length at which it never does.
- A refusal by the upstream leaves the breaker as it was. Once the cooldown is over,
  attempts that follow a refusal are not spaced (`Turn.RefusalEndsSpacing`); when exactly
  a call asks the upstream after a trip is `Turn.AttemptsResumeExactly`.
- A row that is alone in its pass is charged an attempt when the signer's nonce cannot be
  read, which a row of a batch is not (`Engine.ChargedWithoutFailing`). It can spend its
  budget without being submitted and then fail on its first rejection.
- A pass that crashes after marking rows as broadcasting has already counted their attempt,
  and the startup reconciliation counts it again when it re-queues them
  (`Lanes.CrashChargesTwice`).
- A pass speculates even when the node reports heads behind the checkpoint. A scanned pass
  is exact for every chain and table if and only if the head it reads is not behind the
  checkpoint (`Sync.ExactIffHeadNotBehind`); behind it, `Indexer.SpeculatesExactly` says
  what is left, and `Sync.StaleHeadKeepsDropped` and `Sync.StaleHeadAdmitsDropped` show
  accounts that should not be.

## Model

| member | source | states |
|---|---|---|
| `Lease.Store.TryAcquire` | crates/device-attestation/src/chain/lease.rs:31-54 | Succeeds exactly when the lease is absent, past its expiry or already ours; the row then carries the holder, the next epoch and the new expiry, and otherwise nothing changes |
| `Lease.Store.Renew` | crates/device-attestation/src/chain/lease.rs:56-75 | Exactly a guard with the row's holder and epoch, before the expiry, gets a new expiry; otherwise nothing changes |
| `Lease.EpochsNeverFall` | crates/device-attestation/src/chain/lease.rs:31-75 | Over any events a lease row stays, its epoch never falls, and one epoch has one holder |
| `Lease.SpentForever` | crates/device-attestation/src/chain/lease.rs:12-75 | A guard that has expired or been taken over is never valid again |
| `Lease.OneUnbrokenInterval` | crates/device-attestation/src/chain/lease.rs:12-75 | A guard valid at two moments of a run is valid at every moment between them |
| `Lease.EpochsAreIssuedOnce` | crates/device-attestation/src/chain/lease.rs:31-54 | Later acquisitions get strictly larger epochs, and a live lease cannot be taken by another holder |
| `Lease.GuardedWritesInEpochOrder` | crates/device-attestation/src/chain/outbox.rs:385-393 | Successful guarded writes come in non-decreasing epoch order; equal epochs mean the same guard, so at most one guard is valid at an instant |
| `Lease.LapsedIsTakeable` | crates/device-attestation/src/chain/lease.rs:31-54 | Wherever a run has led, an absent or lapsed lease is taken by any holder that asks, with the next epoch and a guard valid for exactly the TTL |
| `Lease.RenewalExtends` | crates/device-attestation/src/chain/lease.rs:56-75 | After a renewal in time the guard is valid for exactly the TTL from then |
| `Outbox.Table.Insert` | crates/device-attestation/src/chain/outbox.rs:179-228 | Refused exactly when the username is taken by a row in whatever state; otherwise one row with a new id appears, queued or reserved with its dotNS half pending or absent, and usernames stay unique |
| `Outbox.Table.GuardedStatus` | crates/device-attestation/src/chain/outbox.rs:578-623 | Column by column: the status asked for, the attempt, waiting time and error as given or as they were, a dotNS half still open closed with a failing row, no other row touched; nothing at all under an invalid guard |
| `Outbox.Table.GuardedDotnsStatus` | crates/device-attestation/src/chain/outbox.rs:538-571 | Column by column the same for the dotNS half, with the People half untouched |
| `Outbox.Table.MarkSubmittingRow` | crates/device-attestation/src/chain/outbox.rs:395-419 | Marks a row as in submission with its attempt, and nothing else |
| `Outbox.Table.MarkDotnsSubmittingRow` | crates/device-attestation/src/chain/outbox.rs:459-483 | The same for the dotNS half, whose waiting time is cleared |
| `Outbox.DueExactly` | crates/device-attestation/src/chain/outbox.rs:303-329 | A row is due while it waits for its first attempt, a retried one exactly from the time it was given, a dotNS half only behind an assigned row, and nothing else ever |
| `Outbox.BareWritesAreNotSafe` | crates/device-attestation/src/chain/outbox.rs:594-607 | The statement itself would move an assigned row back and reopen a settled dotNS half |
| `WriterProtocol.MarkKeepsRow` | crates/device-attestation/src/chain/outbox.rs:392-623 | A mark by a claiming writer moves a row only along its lane and keeps its halves coupled |
| `WriterProtocol.MarkKeepsClaims` | crates/device-attestation/src/chain/outbox.rs:392-623 | After it, every writer whose epoch is current still has only open rows in its claim |
| `WriterProtocol.TakeoverKeepsInv` | crates/device-attestation/src/chain/writer.rs:229-248 | A takeover makes every older guard stale before the new one has claimed anything |
| `WriterProtocol.ClaimDueKeepsInv` | crates/device-attestation/src/chain/outbox.rs:303-329 | The two queries a pass claims with pick up only rows still open in their lane |
| `WriterProtocol.ClaimSubmittingKeepsInv` | crates/device-attestation/src/chain/outbox.rs:331-383 | So do the two queries the startup reconciliation claims with |
| `WriterProtocol.StepKeepsInv` | crates/device-attestation/src/chain/writer.rs:215-274 | Every step of every writer keeps the protocol invariant and moves each row only as a lane may |
| `WriterProtocol.LapsedLeaseIsTaken` | crates/device-attestation/src/chain/writer.rs:229-248 | A lapsed or absent lease can be taken over by any holder, whatever writers are still around |
| `WriterProtocol.OpenRowsAreClaimed` | crates/device-attestation/src/chain/outbox.rs:303-383 | Rows waiting for an attempt whose time has come, and rows left in submission, can be claimed by any writer, in either lane |
| `WriterProtocol.TerminalStaysTerminal` | crates/device-attestation/src/chain/outbox.rs:392-623 | Between any two moments of any run a row never leaves ASSIGNED or FAILED_TERMINAL, a dotNS half never leaves a terminal state, and nothing is queued again |
| `WriterProtocol.LanesStayCoupled` | crates/device-attestation/src/chain/outbox.rs:303-339 | In every reachable state a dotNS half has been attempted only on an assigned row, and a failed row has no open dotNS half |
| `WriterProtocol.DotnsMovesOnlyWhenAssigned` | crates/device-attestation/src/chain/outbox.rs:459-623 | In every step a dotNS half moves only on an assigned row, or is abandoned together with a failing one |
| `WriterProtocol.FenceBlocksTakeover` | crates/device-attestation/src/chain/lease.rs:8-29 | While a fencing transaction holds the lease row's lock the row does not change, and its epoch is the fencing guard's, whatever the clock says |
| `WriterProtocol.FencedWritesLand` | crates/device-attestation/src/chain/writer/people.rs:126-136 | A write inside a fence always lands, on a row still in the lane: it is tested at its fence's own `now()`, on a lease row that cannot have changed |
| `WriterProtocol.NamesStayUnique` | crates/device-attestation/src/chain/outbox.rs:179-228 | In every reachable state a username belongs to one row, and a row keeps its username |
| `Engine.DeferAll` | crates/device-attestation/src/chain/writer/engine.rs:549-566 | Every row of the set is re-queued at an unchanged attempt, none twice |
| `Engine.RunGates` | crates/device-attestation/src/chain/writer/engine.rs:238-257 | Rows an offline gate stops get exactly that gate's outcome; the others go on in order |
| `Engine.ApplyOwners` | crates/device-attestation/src/chain/writer/engine.rs:259-283 | Rows somebody owns are settled by who owns them; exactly the unowned ones are left to submit |
| `Engine.MarkBatch` | crates/device-attestation/src/chain/writer/people.rs:95-118 | Exactly the first rows of the batch are marked before it is broadcast |
| `Engine.SubmitOne` | crates/device-attestation/src/chain/writer/engine.rs:287-317 | The single row is recorded once, from its own dispatch result and the owner read after a failure |
| `Engine.ApplyItems` | crates/device-attestation/src/chain/writer/engine.rs:387-419 | Each row of a batch is recorded from the item at its own position |
| `Engine.ReconcileBatch` | crates/device-attestation/src/chain/writer/engine.rs:464-493 | When items cannot be matched, only ownership read from the chain counts as landed and the rest is deferred |
| `Engine.SubmitBatch` | crates/device-attestation/src/chain/writer/engine.rs:326-353 | The batch settles every row once, and the marked rows are those broadcast |
| `Engine.DrainPass` | crates/device-attestation/src/chain/writer/engine.rs:192-223 | Every claimed row is recorded exactly once, by id, with its verdict, and nothing is written about it afterwards; the rows marked are exactly those of the extrinsic |
| `Engine.VerdictsAreJustified` | crates/device-attestation/src/chain/writer/engine.rs:765-786 | Exactly which outcome each row gets, both ways: landed if and only if an answer the pass got says so, failed if and only if it is at fault itself, parked or deferred if and only if the fault is the signer's, a read's or the batch's, retried in the remaining failures of its own and when it was alone and the nonce could not be read |
| `Engine.ContainsExactly` | crates/device-attestation/src/chain/writer/engine.rs:723-755 | A reason contains a wording exactly when it stands somewhere in it |
| `Engine.FaultsByWording` | crates/device-attestation/src/chain/writer/engine.rs:643-755 | The wordings that make a failure the signer's, or the row's for good |
| `Engine.BroadcastPrecedesSubmission` | crates/device-attestation/src/chain/writer/people.rs:79-118 | Nothing is marked before the nonce is known, all rows of a submitted extrinsic are, and otherwise the first ones in order |
| `Engine.SubmittableInOrder` | crates/device-attestation/src/chain/writer/engine.rs:238-283 | What is submitted keeps the order it was claimed in |
| `Engine.ChargedWithoutFailing` | crates/device-attestation/src/chain/writer/engine.rs:287-301 | A row is retried without a failed submission of its own if and only if it is the only row to submit and the nonce could not be read |
| `Engine.ReconcileChunk` | crates/device-attestation/src/chain/writer/engine.rs:607-632 | A chunk is decided from its own read; a failed read writes nothing |
| `Engine.ReconcileSubmitting` | crates/device-attestation/src/chain/writer/engine.rs:589-641 | Reads the stuck rows in chunks of 50, writes about no other row and about none after its record, and succeeds exactly when every chunk could be read |
| `Engine.ReconcileRecordsOnce` | crates/device-attestation/src/chain/writer/engine.rs:589-641 | No stuck row is recorded twice, by id, and no other row at all |
| `Engine.ReconcileDecidesOnlyFromReads` | crates/device-attestation/src/chain/writer/engine.rs:607-632 | A stuck row is recorded if and only if the read of its own chunk of 50 succeeded: as landed when that read names its candidate, re-queued when it does not |
| `Engine.UnparsedIsFailed` | crates/device-attestation/src/chain/writer/engine.rs:595-604 | A stuck row whose candidate does not parse is failed, whatever the reads do |
| `Lanes.MarkOf` | crates/device-attestation/src/chain/writer/people.rs:120-219 | A record turns into a settling mark of its own lane, and only a row's own retry spends an attempt |
| `Lanes.PassObeysProtocol` | crates/device-attestation/src/chain/writer/engine.rs:192-223 | Every write of a pass or reconciliation, and so every prefix a lost lease leaves of it, is a mark on a row still in the writer's claim |
| `Lanes.NextEntryIsEnabled` | crates/device-attestation/src/chain/writer/engine.rs:192-223 | Wherever other writers have taken the system in the meantime, the pass's next write, or its fence while the lease is held, or its fenced write, is a step of the protocol |
| `Lanes.LogIsProtocolRun` | crates/device-attestation/src/chain/writer/engine.rs:192-223 | Under a held lease a whole log is a sequence of protocol steps that leaves the outbox with every entry applied |
| `Lanes.CarryOutPass` | crates/device-attestation/src/chain/writer/engine.rs:192-223 | A drain pass is such a sequence; in the end every claimed row is assigned or reserved if and only if it landed, failed or expired if and only if its verdict is terminal, and otherwise waits for a retry with an attempt more exactly for a retry of its own, its other half and all other rows untouched |
| `Lanes.RecordShows` | crates/device-attestation/src/chain/writer/people.rs:120-219 | A row's record is the last word on it: the columns it leaves for each outcome, in either lane |
| `Lanes.LandingIsFenced` | crates/device-attestation/src/chain/writer/people.rs:126-219 | Landing and failing a People row go through a fence, and nothing else does |
| `Lanes.CarryOutReconcile` | crates/device-attestation/src/chain/writer/engine.rs:589-641 | So is the startup reconciliation, with every recorded row showing its outcome and every other row untouched |
| `Lanes.NonceFailureSpendsAnAttempt` | crates/device-attestation/src/chain/writer/people.rs:150-155 | In either lane a lone row whose nonce read fails is charged an attempt in the outbox |
| `Lanes.BroadcastShows` | crates/device-attestation/src/chain/writer/people.rs:239-253 | A row broadcast and not yet recorded is in submission with its attempt already counted |
| `Lanes.RetryChargesOnce` | crates/device-attestation/src/chain/writer/people.rs:150-155 | A row's own retry leaves one attempt counted, whether or not a broadcast counted it before |
| `Lanes.CrashChargesTwice` | crates/device-attestation/src/chain/writer/engine.rs:589-641 | A pass cut off after broadcasting a row, followed by a reconciliation that re-queues it, charges the one submission twice |
| `Queue.GroupForBalance` | crates/device-attestation/src/queue.rs:26-33 | The groups are the three balance thresholds, both ways |
| `Queue.Reservations.PromoteSlot` | crates/device-attestation/src/queue.rs:220-245 | One slot's update over the table takes the earliest queued row of an eligible group, changes that row alone, and takes none only when there is none |
| `Queue.Reservations.AdvanceIteration` | crates/device-attestation/src/queue.rs:220-245 | An iteration is four slots, each seeing the promotions before it |
| `Queue.FourSlots` | crates/device-attestation/src/queue.rs:220-245 | An iteration spelled out: the first slot open to group 4 alone, then 3 and above, 2 and above, everyone, each on what the one before left |
| `Queue.Reservations.PromoteAll` | crates/device-attestation/src/queue.rs:364-377 | Every queued row is reserved and nothing else about any row changes |
| `Queue.Reservations.RefreshGroups` | crates/device-attestation/src/queue.rs:152-203 | No row is lost, moved or dequeued; one that is not queued keeps its group, a queued one takes the group of the last successful read of its account, and keeps its own when there is none |
| `Queue.SlotAt` | crates/device-attestation/src/queue.rs:226-240 | The row a slot takes, and the queue it leaves, by position |
| `Queue.PositionWithinQueue` | crates/device-attestation/src/queue.rs:120-141 | The promoter never makes more promotions before the target than there are rows |
| `Queue.RefreshedAt` | crates/device-attestation/src/queue.rs:191-202 | The refresh, row by row: what each row may change and which read decides its group |
| `DrainEstimate.EarliestHead` | crates/device-attestation/src/queue.rs:126-128 | The smallest head among the deques a slot may draw from |
| `DrainEstimate.PopSlot` | crates/device-attestation/src/queue.rs:123-130 | The deques pop exactly the row the promoter's slot would take and stand for the queue that leaves |
| `DrainEstimate.Simulate` | crates/device-attestation/src/queue.rs:114-141 | For every snapshot and target, exactly the pick order and iteration of the promoter run over and over on those rows; from 2^32 rows on, the pick order modulo 2^32 |
| `QueueFairness.NoStarvation` | crates/device-attestation/src/queue.rs:220-245 | With any arrivals and group refreshes, a claim with r claims ahead of it is promoted by iteration r + 1 |
| `QueueFairness.ServedWithinGroup` | crates/device-attestation/src/queue.rs:220-245 | With fixed groups a claim waits only for earlier claims of its own group or above |
| `QueueFairness.RefreshIsBetween` | crates/device-attestation/src/queue.rs:152-203 | A refresh followed by arrivals loses, reorders and overtakes nobody, so the fairness results cover it |
| `QueueFairness.PromotedUnfolds` | crates/device-attestation/src/queue.rs:114-141 | The prediction is the target's place in this iteration's promotions, or the same question afterwards |
| `QueueFairness.PromotedInTime` | crates/device-attestation/src/queue.rs:120-140 | The search finds a queued claim within the starvation bound and never one that is not queued |
| `QueueFairness.EstimateIsTotal` | crates/device-attestation/src/queue.rs:114-141 | On any snapshot that fits 32 bits the estimate answers exactly for queued targets, with a place within the queue and an iteration within the starvation bound |
| `QueueFairness.EstimateIsExact` | crates/device-attestation/src/queue.rs:114-141 | On any snapshot it answers exactly for queued targets whose iteration is within the length as cast to 32 bits, with the promoter's answer |
| `QueueFairness.CastLengthFindsNobody` | crates/device-attestation/src/queue.rs:114-120 | At 2^32 claims the cast loop bound is 0 and no target is found |
| `QueueFairness.StatusInSnapshot` | crates/device-attestation/src/queue.rs:527-535 | A subject with a queued claim gets the drain place and iteration of its earliest one, and any other subject nothing |
| `QueueFairness.RaisingNeverHurts` | crates/device-attestation/src/queue.rs:114-141 | Raising one claim's group never makes its position or iteration larger |
| `Cadence.CadenceKeepsLease` | crates/device-attestation/src/queue.rs:302-318 | Under a valid cadence every renewal finds the lease unexpired, for any work durations |
| `Cadence.CadenceCheckIsExact` | crates/device-attestation/src/queue.rs:302-318 | With a positive interval the check passes if and only if no schedule of work can lose the lease |
| `Cadence.CadenceInSeconds` | crates/device-attestation/src/queue.rs:302-318 | In whole seconds the check asks for an interval of at least 1 and a TTL of more than one and a half intervals |
| `Cadence.WorkRenewing` | crates/device-attestation/src/queue.rs:451-497 | While work runs the lease is renewed on every tick and alive at every instant |
| `Cadence.TakeTurn` | crates/device-attestation/src/queue.rs:419-504 | A turn keeps the lease exactly when the sleep ends before it expires, and the lease is alive at every instant up to the end of the work or to its expiry |
| `Cadence.RunAdvancer` | crates/device-attestation/src/queue.rs:385-506 | The loop loses its lease exactly on an unhealthy schedule, never under a valid cadence; it is alive at every instant to the end, or, when lost, to the instant before it expires |
| `Cadence.LiveAdvancerNeverLooksDead` | crates/device-attestation/src/queue.rs:345-377 | At every instant from acquisition to there, some table is in force and under it the stranded count is 0 and the fallback drain promotes nothing |
| `Cadence.CoversEveryInstant` | crates/device-attestation/src/queue.rs:385-506 | The loop's trace leaves no instant out |
| `Cadence.DeadAdvancerIsNoticed` | crates/device-attestation/src/queue.rs:345-377 | Claims count as stranded from the instant the lease is absent or expired, and the janitor promotes all of them from a grace after the expiry, or at once without a lease |
| `Cadence.FallbackDrain` | crates/device-attestation/src/queue.rs:364-377 | Promotes every queued claim or none, as that rule says |
| `Chain.SplitLiteFinds` | crates/username-indexer/src/projection.rs:60-87 | A lite name has only one split into base and digits, and it is found |
| `Chain.DecodesExactly` | crates/username-indexer/src/projection.rs:51-103 | Exactly the well-formed entries decode |
| `Chain.DecodedReassembles` | crates/username-indexer/src/projection.rs:51-103 | What is decoded reassembles to what was stored, and the display name is never blank |
| `Chain.DecodeReportsFirstFault` | crates/username-indexer/src/projection.rs:51-103 | A malformed consumer is refused for its first fault, and which one that is |
| `Chain.ValueInBaseTen` | crates/username-indexer/src/projection.rs:60-87 | The digits are read in base ten, leading zeros and all |
| `Chain.ReadsByStorage` | crates/username-indexer/src/incremental.rs:439-470 | Each reading by storage: absent, no consumer record, or a record that does or does not decode |
| `Chain.ChangedIsNamed` | crates/username-indexer/src/incremental.rs:521-542 | An account that reads differently at two heights is named by an event in between |
| `Projection.IndexOneMore` | crates/username-indexer/src/incremental.rs:395-492 | One upsert or delete per account builds the table of the whole set |
| `Projection.IndexFollowsScan` | crates/username-indexer/src/incremental.rs:395-492 | Indexing the next block carries a full scan of its parent to a full scan of the block |
| `Projection.IndexedRowsAreFinal` | crates/username-indexer/src/projection.rs:106-157 | An indexed account has a row exactly when its entry decodes, unmarked and naming the block |
| `Projection.SpeculateOneMore` | crates/username-indexer/src/projection.rs:159-227 | The guarded speculative statements, one per account, build the table of the whole set |
| `Projection.SpeculationKeepsFinalized` | crates/username-indexer/src/projection.rs:159-227 | Speculation on any fork and any accounts leaves the finalized content as it was |
| `Projection.AdmissionIsRemembered` | crates/username-indexer/src/projection.rs:159-213 | A speculative row keeps the block it was first admitted at, and names the block its content was last read from |
| `Indexer.SpeculativeCache.Get` | crates/username-indexer/src/incremental.rs:243-248 | A height answers only for the hash it was read from |
| `Indexer.SpeculativeCache.Insert` | crates/username-indexer/src/incremental.rs:250-252 | From then on the height answers for that block alone and every other height as before; true readings stay true readings |
| `Indexer.SpeculativeCache.PruneFinalized` | crates/username-indexer/src/incremental.rs:256-258 | Exactly the heights finality has reached are forgotten |
| `Indexer.PlanWindow` | crates/username-indexer/src/incremental.rs:184-195 | The window is empty, scanned or stood down by its width, exactly |
| `Indexer.ProjectionStore.IndexBlock` | crates/username-indexer/src/incremental.rs:395-492 | A block's rows and the checkpoint commit together or not at all, and never when a named entry is no consumer record; when no call fails that is the only reason not to |
| `Indexer.ProjectionStore.IndexNext` | crates/username-indexer/src/incremental.rs:145-170 | An attempt at the next block, failed or not, keeps the projection equal to a rescan |
| `Indexer.ProjectionStore.IndexFinalized` | crates/username-indexer/src/incremental.rs:145-170 | Cut off after any block, the finalized rows are a full scan at the checkpoint; it never goes back, and reaches the head when no call fails and every block is readable |
| `Indexer.ProjectionStore.CollectNamed` | crates/username-indexer/src/incremental.rs:286-310 | Through the cache, exactly the accounts an uncached scan of the same blocks names, whatever forks filled it |
| `Indexer.ProjectionStore.SpeculateAt` | crates/username-indexer/src/incremental.rs:339-391 | The head transaction reconciles all affected accounts or none, and none when the entry of one is no consumer record |
| `Indexer.ProjectionStore.IndexSpeculativeWindow` | crates/username-indexer/src/incremental.rs:261-392 | A pass affects exactly what an uncached one would, and leaves only heights above finality in the cache |
| `Indexer.ScannedAccountIsExact` | crates/username-indexer/src/incremental.rs:261-392 | On one fork whose head is not behind the checkpoint an account ends up speculative if and only if the head decodes it and the checkpoint's block does not, and then with the head's content |
| `Indexer.ScannedWindowIsExact` | crates/username-indexer/src/incremental.rs:261-392 | On one fork, for every checkpoint from the reported finalized head up to the head read, the table is the finalized rows plus one speculative row, with the head's content, per account the head decodes and the checkpoint's block does not |
| `Indexer.CaughtUpClearsSpeculation` | crates/username-indexer/src/incremental.rs:261-392 | When finality has caught up no speculative row survives |
| `Indexer.SpeculatesExactly` | crates/username-indexer/src/incremental.rs:261-392 | For any checkpoint, fork and window, an account ends up speculative if and only if the head decodes it, the checkpoint's block does not, and the window named it or it was speculative already |
| `Indexer.StandDownOnlyRechecks` | crates/username-indexer/src/incremental.rs:261-392 | In too wide a window nothing is admitted and what survives reads the same at the best head |
| `Indexer.CacheHoldsOneWindow` | crates/username-indexer/src/incremental.rs:226-258 | A cache within one window holds at most 64 heights and stays within one while the finalized head does not go back |
| `Sync.Pass` | crates/username-indexer/src/sync.rs:365-397 | A reconciliation keeps the projection equal to a rescan whatever fails. When its speculative half completes on one fork whose head is not behind the checkpoint, the speculative rows are exactly the accounts ahead of it; in any other case they are those `Indexer.SpeculatesExactly` names |
| `Sync.Follow` | crates/username-indexer/src/sync.rs:119-195 | Over any heads, forks and failures the projection stays a rescan and is what its passes came to; an undisturbed turn leaves it caught up; while the finalized head does not go back the cache never holds more than 64 blocks |
| `Sync.Speculate` | crates/username-indexer/src/sync.rs:399-454 | The speculative half never touches the checkpoint or the finalized content; what it leaves is exact when the head read is not behind the checkpoint, and decided by the checkpoint's block, the head and the window in any case |
| `Sync.SpeculationOutcome` | crates/username-indexer/src/sync.rs:399-454 | For every window shape: what is ahead of the checkpoint when the window is scanned, only rows that still read the same when it is not, nothing when the head is the checkpoint's block |
| `Sync.ExactIffHeadNotBehind` | crates/username-indexer/src/incremental.rs:261-392 | A scanned pass is exact for every chain and table if and only if the head it reads is not behind the checkpoint |
| `Sync.StaleHeadKeepsDropped` | crates/username-indexer/src/incremental.rs:145-155 | For every head behind the checkpoint there is a chain on which an account the finalized chain has dropped stays speculative |
| `Sync.StaleHeadAdmitsDropped` | crates/username-indexer/src/incremental.rs:145-155 | And when a window below the checkpoint is still scanned, a chain on which such an account is admitted afresh |
| `Sync.SpeculationDoesNotInterfere` | crates/username-indexer/src/sync.rs:365-454 | Two runs of passes that see the same finalized heads and cut-offs, one speculating over arbitrary forks and one not, have the same checkpoint and finalized content after every pass, each indexing from its own checkpoint |
| `Sync.ClearingKeepsFinalized` | crates/username-indexer/src/projection.rs:268-275 | Clearing at a start leaves no speculative row, and the checkpoint and the finalized rows as they were |
| `Bootstrap.UpsertBatch` | crates/username-indexer/src/bootstrap.rs:311-321 | A page is committed whole or not at all |
| `Bootstrap.WritePages` | crates/username-indexer/src/bootstrap.rs:185-243 | A completed scan has upserted every entry that decodes and knows whether the iterator erred; an interrupted one has upserted whole pages of such entries |
| `Bootstrap.CleanupIsExact` | crates/username-indexer/src/bootstrap.rs:245-252 | Removing rows of other snapshots leaves exactly the scan, whatever was left behind before |
| `Bootstrap.BootstrapLocked` | crates/username-indexer/src/bootstrap.rs:156-271 | Success means the table is the scan of the block under this chain's stamp; failure writes no checkpoint and leaves rows a later scan can clean up |
| `Bootstrap.EnsureSeeded` | crates/username-indexer/src/bootstrap.rs:75-154 | A checkpoint of this chain is kept, an unstamped one adopted, a foreign one thrown away together with its rows; when no call fails, exactly in those cases, and a scan then completes unless the iterator erred |
| `SeedingRuns.StepKeepsInv` | crates/username-indexer/src/bootstrap.rs:75-271 | Every commit, crash and reconnection keeps the seeding invariant, except adopting an unstamped checkpoint of another chain |
| `SeedingRuns.IndexEqualsRescan` | crates/username-indexer/src/incremental.rs:145-170 | In every reachable state with a checkpoint the finalized rows equal a fresh full scan at it, and every row comes from the stamped chain |
| `SeedingRuns.NothingSurvivesAScan` | crates/username-indexer/src/bootstrap.rs:190-271 | When a checkpoint is written, the table holds the scanned block's rows and nothing else |
| `SeedingRuns.TrailIsSteps` | crates/username-indexer/src/bootstrap.rs:156-271 | What a scan commits is a sequence of the runs' steps, the cleanup reached only with every entry of the block among its pages |
| `SeedingRuns.Seed` | crates/username-indexer/src/bootstrap.rs:75-271 | Seeding, wherever it fails, is a sequence of the runs' steps from the database it found to the one it left, and ends syncing exactly when it says the projection is usable |
| `SeedingRuns.PassIsSteps` | crates/username-indexer/src/sync.rs:365-454 | A reconciliation pass, whatever failed in it, is a sequence of the runs' steps too |
| `SeedingRuns.AdoptionIsSafeExactlyAtHome` | crates/username-indexer/src/bootstrap.rs:120-131 | Adopting an unstamped checkpoint is right if and only if its block is the connected chain's block at that height |
| `SeedingRuns.ForeignAdoptionHappens` | crates/username-indexer/src/bootstrap.rs:120-131 | For any two chains there is a start that adopts one's projection under the other's stamp |
| `Like.ThreePassesAreOne` | crates/username-indexer/src/search.rs:351-356 | The three replacement passes escape each character once, and never an escape already made |
| `Like.PatternMatchesPrefix` | crates/username-indexer/src/search.rs:125 | The pattern matches, under LIKE with ESCAPE (section 8.5 of ISO/IEC 9075-2), exactly the strings that start with the prefix |
| `Like.UnescapedPrefixesMisfire` | crates/username-indexer/src/search.rs:351-356 | Without the escapes a wildcard in the prefix matches texts that do not start with it, and an escape character makes the pattern an error |
| `Paging.LessTotal` | crates/username-indexer/src/search.rs:149-167 | The sort key is a strict total order |
| `Paging.TextLessExactly` | crates/username-indexer/src/search.rs:149-167 | The text order is the C collation's: after a common beginning the first text ends or has the smaller character |
| `Paging.LessByFirstDifference` | crates/username-indexer/src/search.rs:163-166 | Ascending by lower-cased name, then base, then the digits' value, then account: the first that differs decides |
| `Paging.ShortSuffixExactly` | crates/username-indexer/src/search.rs:147 | The suffix test holds exactly for texts that end in a dot and one or two digits |
| `Paging.HitsExactly` | crates/username-indexer/src/search.rs:146-148 | Exactly the rows whose lower-cased name starts with the lower-cased prefix, that have a full name or a short suffix and a key that starts with a zero byte, each with its own sort key |
| `Paging.AssemblePage` | crates/username-indexer/src/search.rs:195-207 | From one row more than the limit, the first keys after the cursor and a cursor exactly when something remains |
| `Paging.PagesNeverOverlap` | crates/username-indexer/src/search.rs:120-207 | However the table changes between pages, later pages lie strictly after earlier ones |
| `Paging.FinishedWalkIsComplete` | crates/username-indexer/src/search.rs:120-207 | A row that matches with an unchanged key on every request is returned by a finished walk |
| `Paging.UnchangedTableYieldsSortedList` | crates/username-indexer/src/search.rs:120-207 | On an unchanged table the pages are exactly the matching rows, in order, each once |
| `Paging.NamesNeverFall` | crates/username-indexer/src/search.rs:163-166 | Along those pages the names never fall in the C collation |
| `Paging.UnchangedTableWalkStops` | crates/username-indexer/src/search.rs:120-207 | And the walk ends: one still given a cursor has seen fewer pages than there are rows |
| `Paging.DecimalRoundTrip` | crates/username-indexer/src/search.rs:143 | The digits' text in a cursor reads back as the same number |
| `Paging.IssuedCursorsAreAccepted` | crates/username-indexer/src/search.rs:336-349 | Every cursor issued for a decoded row is accepted back as the key it was issued for |
| `Paging.AcceptsExactly` | crates/username-indexer/src/search.rs:336-349 | Exactly the cursors with no blank field and only digits in their number are accepted, each as the key it spells |
| `Turn.Floor` | crates/turn/src/cloudflare.rs:248-250 | 60 seconds for a life of 240 or more, a quarter of it below that, and never less than 1 |
| `Turn.Client.RecordFailure` | crates/turn/src/cloudflare.rs:193-204 | Counts, saturating, and opens the breaker from the third failure on |
| `Turn.Client.Issue` | crates/turn/src/cloudflare.rs:121-164 | One issuance: its reply, its reported life and its new state are the ones the run results are about |
| `Turn.RepliesAreFreshOrLatest` | crates/turn/src/source.rs:111-123 | Each reply is that call's own fetch or the latest successful one with the floor of life left, with the secret the upstream gave and the expiry its life, or the requested one, makes; the reported life is exactly the time to that expiry |
| `Turn.FailuresAreDeserved` | crates/turn/src/cloudflare.rs:121-164 | A call fails if and only if it asked the upstream and was refused, or the upstream failed and the latest fetch has less than the floor left |
| `Turn.AttemptsStayApart` | crates/turn/src/cloudflare.rs:180-204 | With a usable cache an attempt comes no sooner than 30 seconds after every tripping attempt since the last success |
| `Turn.AttemptsResumeExactly` | crates/turn/src/cloudflare.rs:121-204 | After a trip, until an attempt succeeds or fails in passing, a call with a usable cache asks the upstream if and only if 30 seconds have gone by |
| `Turn.ConsecutiveAttemptsApart` | crates/turn/src/cloudflare.rs:180-204 | Consecutive attempts are 30 seconds apart when the earlier one tripped the breaker and the cache is usable |
| `Turn.RefusalEndsSpacing` | crates/turn/src/cloudflare.rs:138-141 | After a refusal attempts can be one second apart, with the cache usable and no success in between |
| `Turn.CountsFailuresInARow` | crates/turn/src/cloudflare.rs:187-204 | The breaker's count is the number of attempts that failed in passing since the latest successful fetch, up to what 32 bits hold |
| `Turn.OverlapIsSafe` | crates/turn/src/cloudflare.rs:121-204 | With the lock acquisitions of overlapping calls interleaved in any order, what is served was fetched, what is served from the cache has the floor left, and an open breaker sends a call straight upstream exactly when 30 seconds have gone by since the failure recorded last |
| `Turn.UninterruptedCallIsIssue` | crates/turn/src/cloudflare.rs:121-204 | A call whose steps nothing separates does what one issuance does |
| `RateLimiter.Limiter.SpendCredit` | crates/http-common/src/rate_limiter.rs:88-97 | Takes one credit of that key exactly when it has one |
| `RateLimiter.Limiter.Allow` | crates/http-common/src/rate_limiter.rs:70-75 | Pays with a credit exactly when one is banked, else with quota exactly when quota admits |
| `RateLimiter.Limiter.Refund` | crates/http-common/src/rate_limiter.rs:77-85 | Banks one credit exactly for a quota payment below the burst limit, for that key only |
| `RateLimiter.StepKeepsBalance` | crates/http-common/src/rate_limiter.rs:70-97 | In every step each quota admission is charged at most once, to a request or to a banked credit |
| `RateLimiter.IssuedWithinQuota` | crates/turn/src/http.rs:183-192 | For every key and interleaving, evictions included, counters stay within the burst limit and issued credentials plus banked credits never exceed quota admissions |
| `RateLimiter.UninterruptedAllow` | crates/http-common/src/rate_limiter.rs:70-97 | A request nothing interferes with pays with a credit exactly when one is banked, otherwise with quota exactly when quota admits |
| `RateLimiter.UninterruptedFinish` | crates/turn/src/http.rs:183-192 | A request that fails after paying with quota banks one credit for its key unless the bank is full; one that paid with a credit, or was served, gives nothing back |
| `BatchRead.ExactByCounting` | crates/chain-client/src/storage.rs:71-94 | Finding nothing foreign or repeated in an answer as long as the request means the request is duplicate-free and the answer a permutation of it |
| `BatchRead.ValuesFromChanges` | crates/chain-client/src/storage.rs:58-95 | Succeeds exactly for one change set of the right block that answers duplicate-free keys exactly, with each value at its key's position; otherwise reports the first reason, and how many keys are missing |
| `BatchRead.OrderDoesNotMatter` | crates/chain-client/src/storage.rs:78-94 | Any order of the answer gives the same values |
| `BatchRead.PresentOf` | crates/chain-client/src/storage.rs:97-103 | Exactly the positions with a value |
| `BatchRead.OwnersByName` | crates/chain-client/src/storage.rs:105-135 | Succeeds exactly when the counts agree and every present value is an account of 32 bytes; the map then holds exactly the names with a value, each with its own |

## Left out

- HTTP routing, request validation messages, OpenAPI, configuration, telemetry and shutdown: plumbing with one-branch properties.
- Cryptography, attestation, SS58 checksums, UTF-8 and SCALE decoding: their verdicts are inputs.
- Widevine consumption and voucher pairing inside the landing transaction.
- Adaptive batch size, the backoff lengths and the nonce cache of a lane: they change when rows are tried, not what is recorded about them.
- The limit, order and SKIP LOCKED of the claim queries: a claim may be any set of due rows.
- Wake sources, fallback timers and error backoff of the sync loop: `Sync.Pass` takes its heads as parameters.
- The order in which named accounts are written inside one transaction, which `dedupe_accounts` fixes: the model writes them in any order.
- Created and updated timestamps, and the report counters of the indexing passes.
- The JSON and base64 layers of the cursor, taken as an encoding with an inverse; and the prefix grammar, limit clamping and error list of `validate`.
- The body of an upstream TURN response: a successful answer is its credential and its life.
- The coturn provider, which issues locally without state.
- The quota algorithm and the eviction policy: any verdict and any eviction may happen.
- Engine.DrainPass: models a pass whose lease lasts; one that loses it stops at a prefix of this log, which `Lanes.PassObeysProtocol` covers.
- Engine.RunGates: leaves out the time a not-yet-valid row is deferred to.
- QueueFairness.RaisingNeverHurts: compares exact positions; positions past 2^32 are reported modulo 2^32.
- QueueFairness.EstimateIsTotal: is limited to snapshots below 2^32 claims; `QueueFairness.EstimateIsExact` has no such limit.
- Turn.AttemptsStayApart: is about calls made one after another; `Turn.OverlapIsSafe` says what remains true of overlapping ones.
- Cadence.RunAdvancer: takes database steps as instantaneous.
