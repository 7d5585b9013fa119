# Node replication: the unbounded log and the cyclic buffer

This project models the two state machines at the heart of node
replication (NR) and proves their invariants in Dafny. NR keeps one replica
of a sequential data structure per node. It runs update operations through
a shared log, and it serves read-only operations from the local replica
once that replica is recent enough.

* **The unbounded log** (`UnboundedLog`) is the abstract log. It holds:
  - a map from log index to entry (operation and placing node), with no
    holes below the global tail;
  - per-node replicas and local versions;
  - the published version upper bound.

  It also tracks three lifecycles:
  - a read-only request: `Init`, `VersionUpperBound`, `ReadyToRead`, `Done`;
  - an update request: `Init`, `Placed`, `Applied`, `Done`;
  - each node's combiner: `Ready`, `Placed`, `LoadedLocalVersion`, `Loop`,
    `UpdatedVersion`, then `Ready` again.

  The recursive predicates in `LogRange` tie a combiner's queue of request
  ids to the log entries tagged with its node. The lemmas about those
  predicates carry them across appends and changes of the update map.
* **The cyclic buffer** (`CyclicBuffer`) is the bounded ring that physically
  stores the log. It holds:
  - the head, the tail and each replica's local head;
  - one alive bit per slot, whose meaning flips on every lap
    (`CyclicBufferIndex`);
  - the stored entries, by logical index (the initial fill sits at
    -size .. -1);
  - a per-node combiner state: idle, reading, advancing the head, advancing
    the tail, or appending.

  Its invariant is the reclamation barrier. A slot is re-filled only between
  the tail and the minimum local head plus the buffer size. A reader holds
  an entry only while the entry is alive.

## How the machines are modelled

Each machine's state is one datatype. Each transition is a guard
(`XxxEnabled`) plus a step function from the state before to the state
after. `Step` and `Next` collect all the transitions. The source's token
operations become plain map operations on the single state value:

* `remove` and `have` become conditions in the guard, followed by a map
  update;
* the obligation on `add`, that the key is not present yet, is an
  `ensures` of the transition's induction lemma (for example
  `UnboundedLogProofs.UpdatePlaceOpsInLogOneInductive` and
  `CyclicBufferProofs.AppendFlipBitInductive`);
* the obligation on `withdraw`, that the entries are present and meet the
  stored-entry predicate, is an `ensures` of
  `CyclicBufferProofs.FinishAdvanceTailInductive`;
* the source's assertion in `reader_do_guard`, that the entry a reader
  captures meets the stored-entry predicate, is an `ensures` of
  `CyclicBufferProofs.ReaderDoGuardContentsPresent`. The same lemma shows
  that the entry is stored in every state meeting the invariant.

Every transition has an `XxxInductive` lemma: from `Inv(s)` and the guard
it proves `Inv` of the next state. `NextPreservesInv` combines them.
`CyclicBufferProofs.ReachableInv` chains them over any sequence of enabled
steps from the initial state.

The data structure's own types are abstract, as are the stored type and
the stored-entry predicate:

* `NRState`, `UpdateOp`, `ReadonlyOp`, `ReturnType` and `StoredType` are
  opaque types;
* the data structure's sequential semantics is a value of the `Dispatch`
  datatype, whose fields are `init`, `read` and `update`;
* the stored-entry predicate is a constant field of the cyclic-buffer state.

Dafny's `/` and `%` are Euclidean. So is the source's integer arithmetic on
`int` (`-1 % size == size - 1`), so the alive bit of the initial entries
comes out the same.

The source computes the minimum local head as `map_min_value(local_heads,
num_replicas - 1)`. That folds over replicas 0 .. num_replicas-2 and leaves
the last replica out. `CyclicBuffer.MinLocalHead` keeps this as written. It
breaks nothing: the invariants still hold, because the head bounds the
last replica too.

Where the source lets a step break its invariant, the model either
strengthens that transition's guard or corrects that clause of the
invariant. Two corrections are to the invariant, so the model's `Inv`
differs from the source's in two clauses:

* `UnboundedLog.InvLocalUpdatesWf` asks `idx < versionUpperBound` only of a
  Done update. A Placed or Applied update only has to be in the log.
* `CyclicBuffer.PairNoOverlap` asks that the remaining ranges of two
  appenders are disjoint: `tail <= curIdx2 || tail2 <= curIdx`.

The other six corrections strengthen guards. In each case the source's own
version sits beside the correction in `UnboundedLogFindings` or
`CyclicBufferFindings`. So does a concrete, reachable state on which the
source's version fails (see "## Findings").

## Model

| member | source | states |
|---|---|---|
| NRTypes.GetNewNat | nr/unbounded_log.rs:548-550 | the fresh request id is not among the ids already in use |
| LogRange.LogRangeMatchesQueueUpdateChange | nr/unbounded_log.rs:1189-1213 | changing the update map anywhere except at requests Placed inside the range keeps a log range matching a queue |
| LogRange.LogRangeMatchesQueueUpdateChange2 | nr/unbounded_log.rs:1215-1238 | changing the update map only at requests outside the queue keeps a log range matching the queue |
| LogRange.LogRangeMatchesQueueAppend | nr/unbounded_log.rs:1240-1310 | appending the node's own entry at the end of the range, and queueing its new Placed request, extends the match by one index and one request |
| LogRange.LogRangeMatchesQueueAppendOther | nr/unbounded_log.rs:1312-1356 | appending another node's entry at or beyond the end of the range keeps the match |
| LogRange.LogRangeMatchesQueueAppendOtherAugment | nr/unbounded_log.rs:1358-1409 | appending another node's entry exactly at the end of the range extends the match by one index |
| LogRange.LogRangeNoNodeIdAppendOther | nr/unbounded_log.rs:1411-1446 | appending another node's entry at the end extends a range free of the node's entries by one |
| LogRange.ConcatLogRangeNoNodeIdLogRangeMatchesQueue | nr/unbounded_log.rs:1475-1493 | a range free of the node's entries followed by a matching range is a matching range |
| UnboundedLog.Initialize | nr/unbounded_log.rs:527-539 | the initial state meets the invariant, and its node ids are exactly 0 .. numberOfNodes-1 |
| UnboundedLog.PreExecDispatchLocal | nr/unbounded_log.rs:731-744 | a looping combiner at an entry of its own node, before the tail it read, has a queued request left (`idx < |queuedOps|`) |
| UnboundedLog.PreExecUpdateVersionUpperBound | nr/unbounded_log.rs:786-796 | a looping combiner that reached the tail it read has served its whole queue (`idx == |queuedOps|`) |
| UnboundedLogProofs.ReadonlyStartInductive | nr/unbounded_log.rs:546-553 | the new read id is not yet a read request, and starting a read keeps the invariant |
| UnboundedLogProofs.ReadonlyReadCtailInductive | nr/unbounded_log.rs:558-564 | recording the version upper bound in a read keeps the invariant |
| UnboundedLogProofs.ReadonlyReadyToReadInductive | nr/unbounded_log.rs:569-578 | choosing a node whose local version has reached the recorded bound keeps the invariant |
| UnboundedLogProofs.ReadonlyApplyInductive | nr/unbounded_log.rs:581-591 | reading the replica of a node whose combiner is Ready keeps the invariant |
| UnboundedLogProofs.ReadonlyFinishInductive | nr/unbounded_log.rs:594-598 | removing a finished read keeps the invariant |
| UnboundedLogProofs.UpdateStartInductive | nr/unbounded_log.rs:605-612 | the new update id is not yet an update request, and starting an update keeps the invariant |
| UnboundedLogProofs.UpdatePlaceOpsInLogOneInductive | nr/unbounded_log.rs:662-675 | the global tail is not yet a log index, and placing a request there keeps the invariant |
| UnboundedLogProofs.UpdateDoneInductive | nr/unbounded_log.rs:677-686 | marking an applied request below the version upper bound Done keeps the invariant |
| UnboundedLogProofs.UpdateFinishInductive | nr/unbounded_log.rs:689-693 | removing a done request that no combiner queues keeps the invariant |
| UnboundedLogProofs.ExecTrivialStartInductive | nr/unbounded_log.rs:702-708 | a Ready combiner taking its queue keeps the invariant |
| UnboundedLogProofs.ExecLoadLocalVersionInductive | nr/unbounded_log.rs:711-719 | loading the local version keeps the invariant |
| UnboundedLogProofs.ExecLoadGlobalHeadInductive | nr/unbounded_log.rs:722-728 | loading the global tail and entering the loop keeps the invariant |
| UnboundedLogProofs.ExecDispatchLocalInductive | nr/unbounded_log.rs:747-765 | applying the combiner's own entry to the replica and recording the result for its queued request keeps the invariant |
| UnboundedLogProofs.ExecDispatchRemoteInductive | nr/unbounded_log.rs:768-783 | applying another node's entry keeps the invariant |
| UnboundedLogProofs.ExecUpdateVersionUpperBoundInductive | nr/unbounded_log.rs:799-817 | raising the version upper bound to the tail the combiner read keeps the invariant |
| UnboundedLogProofs.ExecFinishInductive | nr/unbounded_log.rs:820-830 | setting the local version to that tail and returning to Ready keeps the invariant |
| UnboundedLogProofs.NextPreservesInv | nr/unbounded_log.rs:838-1096 | every enabled step of any kind keeps the invariant |
| UnboundedLogProofs.NextGrows | nr/unbounded_log.rs:546-830 | every enabled step keeps every log entry; the global tail, the version upper bound and every local version never decrease |
| UnboundedLogFindings.PlaceBreaksInvAsWritten | nr/unbounded_log.rs:499-515 | on a reachable state, the source's invariant holds and the placing step is enabled, but the invariant fails after the step |
| UnboundedLogFindings.FinishBreaksQueuedOps | nr/unbounded_log.rs:689-693 | on a reachable state, the source's guard lets a queued Done request leave, which breaks `inv_queued_ops`; the corrected guard refuses the step |
| CyclicBufferIndex.Min | nr/cyclicbuffer.rs:627-629 | the result is at most both arguments and equals one of them |
| CyclicBufferIndex.MapMinValueIsMin | nr/cyclicbuffer.rs:631-642 | `map_min_value(m, idx)` is at most `m[0]` and every `m[i]` with `i < idx`, and it equals one of them |
| CyclicBufferIndex.MapMinValueMonotone | nr/cyclicbuffer.rs:631-642 | raising one value of the map never lowers the minimum |
| CyclicBufferIndex.MapMinValueRaised | nr/cyclicbuffer.rs:631-642 | when raising one value lifts the minimum above `j`, that value was among those folded and was at most `j` |
| CyclicBufferIndex.NextLap | nr/cyclicbuffer.rs:650-652 | one lap later an entry has the same slot, the next lap number and the opposite alive value |
| CyclicBufferIndex.EntryIsAliveNextLap | nr/cyclicbuffer.rs:644-652 | an entry is alive exactly when the entry one lap later, in the same slot, is not |
| CyclicBufferIndex.FlipBit | nr/cyclicbuffer.rs:644-652 | setting an entry's bit to its alive value makes that entry alive and changes no other entry less than one lap away |
| CyclicBufferProofs.InitializeInductive | nr/cyclicbuffer.rs:297-311 | the initial state meets the invariant when the initial fill is exactly -size .. -1 and meets the stored-entry predicate |
| CyclicBufferProofs.ReaderDoStartInductive | nr/cyclicbuffer.rs:317-324 | starting a read at the local head keeps the invariant |
| CyclicBufferProofs.ReaderDoEnterInductive | nr/cyclicbuffer.rs:326-343 | reading the tail into the range's end keeps the invariant |
| CyclicBufferProofs.ReaderDoGuardInductive | nr/cyclicbuffer.rs:345-364 | holding the current entry, alive and before the end, keeps the invariant |
| CyclicBufferProofs.ReaderDoGuardContentsPresent | nr/cyclicbuffer.rs:345-364 | under the invariant, the alive entry at a reader's current index, before its end, is stored and meets the stored-entry predicate (the source's assertion in `reader_do_guard`) |
| CyclicBufferProofs.GuardGuards | nr/cyclicbuffer.rs:366-375 | under the invariant, the entry a reader holds is stored with the value the reader captured |
| CyclicBufferProofs.ReaderDoUnguardInductive | nr/cyclicbuffer.rs:377-390 | releasing the entry and moving to the next keeps the invariant |
| CyclicBufferProofs.ReaderDoFinishInductive | nr/cyclicbuffer.rs:392-405 | a read that reached its end moving the local head to the end keeps the invariant |
| CyclicBufferProofs.ReaderDoAbortInductive | nr/cyclicbuffer.rs:407-413 | abandoning a read that holds no entry keeps the invariant |
| CyclicBufferProofs.InitAdvanceHeadInductive | nr/cyclicbuffer.rs:421-430 | starting the head scan from replica 0's local head keeps the invariant |
| CyclicBufferProofs.StepAdvanceHeadInductive | nr/cyclicbuffer.rs:432-444 | folding the next local head into the minimum keeps the invariant |
| CyclicBufferProofs.AbandonAdvanceHeadInductive | nr/cyclicbuffer.rs:446-453 | abandoning the head scan keeps the invariant |
| CyclicBufferProofs.FinishAdvanceHeadInductive | nr/cyclicbuffer.rs:455-464 | setting the head to the minimum of all local heads keeps the invariant |
| CyclicBufferProofs.InitAdvanceTailInductive | nr/cyclicbuffer.rs:468-476 | observing the head keeps the invariant |
| CyclicBufferProofs.AbandonAdvanceTailInductive | nr/cyclicbuffer.rs:478-485 | abandoning the tail advance keeps the invariant |
| CyclicBufferProofs.FinishAdvanceTailInductive | nr/cyclicbuffer.rs:487-534 | every entry withdrawn, from old tail - size up to new tail - size, is stored and meets the stored-entry predicate; moving the tail keeps the invariant |
| CyclicBufferProofs.AppendFlipBitInductive | nr/cyclicbuffer.rs:536-554 | the entry being filled is not stored yet, and filling it and flipping its bit keeps the invariant |
| CyclicBufferProofs.FinishAppendingInductive | nr/cyclicbuffer.rs:556-566 | an appender that filled its whole range going idle keeps the invariant |
| CyclicBufferProofs.NextPreservesInv | nr/cyclicbuffer.rs:577-623 | every enabled step of any kind keeps the invariant |
| CyclicBufferProofs.LeadsPreservesInv | nr/cyclicbuffer.rs:577-623 | any sequence of enabled steps from a state meeting the invariant ends in a state meeting it |
| CyclicBufferProofs.ReachableInv | nr/cyclicbuffer.rs:577-623 | every state reached from the initial state by enabled steps meets the invariant |
| CyclicBufferProofs.NextAdvances | nr/cyclicbuffer.rs:146-161 | no enabled step moves the tail or any local head back |
| CyclicBufferFindings.GuardBeyondEndBreaksInv | nr/cyclicbuffer.rs:345-364 | on a reachable state, the source's guard lets a reader hold the entry at its range's end, which breaks reader validity; the corrected guard refuses the step |
| CyclicBufferFindings.FinishBeforeEndBreaksInv | nr/cyclicbuffer.rs:392-405 | on a reachable state, the source's guard lets a reader finish before its end, which breaks the buffer-contents invariant; the corrected guard refuses the step |
| CyclicBufferFindings.ScanFromOwnHeadBreaksInv | nr/cyclicbuffer.rs:421-430 | on a reachable state, the source's start of the head scan breaks the scan's validity, and finishing the scan sets the head above a local head |
| CyclicBufferFindings.FillBeyondRangeBreaksInv | nr/cyclicbuffer.rs:536-554 | on a reachable state, the source's guard lets an appender fill past its range, storing an entry at the tail; the corrected guard refuses the step |
| CyclicBufferFindings.FillBreaksOverlapAsWritten | nr/cyclicbuffer.rs:163-181 | on a reachable state, the source's invariant holds, but after an enabled fill its overlap condition for two appenders is false, while the corrected invariant holds |
| CyclicBufferFindings.InitialFillBreaksInv | nr/cyclicbuffer.rs:297-311 | the source's initialization accepts an initial fill whose entries fail the stored-entry predicate, and its initial state then fails `contents_meet_inv` |

## Left out

- Concurrency, and the real implementation's atomics, compare-and-swap and spinning. The machines here are the source's atomic steps, taken one at a time.
- Sharding and tokens. The source splits the state into tokens for concurrent ownership. Here each machine is one state value, and `birds_eye` values are ordinary state.
- The commented-out bulk `update_place_ops_in_log` (nr/unbounded_log.rs:614-659). The one-request transition replaces it and is modelled.
- `LogRangeMatchesQueue2` (nr/unbounded_log.rs:1160-1187). Nothing in the source uses it.
- `inv_request_ids_finite` (nr/unbounded_log.rs:305-309). Every Dafny map is finite, so it holds of every state.
- The internals of `NRState`, `UpdateOp`, `ReadonlyOp`, `ReturnType`, `StoredType` and `stored_type_inv`. Their definitions live in files that are not part of this model, so they stay abstract.
- The benchmarks' CPU topology discovery (benchmarks/lib/bench_utils). It is foreign-library I/O, not replication logic.
- `fn main` (nr/cyclicbuffer.rs:656). It is empty.
- CyclicBuffer.InitializeEnabled: asks for a buffer size and a replica count of at least 1. The source leaves `% 0`, and looking up local head 0 with no replicas, unspecified.
- CyclicBufferIndex.EntryIsAlive: also asks that the slot has a bit. The source's map lookup of a missing key is unspecified; under the invariant every slot has a bit.
- CyclicBuffer.ReaderDoGuardEnabled: asks that the current entry is stored. The source reads the entry as a `birds_eye` value of the contents map (nr/cyclicbuffer.rs:356) and leaves a missing key unspecified. `CyclicBufferProofs.ReaderDoGuardContentsPresent` shows that the invariant implies this conjunct, so it excludes no state that meets the invariant.
- UnboundedLog.ExecDispatchLocalEnabled: asks that `idx` lies within the queue. The source indexes the queue without a bound; `UnboundedLog.PreExecDispatchLocal` proves the bound holds in every state meeting the invariant.
- LogRange.LogRangeMatchesQueue: is true when the lower index exceeds the upper one. The source leaves that case unspecified, and the model never uses it.
- UnboundedLogProofs.UpdateStartInductive, UnboundedLogProofs.UpdateDoneInductive, UnboundedLogProofs.UpdateFinishInductive: the source admits these proofs with `assume(false)`. Here they are proved (the last with the corrected guard).
- The source's cyclic-buffer induction lemmas have empty bodies (nr/cyclicbuffer.rs:577-623). Here they are proved, with the corrections listed below.
- The buffer's head is not monotone. Two head scans can finish in either order, so the head can move back (it stays below every local head). That is why `CyclicBufferProofs.NextAdvances` speaks only of the tail and the local heads.

## Findings

Here "the model" means the corrected definitions. The source's inductive
lemmas for these transitions are empty or admitted, so the machine was never
checked against its invariant.

| source | as written | input that shows it | evidently intended | confidence | as-written member | corrected member |
|---|---|---|---|---|---|---|
| nr/unbounded_log.rs:499-515 | a Placed or Applied update must refer to an index below the version upper bound | one node, one update request placed at index 0 while the version upper bound is still 0 | only a Done update is below the version upper bound; Placed and Applied ones are in the log | not executed | UnboundedLogFindings.PlaceBreaksInvAsWritten | UnboundedLogProofs.UpdatePlaceOpsInLogOneInductive |
| nr/unbounded_log.rs:689-693 | a Done update may finish while its combiner still queues it | one node whose combiner applied request 0 and published the bound but has not finished; request 0 finishes | a request finishes only once no combiner queues it. The source's comments know of this early leave: the XXX at nr/unbounded_log.rs:958-960, and nr/unbounded_log.rs:1451-1454, which calls the model "overly permissive". The corrected guard removes behaviour the source's model knowingly permits. The other possible repair was not taken: weakening `inv_queued_ops`, and drawing fresh ids against the queues too | not executed | UnboundedLogFindings.FinishBreaksQueuedOps | UnboundedLogProofs.UpdateFinishInductive |
| nr/cyclicbuffer.rs:345-364 | a reader may hold the entry at `cur` without `cur < end` | one slot, two replicas: replica 0 reads the empty range 0 .. 0, then replica 1 fills entry 0 and replica 0 holds it | a reader holds only entries before its end | not executed | CyclicBufferFindings.GuardBeyondEndBreaksInv | CyclicBufferProofs.ReaderDoGuardInductive |
| nr/cyclicbuffer.rs:392-405 | a reader may finish without `cur == end` | one slot: replica 0 enters the range 0 .. 1 while replica 1 has reserved but not filled entry 0, then finishes at once | a reader finishes only at its end | not executed | CyclicBufferFindings.FinishBeforeEndBreaksInv | CyclicBufferProofs.ReaderDoFinishInductive |
| nr/cyclicbuffer.rs:421-430 | the head scan starts at index 1 with the scanning replica's own local head | two replicas, local heads 0 and 1; replica 1 scans | the scan starts at index 1 with replica 0's local head | not executed | CyclicBufferFindings.ScanFromOwnHeadBreaksInv | CyclicBufferProofs.InitAdvanceHeadInductive |
| nr/cyclicbuffer.rs:536-554 | an appender may fill an entry without `cur_idx < tail` | one slot: replica 1 has filled its whole range 0 .. 1 and fills entry 1 | an appender fills only its reserved range | not executed | CyclicBufferFindings.FillBeyondRangeBreaksInv | CyclicBufferProofs.AppendFlipBitInductive |
| nr/cyclicbuffer.rs:163-181 | two appenders do not overlap when `cur_idx <= tail2 \|\| tail <= cur_idx2` | three slots: replica 1 reserves 0 .. 1, replica 0 reserves 1 .. 3 and fills entry 1 | the remaining ranges are disjoint: `tail <= cur_idx2 \|\| tail2 <= cur_idx` | not executed | CyclicBufferFindings.FillBreaksOverlapAsWritten | CyclicBufferProofs.AppendFlipBitInductive |
| nr/cyclicbuffer.rs:297-311 | the initial fill need not meet the stored-entry predicate | one slot whose only initial entry fails the predicate | initialization asks the initial fill to meet the predicate | not executed | CyclicBufferFindings.InitialFillBreaksInv | CyclicBufferProofs.InitializeInductive |
