# RenoDX utilities: models and proofs

RenoDX is a set of graphics add-ons that run inside a game's process. This project models the parts of it whose
correctness does not depend on a driver, and proves what each part promises. `dafny verify dfyconfig.toml` checks
the whole project.

The parts, and the files that hold them:

- **GPU fences** (`GpuQueues`, `KmtFence`, `SharedFence`). A device is a set of FIFO queues of work, signals and waits.
  A driver call is accepted or refused by an oracle, and before each call other users of the queues and the GPU itself
  may do any number of steps. On top of this stand the fence that joins several contexts and signals them one after
  the other, and the two fences that any queue may signal. The results hold for every run.
- **Callback delivery** (`CallbackDelivery`, `DeliveryLedger`, `OpenGLFence`, `FenceDelivery`). Submitters, worker and
  destructor as threads that interleave at every lock operation, driver call and completion query. `DeliveryLedger`
  says what becomes of every submission from its place in the run and the backend's answer; `FenceDelivery` puts the
  protocol and the fences together, so that a callback is known to follow the GPU work it waits for.
- **Hierarchical bit set and sparse containers** (`Bits`, `DivMod`, `FlaggedTree`, `FlaggedBits`, `FlaggedArray`,
  `FlaggedVector`, `FlaggedVectorIteration`). Count and word width are arbitrary, so there may be any number of summary
  levels. `FlaggedTree` is the theory of the level tree; `FlaggedBits` has the flat word array and the loops over it.
- **Command dispatch** (`CommandIndex`, `CommandPrepare`, `CommandStages`, `CommandSelection`, `CommandAction`,
  `CommandProtocol`, `PostCommandStack`). A naive scan is the specification of which callbacks run; the prepared index
  with its reused buckets is proved equal to it, and `CommandSelection` says without the scan which registrations it
  selects. The course of a command is specified from the callbacks' answers alone.
- **EXR files and binary16** (`Float16`, `ExrFormat`, `ExrWriter`, `ExrReader`, `ExrInput`, `ExrRoundTrip`, `ExrValid`,
  `ExrFiles`). Conversion follows IEEE 754-2019 sections 3.4 and 4.3.1; the layout is that of the "OpenEXR File Layout"
  document. `ExrReader` says what any sequence of bytes means, with the first error; `ExrInput` is the stream that reads
  it; `ExrValid` says from the writing side which files are valid, and those are exactly the ones that are read.
- **Handler election** (`CrossAddon`, `CrossAddonHistory`). Module and event records of one process, changed by any
  number of modules; what the host holds is read off the sequence of operations.
- **Pipeline layouts** (`VulkanMerge`, `PushConstants`, `DescriptorPacking`, `Sorting`).
- **Smaller parts**: the racing descriptor table cache (`DescriptorCache`), CRC32 (`Crc32Table`, `Crc32`; RFC 1952
  section 8) and the include closure (`HlslDependencies`).

Objects whose methods update fields are classes with those fields, and every method states its new state through a
specification function or an abstract value. Protocols between threads are state machines: an action is one step that
no other thread can interrupt, an action that its thread cannot take changes nothing, and the results are about all
sequences of actions. What is accepted, registered, selected, read or delivered is stated a second time, from inputs,
answers or actions alone, and proved to be the same.

Where the code does not do what one may expect of it, the project says exactly when it does:

- The points that a D3DKMT fence reports as reached have been reached if and only if its binding is valid or the value in
  GPU memory has come up to the last accepted point (`KmtFence.ObservedIsRetired`), and likewise for the callbacks that
  wait for them, where a lost device counts as an invalid binding (`FenceDelivery.CallbacksFollowWork`).
- The offset of appended Vulkan push constants is recovered if and only if they fit 64 slots and some relevant stage
  sees them (`PushConstants.RecoveredExactly`).
- An EXR file of more than 2^31 columns or rows is written but not accepted back (`ExrRoundTrip.RoundTrip`), and the
  size checks of the writer are exact if and only if stride times height does not wrap (`ExrWriter.AcceptedHoldsRows`).
- A change of a message leaves its CRC32 as it was if and only if the change is a multiple of the polynomial
  (`Crc32.UnseenExactly`): four consecutive bytes never are one, five can be (`Crc32.BurstSeen`, `Crc32.FiveBytesMissed`).

## Model

| member | source | states |
|---|---|---|
| FlaggedBits.FlaggedBits.Layout | src/utils/flagged_bits.hpp:27-42 | The number of levels and the offset of every level, as the compile-time loops compute them, are those of the level tree, for any count and word width. |
| FlaggedBits.FlaggedBits.constructor | src/utils/flagged_bits.hpp:219 | A new bit set is valid and has no members. |
| FlaggedBits.FlaggedBits.Set | src/utils/flagged_bits.hpp:44-53 | Adds exactly one index, early exit included; every summary bit stays set exactly when its child word is nonzero and no bit lies beyond its level. |
| FlaggedBits.FlaggedBits.SetRange | src/utils/flagged_bits.hpp:54-64 | Adds exactly the indexes of the range and keeps all levels consistent, for ranges over any number of words. |
| FlaggedBits.FlaggedBits.Reset | src/utils/flagged_bits.hpp:106-114 | Removes exactly one index and restores all summaries, also when called with the word already emptied by a range reset. |
| FlaggedBits.FlaggedBits.ResetRange | src/utils/flagged_bits.hpp:120-134 | Removes exactly the indexes of the range and keeps all levels consistent. |
| FlaggedBits.FlaggedBits.ResetAll | src/utils/flagged_bits.hpp:115-119 | Removes every index at all levels. |
| FlaggedBits.FlaggedBits.ClearWord | src/utils/flagged_bits.hpp:196-204 | Zeroes exactly the subtree below a word, from a snapshot of each parent, and nothing outside it. |
| FlaggedBits.FlaggedBits.Test | src/utils/flagged_bits.hpp:135-138 | True exactly for members; indexes at or beyond the count are not members. |
| FlaggedBits.FlaggedBits.None | src/utils/flagged_bits.hpp:139-145 | True exactly when there is no member, judged from the top word alone. |
| FlaggedBits.FlaggedBits.FindNext | src/utils/flagged_bits.hpp:205-218 | At any level, the least set bit at or after the argument, or the count if there is none; the recursion through the summaries terminates for any number of levels. |
| FlaggedBits.FlaggedBits.Count | src/utils/flagged_bits.hpp:146-150 | The number of members. |
| FlaggedBits.FlaggedBits.All | src/utils/flagged_bits.hpp:151 | True exactly when every index below the count is a member. |
| FlaggedBits.IndexCursor.constructor | src/utils/flagged_bits.hpp:159 | Starts before the first member. |
| FlaggedBits.IndexCursor.LoadWord | src/utils/flagged_bits.hpp:172-179 | Moves to the first nonzero word at or after the given one. |
| FlaggedBits.IndexCursor.MoveNext | src/utils/flagged_bits.hpp:161-167 | Passes exactly the current member. |
| FlaggedBits.RangeCursor.constructor | src/utils/flagged_bits.hpp:75 | Stands at the first maximal run. |
| FlaggedBits.RangeCursor.Advance | src/utils/flagged_bits.hpp:77-87 | Skips only absent indexes and stands at the next maximal run, which may cross words. |
| FlaggedBits.RangeCursor.MoveNext | src/utils/flagged_bits.hpp:77-87 | The same from a run that has not ended the iteration. |
| FlaggedBits.CollectIndexes | src/utils/flagged_bits.hpp:185-191 | A loop over indexes() visits exactly the members in ascending order and ends. |
| FlaggedBits.CollectRanges | src/utils/flagged_bits.hpp:100-105 | A loop over ranges() visits exactly the maximal runs, disjoint, apart and ascending, and ends. |
| FlaggedTree.TopWordDecides | src/utils/flagged_bits.hpp:139-145 | In a consistent tree of any height the top word is zero exactly when there is no member. |
| FlaggedTree.LowerStep | src/utils/flagged_bits.hpp:106-114 | One round of reset: a nonzero word ends it with the index gone and all levels consistent, a zero word leaves exactly the next summary pending. |
| FlaggedTree.RaiseStep | src/utils/flagged_bits.hpp:44-53 | One round of set: a word that was nonzero ends it with all levels consistent, otherwise exactly the next summary is pending. |
| FlaggedTree.FillStep | src/utils/flagged_bits.hpp:57-62 | Marking the part of a range in one word adds exactly those indexes once the summaries are established. |
| FlaggedTree.EraseStep | src/utils/flagged_bits.hpp:123-132 | Clearing the part of a range in one word removes exactly those indexes and leaves the summary pending exactly when the word became zero. |
| FlaggedTree.TopClears | src/utils/flagged_bits.hpp:115-119 | A cleared subtree below the top word is the whole tree. |
| FlaggedTree.SummaryAnswers | src/utils/flagged_bits.hpp:211-216 | The answer of the next level names the first nonzero word of this level after the given one. |
| FlaggedTree.AscendingUnique | src/utils/flagged_bits.hpp:153-183 | Ascending sequences with the same members are equal, so the visited sequence is determined by the set. |
| FlaggedArray.FlaggedArray.constructor | src/utils/flagged_array.hpp:21-22 | All slots hold the initial value and none is present. |
| FlaggedArray.FlaggedArray.Set | src/utils/flagged_array.hpp:24-29 | Stores one value and makes its slot present; other slots and flags are unchanged. |
| FlaggedArray.FlaggedArray.SetRange | src/utils/flagged_array.hpp:30-36 | Stores a run of values and makes exactly their slots present as well. |
| FlaggedArray.FlaggedArray.Has | src/utils/flagged_array.hpp:43 | True exactly for present slots. |
| FlaggedArray.FlaggedArray.Get | src/utils/flagged_array.hpp:44-51 | The stored value of a present slot. |
| FlaggedArray.FlaggedArray.Reset | src/utils/flagged_array.hpp:52 | Makes one slot absent and retains its value. |
| FlaggedArray.FlaggedArray.Clear | src/utils/flagged_array.hpp:53 | Makes all slots absent and retains all values. |
| FlaggedArray.FlaggedArray.ClearRange | src/utils/flagged_array.hpp:54 | Makes exactly the slots of the range absent. |
| FlaggedArray.FlaggedArray.IsEmpty | src/utils/flagged_array.hpp:55 | True exactly when no slot is present. |
| FlaggedArray.FlaggedArray.IsComplete | src/utils/flagged_array.hpp:56 | True exactly when all slots are present. |
| FlaggedVector.FlaggedVector.constructor | src/utils/flagged_vector.hpp:33-34 | An empty map of size 0. |
| FlaggedVector.FlaggedVector.Set | src/utils/flagged_vector.hpp:49-57 | Updates the partial map at one index, growing to its block; the size becomes at least index + 1. |
| FlaggedVector.FlaggedVector.SetRange | src/utils/flagged_vector.hpp:58-72 | Updates the map at a run of indexes, across any number of blocks; an empty run changes nothing. |
| FlaggedVector.FlaggedVector.Has | src/utils/flagged_vector.hpp:73-75 | True exactly for indexes in the map. |
| FlaggedVector.FlaggedVector.Get | src/utils/flagged_vector.hpp:119-126 | The map's value at an index in it. |
| FlaggedVector.FlaggedVector.At | src/utils/flagged_vector.hpp:183-188 | operator[]: the map's value, or the default value for an absent index, never a value retained by a cleared slot. |
| FlaggedVector.FlaggedVector.Clear | src/utils/flagged_vector.hpp:127-131 | The empty map of size 0. |
| FlaggedVector.FlaggedVector.ClearRange | src/utils/flagged_vector.hpp:132-140 | Removes exactly the indexes of the range from the map, across blocks; the size stays. |
| FlaggedVector.FlaggedVector.Reset | src/utils/flagged_vector.hpp:141 | Removes one index. |
| FlaggedVector.FlaggedVector.Assign | src/utils/flagged_vector.hpp:218-222 | The map from 0, 1, 2, ... to the given values, and no other index, whatever was there before. |
| FlaggedVector.FlaggedVector.MoveFrom | src/utils/flagged_vector.hpp:41-48 | Takes over the other vector's map and size and leaves it empty; moving to itself changes nothing. |
| FlaggedVector.WithSlot | src/utils/flagged_vector.hpp:49-57 | Setting a slot of the right block is an update of the map at one index. |
| FlaggedVector.WithRange | src/utils/flagged_vector.hpp:66-68 | Setting the slots of one block's part of a range is an update of the map at those indexes. |
| FlaggedVector.WithoutRange | src/utils/flagged_vector.hpp:135-136 | Clearing one block's part of a range removes exactly those indexes. |
| FlaggedVector.Compose | src/utils/flagged_vector.hpp:55 | Block and offset of an index are recovered from its position, so different slots are different indexes. |
| FlaggedVectorIteration.IndexIterator.Next | src/utils/flagged_vector.hpp:148-153 | Yields the first remaining index and leaves the others, skipping empty blocks. |
| FlaggedVectorIteration.IndexIterator.SkipEmptyBlocks | src/utils/flagged_vector.hpp:157-161 | Changes nothing about what remains to be visited, and stops only at the end of the populated blocks. |
| FlaggedVectorIteration.CollectIndexes | src/utils/flagged_vector.hpp:166-171 | Iteration yields exactly the keys of the map in ascending order across blocks. |
| FlaggedVectorIteration.RangeIterator.Next | src/utils/flagged_vector.hpp:88-97 | Yields the first remaining populated range and leaves the others. |
| FlaggedVectorIteration.RangeIterator.SkipEmptyBlocks | src/utils/flagged_vector.hpp:106-110 | Changes nothing about what remains to be visited. |
| FlaggedVectorIteration.CollectRanges | src/utils/flagged_vector.hpp:115-118 | Iteration yields ascending disjoint ranges whose values are the map's and which together cover exactly its keys; a range starts and ends only beside an absent slot or at a block boundary. |
| FlaggedVectorIteration.RunsCover | src/utils/flagged_vector.hpp:80-114 | The runs of a block contain exactly its present slots. |
| FlaggedVectorIteration.RunsUnique | src/utils/flagged_vector.hpp:80-114 | Ascending runs that never touch are determined by the offsets they contain. |
| FlaggedVectorIteration.BlockRanges | src/utils/flagged_vector.hpp:87-92 | What a loop over a block's ranges() yields is exactly the runs from which the vector's ranges are made. |
| FlaggedVectorIteration.BlockIndexes | src/utils/flagged_vector.hpp:147-148 | What a loop over a block's indexes() yields is exactly the offsets from which the vector's indexes are made. |
| FlaggedVectorIteration.RunsApart | src/utils/flagged_vector.hpp:80-114 | The runs of a block are ascending and never touch, so each is maximal. |
| Float16.Encode | src/utils/float16.hpp:17-74 | For all 2^32 inputs: the sign is kept, a finite value becomes a nearest binary16 value with ties to even (infinity beyond the largest), infinity stays infinity, a NaN becomes quiet with the upper payload bits. |
| Float16.Decode | src/utils/float16.hpp:77-121 | For all 2^16 inputs: the same value in binary32, subnormals included; infinities stay; a NaN keeps its payload and becomes quiet. |
| Float16.NearestEvenUnique | src/utils/float16.hpp:68-71 | There is only one nearest value with ties to even, so Encode is determined by its contract. |
| Float16.OverflowThreshold | src/utils/float16.hpp:49-52 | A magnitude rounds to infinity exactly from 65520 up. |
| Float16.NearestEvenMonotone | src/utils/float16.hpp:68-71 | Rounding keeps the order of magnitudes. |
| Float16.EncodeMonotone | src/utils/float16.hpp:17-74 | Encode keeps the order of all pairs of inputs that are not NaN, across signs, zeros and infinities. |
| Float16.EncodeAfterDecode | src/utils/float16.hpp:17-121 | Encode undoes Decode for all 2^16 inputs, except that a NaN comes back with its quiet bit set. |
| GpuQueues.ReachedMeansExecuted | src/utils/gpu_fence.hpp:365-384 | On FIFO queues whose signals of a fence are ordered: a fence that shows a value has executed the signal of that value and everything before it in that queue. |
| GpuQueues.ExecuteKeepsOrder | src/utils/gpu_fence.hpp:365-384 | A queue executing an operation keeps the signals of a fence in order, and the value shown never falls. |
| GpuQueues.AppendKeepsOrder | src/utils/gpu_fence.hpp:377-383 | Submitting a signal of a new highest value behind all earlier ones keeps the order. |
| GpuQueues.OthersKeepOrder | src/utils/gpu_fence.hpp:227-294 | Whatever other users of the queues submit and the GPU executes meanwhile, the order stays and the value never falls. |
| KmtFence.Device.Call | src/utils/gpu_fence.hpp:257 | A native submission succeeds or fails as the driver decides, after any interleaved work of others; only an accepted one is appended to its queue. |
| KmtFence.D3DKMTFence.constructor | src/utils/gpu_fence.hpp:171-176 | Nothing signalled, with the given contexts to join. |
| KmtFence.D3DKMTFence.SignalContext | src/utils/gpu_fence.hpp:248-270 | Refuses a value that is not above the producer's; otherwise records the value exactly when the driver accepts the signal. |
| KmtFence.D3DKMTFence.SignalJoinedContext | src/utils/gpu_fence.hpp:271-272 | The signal of one joined context, whose own timeline moves and no other. |
| KmtFence.D3DKMTFence.WaitForJoined | src/utils/gpu_fence.hpp:273-284 | The wait of the primary context for a joined one. |
| KmtFence.D3DKMTFence.SignalOwnContext | src/utils/gpu_fence.hpp:286 | The signal of the primary context, after all joins. |
| KmtFence.D3DKMTFence.QueueFence | src/utils/gpu_fence.hpp:227-287 | The checks in order, then for each joined context its signal and the primary's wait, then the primary's signal, stopping at the first refusal with what was submitted left in place. |
| KmtFence.D3DKMTFence.QueueNext | src/utils/gpu_fence.hpp:289-293 | The next automatic point, or 0. |
| KmtFence.D3DKMTFence.GetCompletedValue | src/utils/gpu_fence.hpp:155-168 | The value the fence shows, or UINT64_MAX without a valid binding. |
| KmtFence.AcceptedExactly | src/utils/gpu_fence.hpp:227-287 | An explicit point is accepted if and only if the binding is valid, a wait function exists or nothing is joined, the value is above the primary's and every joined one and below UINT64_MAX - 1, and the driver accepts each of the 2n + 1 calls for n joined contexts; every line then records it. |
| KmtFence.NextAcceptedExactly | src/utils/gpu_fence.hpp:289-293 | The automatic point is the next value, under exactly the same conditions, and 0 otherwise. |
| KmtFence.RefusedSignals | src/utils/gpu_fence.hpp:261-285 | A call that the driver refuses midway has signalled exactly the joined contexts whose own call came before the refusal. |
| KmtFence.QueueFenceCovers | src/utils/gpu_fence.hpp:227-287 | An accepted call covers everything enqueued before it on the primary and on every joined context; a refused one leaves the primary's value. |
| KmtFence.RefusedCall | src/utils/gpu_fence.hpp:261-270 | A refused call leaves all recorded values as they were, or some joined timeline recorded a value above the primary's. |
| KmtFence.RefusedCallSignals | src/utils/gpu_fence.hpp:261-285 | A refused call that put a signal of any of the fence's timelines on a queue leaves a joined timeline ahead of the primary. |
| KmtFence.RefusedSubmissionEndsPoints | src/utils/gpu_fence.hpp:227-293 | After a refused call that all the same put a signal of one of its timelines on any queue, no later run without explicit points accepts a point. |
| KmtFence.PartialRefuses | src/utils/gpu_fence.hpp:238-245 | While a joined timeline is ahead, the next automatic point is refused and nothing is submitted. |
| KmtFence.PartialLatches | src/utils/gpu_fence.hpp:289-293 | After a partially submitted signal no later automatic point is ever accepted, in any run without explicit points. |
| KmtFence.ActKeeps | src/utils/gpu_fence.hpp:227-293 | Every action of the fence, the GPU or others keeps the invariant and never lowers the fence's value. |
| KmtFence.ReachedPointsAreRetired | src/utils/gpu_fence.hpp:227-294 | In every run: once the fence shows an accepted point, all work enqueued before that point is retired on the primary and on every joined context; points are accepted in increasing order. |
| KmtFence.FenceValueNeverFalls | src/utils/gpu_fence.hpp:227-294 | Along every run the value shown never goes down. |
| KmtFence.ReachedIsShown | src/utils/gpu_fence.hpp:155-168 | An accepted point's work and signal have executed if and only if the value in GPU memory has come up to it. |
| KmtFence.ObservedIsRetired | src/utils/gpu_fence.hpp:155-168 | Of every point that GetCompletedValue reports as reached, work and signal have executed if and only if the binding is valid, no point was accepted, or the value in GPU memory has come up to the last accepted point. |
| KmtFence.InvalidBindingReportsUnretired | src/utils/gpu_fence.hpp:156 | With an invalidated binding it reports a point whose work has not executed: a concrete run. |
| SharedFence.Device.Submitted | src/utils/gpu_fence.hpp:370-377 | A native wait or signal succeeds or fails as the driver decides, after any interleaved work of others. |
| SharedFence.D3D12Fence.QueueFence | src/utils/gpu_fence.hpp:365-384 | An ordering wait for the latest point unless there is none, then a signal of the next; a failure of either returns 0 and keeps the value. |
| SharedFence.D3D12Keeps | src/utils/gpu_fence.hpp:365-384 | One call keeps the order of all signals and covers the work before it on the queue it was issued on. |
| SharedFence.D3D12AcceptedExactly | src/utils/gpu_fence.hpp:365-384 | A point is accepted if and only if the value is below UINT64_MAX - 2 and the driver accepts the wait, which the first point does not need, and the signal; it is then the next one. |
| SharedFence.ReShadeFence.QueueSignal | src/utils/gpu_fence.hpp:1073-1077 | A wait for the latest point when the queue changes, then a signal of the next point on that queue (see also lines 1195-1200). |
| SharedFence.ReShadeKeeps | src/utils/gpu_fence.hpp:1195-1200 | The same cover for the ReShade fence, which waits only on a change of queue. |
| SharedFence.ReShadeAcceptedExactly | src/utils/gpu_fence.hpp:1195-1200 | A point is accepted if and only if there is one more value and the driver accepts the signal, and before it the wait that a change of queue calls for; the queue is remembered exactly if no wait was needed or the wait was accepted (see also lines 1073-1077). |
| SharedFence.ReachedPointsAreRetired | src/utils/gpu_fence.hpp:365-384 | In every run over any number of queues, for both fences: the accepted points are 1, 2, 3, ..., and once the fence shows v, all work before each accepted point up to v has executed on whichever queue issued it. |
| SharedFence.FenceValueNeverFalls | src/utils/gpu_fence.hpp:365-384 | Along every run the value shown never goes down. |
| CallbackDelivery.ActKeeps | src/utils/gpu_fence.hpp:1045-1243 | Every step of submitters, worker and destructor keeps the invariant, in any interleaving. |
| CallbackDelivery.DeliveredInOrder | src/utils/gpu_fence.hpp:1132-1188 | What was taken for delivery, then what waits, is exactly what was accepted, in the order of submission; no callback occurs twice. |
| CallbackDelivery.DeliveredAfterCompletion | src/utils/gpu_fence.hpp:1141-1148 | A callback is taken only after a completed value at or above its own nonzero point was observed. |
| CallbackDelivery.RefusedNeverDelivered | src/utils/gpu_fence.hpp:1204-1228 | The callback of a rejected or throwing submission is never taken. |
| CallbackDelivery.FreeQueueIncreases | src/utils/gpu_fence.hpp:1180-1228 | Whenever the lock is free, queued points are nonzero and strictly increasing, for a backend whose accepted points increase (which FenceDelivery proves of the fences). |
| CallbackDelivery.CalledInSubmissionOrder | src/utils/gpu_fence.hpp:1147-1162 | Invocations end in submission order, one at a time. |
| CallbackDelivery.StoppingEndsDelivery | src/utils/gpu_fence.hpp:979-998 | Once stopping is set it stays set, no further callback is taken, and no further submission is accepted, refused or numbered. |
| CallbackDelivery.StopsExactly | src/utils/gpu_fence.hpp:981-985 | Delivery stops exactly when the fence is destroyed or the worker records a failed query, both under the free lock (see also lines 1132-1163). |
| CallbackDelivery.StoppedWorkerLeaves | src/utils/gpu_fence.hpp:979-998 | A stopped worker ends the callback it is in, leaves, has then called everything it ever took, and never comes back. |
| DeliveryLedger.AcceptedExactly | src/utils/gpu_fence.hpp:1180-1228 | In every run: the accepted callbacks are exactly those of the finished submissions for which the backend gave a point, each with its own point, in the order of submission; what the backend said is recorded from the actions, not by the protocol. |
| DeliveryLedger.RefusedExactly | src/utils/gpu_fence.hpp:1204-1228 | In every run: a callback is refused if and only if its submission has finished and the backend rejected it or threw. |
| DeliveryLedger.SubmissionGoesThrough | src/utils/gpu_fence.hpp:1172-1234 | A submission that meets a free lock before any stop ends with its callback queued at the point the backend gave it, behind all earlier ones, or withdrawn, and changes nothing else. |
| FenceDelivery.NextPoint | src/utils/gpu_fence.hpp:1189-1203 | A submission's signal on a D3DKMT, D3D12 or ReShade fence is refused and leaves the value, or is accepted with the next point, which is the fence's value from then on; the value reported never falls while the binding stays and the device is not lost. |
| FenceDelivery.DeliveryIsProtocol | src/utils/gpu_fence.hpp:1045-1243 | With such a fence as backend every run of submitters, worker and destructor is a run of the delivery protocol, so the increasing points that the protocol takes for granted are what fences hand out. |
| FenceDelivery.ActKeeps | src/utils/gpu_fence.hpp:1045-1243 | Every step of fence, GPU, submitters and worker together keeps the joint invariant. |
| FenceDelivery.CallbacksFollowWork | src/utils/gpu_fence.hpp:1132-1163 | In every joint run: all work enqueued before a submission, and its signal, have executed by the time its callback is taken, if and only if the fence still reports the value in GPU memory (valid D3DKMT binding, device not lost) or that value has come up to the point of the last callback taken. |
| FenceDelivery.UnboundCallback | src/utils/gpu_fence.hpp:156 | Once the binding has gone a callback may be taken before its work has executed: a concrete run. |
| CallbackDelivery.QueueDrains | src/utils/gpu_fence.hpp:1136-1163 | From any idle state within the invariant, a worker that sees the last accepted point completed calls every accepted callback, in order. |
| OpenGLFence.ActKeeps | src/utils/gpu_fence.hpp:451-553 | Every step of producer, worker, GPU and destructor keeps the invariant, in any interleaving. |
| OpenGLFence.NeverDeletedTwice | src/utils/gpu_fence.hpp:519-532 | A sync object is deleted exactly once if nobody needs it any more, and not at all while somebody does. |
| OpenGLFence.AllDeletedAtExit | src/utils/gpu_fence.hpp:465-493 | When the worker has gone and no submission holds a sync, every sync was deleted exactly once, also after a stop or failure. |
| OpenGLFence.CompletedPointsArePassed | src/utils/gpu_fence.hpp:474-481 | The GPU has passed the sync of every point up to the completed value. |
| OpenGLFence.CompletedNeverFalls | src/utils/gpu_fence.hpp:479 | The completed value never falls and accepted points are never renumbered. |
| OpenGLFence.NothingAfterStop | src/utils/gpu_fence.hpp:509-527 | After a stop no point is accepted; unless the worker was inside a wait, none is completed either. |
| OpenGLFence.NothingBeforeReady | src/utils/gpu_fence.hpp:511-516 | No sync exists and no point is accepted before the worker has a context. |
| OpenGLFence.PointsCountRegistrations | src/utils/gpu_fence.hpp:528-535 | The points returned count the registrations handed over. |
| OpenGLFence.RegisteredExactly | src/utils/gpu_fence.hpp:508-536 | A call is accepted, with the next point and a new sync at the back of the queue, if and only if the fence is not stopping, is ready, has a value left, the producer's context is current, and sync and queue entry can be had. |
| OpenGLFence.StartsExactly | src/utils/gpu_fence.hpp:451-464 | The worker becomes ready exactly if it can bind its context; otherwise the fence is stopped before any sync exists. |
| OpenGLFence.WaitEndsExactly | src/utils/gpu_fence.hpp:474-490 | A wait publishes its point exactly when its sync has signalled, and stops the fence exactly when it fails. |
| OpenGLFence.FenceDrains | src/utils/gpu_fence.hpp:465-493 | Unless the fence is stopped, a worker whose syncs the GPU has passed completes every accepted point and deletes every sync handed over. |
| OpenGLFence.StoppedFenceDrains | src/utils/gpu_fence.hpp:465-493 | A stopped worker deletes every sync handed over, publishes no completion, and leaves. |
| CommandIndex.IndexIsNaiveScan | src/utils/command_action.hpp:426-523 | Filling buckets from prepared indexes and walking them gives exactly the calls, in exactly the order, of a scan over bound stages and registrations that takes the first occurrence of each callback and configuration. |
| CommandSelection.ScanSelects | src/utils/command_action.hpp:426-523 | What the naive scan calls, without the scan: exactly the registrations for the command at a bound stage's shader, not removed, that no earlier registration of the same callback and configuration precedes, in the order of stages and positions. |
| CommandSelection.PreparedFrom | src/utils/command_action.hpp:209-246 | After a pipeline's creation the scan finds for each of its stages the list registered for that shader's hash, and for other pipelines what it found before. |
| CommandSelection.KeptPicks | src/utils/command_action.hpp:858-877 | Unregistering leaves exactly the registrations of other callbacks, in order. |
| CommandSelection.UpdatedList | src/utils/command_action.hpp:697-720 | A registration leaves exactly the earlier entries of other identities, configurations or command sets, in order, and appends one entry for each of its commands. |
| CommandIndex.ScanToday | src/utils/command_action.hpp:847-914 | When callbacks were only unregistered since preparation, scanning today's lists is the scan that skips what was unregistered. |
| CommandIndex.FillFromOk | src/utils/command_action.hpp:429-475 | The buckets hold, at every slot and position, exactly the first occurrence of a callback within its pipeline, and the pipeline count is exact. |
| CommandIndex.RepeatedPairNeedsTwo | src/utils/command_action.hpp:494-504 | A pair can come up twice only when two pipelines contribute, so skipping the set of called pairs otherwise is safe. |
| CommandPrepare.PrepareIndexes | src/utils/command_action.hpp:214-240 | Preparation records exactly the registrations of the pipeline's shaders: each callback once per command with, per stage, its first position. |
| CommandPrepare.PrunedIndex | src/utils/command_action.hpp:893-906 | Removing a callback from an index gives the index of the lists without it. |
| CommandPrepare.KeptTwice | src/utils/command_action.hpp:858-877 | Unregistering two callbacks one after the other removes both and keeps the order of the rest. |
| CommandAction.SharedData.constructor | src/utils/command_action.hpp:200-205 | Nothing registered or prepared. |
| CommandAction.SharedData.RegisterCallback | src/utils/command_action.hpp:665-735 | Replaces an earlier registration of the same identity, configuration and commands and appends the new entries, in one shader's list or in each global list; nothing otherwise. |
| CommandAction.RegisteredTwice | src/utils/command_action.hpp:697-720 | Registering again the same way changes nothing. |
| CommandAction.SharedData.OnInitPipeline | src/utils/command_action.hpp:209-246 | Stores the index of the pipeline, or drops it when nothing matches; other pipelines are unaffected, and all indexes stay right. |
| CommandAction.SharedData.OnDestroyPipeline | src/utils/command_action.hpp:248-256 | Drops the index unless a later pipeline has reused the handle. |
| CommandAction.SharedData.UnregisterCallback | src/utils/command_action.hpp:847-914 | Removes the callback from all lists and indexes and recomputes the summary of commands; all indexes stay right. |
| CommandAction.Matching | src/utils/command_action.hpp:223-238 | Finds the match of a callback or appends one, and records stage, hash and first position. |
| CommandAction.AddMatches | src/utils/command_action.hpp:218-240 | The registrations of one shader join the pipeline's matches of their commands. |
| CommandStages.CollectStages | src/utils/command_action.hpp:388-425 | A stage has a slot if and only if a pipeline is bound there and the stage belongs to the command: vertex, hull, domain, geometry and pixel for a draw; compute for a dispatch, dispatch of rays or unknown command taken for one; amplification, mesh and pixel for a mesh dispatch; in that order. |
| CommandStages.SlotsUnique | src/utils/command_action.hpp:388-425 | The slots are determined by command and bound pipelines. |
| CommandAction.SharedData.Place | src/utils/command_action.hpp:459-467 | Enters a match, clearing what earlier commands left beyond the extent; other positions are unchanged. |
| CommandAction.SharedData.PlaceGroup | src/utils/command_action.hpp:452-474 | The matches of one pipeline go to the first of its bound stages they are eligible for. |
| CommandAction.SharedData.FillBuckets | src/utils/command_action.hpp:426-475 | What is visible in the reused buckets is the filling for this command, whatever they held before. |
| CommandAction.SharedData.Invoking | src/utils/command_action.hpp:333-361 | Runs one callback, keeps its deferred callbacks in a reused slot and notes replay and bypass. |
| CommandAction.SharedData.RunShaderCallbacks | src/utils/command_action.hpp:487-522 | Runs the visible entries in order, each pair at most once, until a bypass. |
| CommandAction.SharedData.Finalize | src/utils/command_action.hpp:327-331 | Runs every finalizer kept so far, last one first. |
| CommandAction.SharedData.RunPosts | src/utils/command_action.hpp:562-564 | Runs every post callback kept so far, in order. |
| CommandAction.SharedData.RunGlobalCallbacks | src/utils/command_action.hpp:333-370 | The global callbacks run in order up to the first bypass. |
| CommandAction.SharedData.RunBoundShaders | src/utils/command_action.hpp:372-524 | After the global callbacks run exactly those that a naive scan of today's lists selects for the bound shaders, up to the first bypass. |
| CommandAction.SharedData.RunCallbacks | src/utils/command_action.hpp:297-568 | A whole command calls exactly the callbacks a naive scan of today's registrations selects for the stages of that command with a pipeline, global ones first, and performs exactly the prescribed course, independently of what earlier commands left in the reused vectors. |
| CommandProtocol.CommandCourse | src/utils/command_action.hpp:317-361 | For any callbacks and answers: invocations up to the first bypass; without one the command once, then post callbacks in order; on every path each returned finalizer once, in reverse order (see also lines 526-567). |
| CommandProtocol.RunCountIsFirstBypass | src/utils/command_action.hpp:354-357 | The callbacks that get to run are those up to and including the first that asks for a bypass. |
| CommandProtocol.PostsExactly | src/utils/command_action.hpp:562-564 | The post callbacks that run are those that were returned, each once with its own call and data, in the order of invocation. |
| CommandProtocol.FinalizersExactly | src/utils/command_action.hpp:327-331 | The finalizers are those that were returned, each once with its own call and data, listed in the order of invocation; CommandCourse runs the reversed list on every path. |
| CommandProtocol.SuppressedExactly | src/utils/command_action.hpp:526-567 | The add-on takes the command over if and only if a callback that ran asked for a bypass or a replay or returned something to run afterwards. |
| PostCommandStack.CommandUnwinds | src/mods/shader.hpp:1943-1946 | Whatever all callbacks, hooks, post callbacks and finalizers write and wherever a bypass cuts in: each RestoreBindings finds its own entry at the back of the stack, no entry of the command remains, and every slot holds exactly what the other writers before its first save make of it (see also lines 2349-2398). |
| PostCommandStack.SlotRestored | src/mods/shader.hpp:2372-2382 | A slot that nobody else writes before it is first saved, or, if it is not saved, at all, ends as it began. |
| PostCommandStack.RestoreSlot | src/mods/shader.hpp:2377-2380 | Restoring brings every saved slot back to what was saved first, whatever was written since, and touches no other slot. |
| PostCommandStack.RestoreUndoes | src/mods/shader.hpp:2372-2382 | Restoring snapshots in reverse order brings back every slot, also when one slot was overwritten several times. |
| PostCommandStack.CallbackPushes | src/mods/shader.hpp:2349-2398 | A callback pushes one entry and asks for a replay and a restore if and only if it does not bypass the command and overwrites a slot or wants to hear of the command; otherwise it leaves the stack as it is. |
| PostCommandStack.SavedAt | src/mods/shader.hpp:2372-2382 | Each snapshot holds what its slot held right before it was overwritten. |
| VulkanMerge.MergeVulkanDescriptorParameters | src/mods/shader.hpp:579-657 | Merges set by set into the parameters it is given indexes for and touches no other; fails exactly when the merging of a set meets an injected range that is not a single descriptor. |
| VulkanMerge.MergeSet | src/mods/shader.hpp:602-642 | The injected ranges of one set, one after the other, into a copy of the game's table. |
| VulkanMerge.SortRanges | src/mods/shader.hpp:646-648 | The same ranges, ordered by binding. |
| VulkanMerge.GetVulkanDescriptorSetParamIndexes | src/mods/shader.hpp:659-670 | Exactly the parameters that are not push constants, in order. |
| VulkanMerge.MergeCoversUnion | src/mods/shader.hpp:602-642 | The merged table covers a binding exactly as the game's did, and an injected binding once where the game had none. |
| VulkanMerge.MergeStaysDisjoint | src/mods/shader.hpp:602-642 | Disjoint ranges stay disjoint. |
| VulkanMerge.MergeKeepsOriginals | src/mods/shader.hpp:626-640 | The game's ranges keep binding, count and type, and visibility only grows; whatever is added is an injected range. |
| VulkanMerge.InjectedServed | src/mods/shader.hpp:618-641 | Every injected descriptor has a range of its own type that covers it and is visible to it. |
| VulkanMerge.ConflictExactly | src/mods/shader.hpp:622-637 | A set is left alone if and only if an injected descriptor disagrees in type with the game's range at its binding or with another injected one. |
| VulkanMerge.MalformedExactly | src/mods/shader.hpp:607-607 | Merging gives up if and only if it reaches, without a conflict before, an injected range that is not a single descriptor. |
| VulkanMerge.RangeCovers | src/mods/shader.hpp:612-621 | The bindings that a range with descriptors covers: all from its first on if it is unbounded, otherwise count - array_size + 1 of them. |
| VulkanMerge.MergedSetIsUnion | src/mods/shader.hpp:586-656 | A merged set is sorted and disjoint, covers exactly the union, and keeps every range of the game with its type and at least its visibility. |
| VulkanMerge.ClashKeepsTable | src/mods/shader.hpp:631-644 | A set with a clash keeps the game's table. |
| PushConstants.OnCreatePipelineLayout | src/mods/shader.hpp:720-769 | One pass over the game's parameters, then the range is expanded or appended (see also lines 891-903 and 1041-1087). |
| PushConstants.OnInitPipelineLayout | src/mods/shader.hpp:1605-1691 | Recovers the parameter and the offset from the finished parameters. |
| PushConstants.CreatedExactly | src/mods/shader.hpp:720-769 | The layout is extended if and only if it has no push constants, may have several ranges, or one range serves all relevant stages, and the slots fit the budget or may be cut (see also lines 891-903). |
| PushConstants.CreatedParameters | src/mods/shader.hpp:1041-1087 | The first range for all relevant stages is extended to the end of the injection, or else a range is appended for the relevant stages that no range serves; the offset is the first aligned one where no range of the game goes on, and nothing else changes. |
| PushConstants.PlacedApart | src/mods/shader.hpp:1067-1087 | The injected slots are aligned and begin at or after the end of every push-constant range of the game; an expanded range keeps its start and stages and ends with the injection; no other parameter changes. |
| PushConstants.RecoveredExactly | src/mods/shader.hpp:1660-1691 | The recovered parameter and offset are the chosen ones if and only if there are at most 64 slots and some relevant stage sees the injection: a range for all of them was expanded, or a relevant stage was still free. |
| PushConstants.SharedStagesNotRecovered | src/mods/shader.hpp:729-737 | Two ranges that share out the relevant stages: the injection is appended and not recovered. |
| PushConstants.ScanFinds | src/mods/shader.hpp:726-739 | The scan decides exactly whether some range serves all relevant stages, and otherwise which stages none serves. |
| DescriptorPacking.HullRanges | src/mods/shader.hpp:475-510 | One range for each type and space, widened register by register. |
| DescriptorPacking.ViewsContained | src/mods/shader.hpp:483-508 | Every view binding lies in a range of its type and space. |
| DescriptorPacking.RangesTight | src/mods/shader.hpp:491-508 | Every range begins and ends at a register that some view uses. |
| DescriptorPacking.NumberBindings | src/mods/shader.hpp:520-524 | Bindings follow one another without gaps from 0. |
| DescriptorPacking.PackRanges | src/mods/shader.hpp:475-524 | Ordered ranges, one for each type and space, tight around the views, with consecutive bindings, that contain every view. |
| DescriptorPacking.Locate | src/mods/shader.hpp:1768-1783 | A location for every register of every range and for nothing else. |
| DescriptorPacking.LocationsInjective | src/mods/shader.hpp:1768-1783 | Different registers have different locations. |
| DescriptorPacking.LocationsFillBindings | src/mods/shader.hpp:1768-1783 | The bindings in use are exactly 0 up to the total count: the ranges partition them. |
| DescriptorPacking.NoneMissing | src/mods/shader.hpp:2163-2181 | With the packed ranges no view of any shader lacks a location. |
| DescriptorPacking.DescriptorPusher.FillRun | src/mods/shader.hpp:2248-2266 | A longest run of consecutive bindings at the front, with each descriptor at its own place in the reused vectors. |
| DescriptorPacking.DescriptorPusher.SendRuns | src/mods/shader.hpp:2246-2342 | The updates deliver exactly the sorted descriptors, in order, and no two neighbours could have been one. |
| DescriptorPacking.DescriptorPusher.PackAndPush | src/mods/shader.hpp:475-2342 | End to end (packing 475-524, locations 1768-1783, pushing 2160-2342) from the bindings of all shaders to a draw: different registers get different locations, and only a null descriptor keeps the draw from getting each descriptor at its own location exactly once. |
| DescriptorPacking.DescriptorPusher.PushDescriptors | src/mods/shader.hpp:2160-2342 | Nothing is delivered exactly when a location or descriptor is missing; otherwise what arrives, counted with repetitions, is each bound descriptor at the location of its own register, read off the bindings and locations alone. |
| ExrFormat.HeaderSizeIs | src/utils/exr.hpp:118-173 | The computed size of any header, of any attributes and channels, is the number of bytes written for it. |
| ExrFormat.AttributeSizeIs | src/utils/exr.hpp:156-164 | The computed size of any attribute is the number of bytes written for it. |
| ExrFormat.ScanlineAtOffset | src/utils/exr.hpp:92-95 | Every scan line block stands in the file at the position the layout computes for it. |
| ExrFormat.OffsetInside | src/utils/exr.hpp:333-338 | Entry y of the line offset table holds the position computed for row y. |
| ExrFormat.FileSize | src/utils/exr.hpp:175-191 | The size of the whole file is the layout's position after the last row. |
| ExrFormat.AttributeWritten | src/utils/exr.hpp:702-722 | The bytes of every attribute of a written header, from literal names, types, channel entries and coordinates (see also lines 30-56). |
| ExrFormat.FileBegins | src/utils/exr.hpp:702-702 | Every file begins with the bytes 76 2F 31 01 02 00 00 00. |
| ExrFormat.BlockWritten | src/utils/exr.hpp:303-331 | A scan line block byte by byte: row number, size, and every sample of alpha, blue, green and red at its place, low byte first. |
| ExrWriter.OutputStream.PutNumber | src/utils/exr.hpp:206-214 | Appends a scalar in little-endian order. |
| ExrWriter.OutputStream.PutString | src/utils/exr.hpp:229-238 | Appends the characters and a terminating zero. |
| ExrWriter.OutputStream.PutChannelTail | src/utils/exr.hpp:256-266 | Appends the fixed part of a channel entry. |
| ExrWriter.OutputStream.PutChannels | src/utils/exr.hpp:268-274 | Appends all channel entries and the terminator. |
| ExrWriter.OutputStream.PutBox | src/utils/exr.hpp:276-278 | Appends the four coordinates of a box as 32-bit values. |
| ExrWriter.OutputStream.PutValue | src/utils/exr.hpp:247-254 | Appends the payload of an attribute by its kind. |
| ExrWriter.OutputStream.PutAttribute | src/utils/exr.hpp:284-292 | Appends name, type, computed size and payload. |
| ExrWriter.OutputStream.PutHeader | src/utils/exr.hpp:294-301 | Appends all attributes and the terminator. |
| ExrWriter.OutputStream.PutOffsets | src/utils/exr.hpp:333-338 | Appends the line offset table. |
| ExrWriter.OutputStream.PutPlane | src/utils/exr.hpp:314-317 | Appends one channel of a row, pixel by pixel. |
| ExrWriter.OutputStream.PutScanline | src/utils/exr.hpp:303-331 | Appends row number, size and the planes of alpha, blue, green and red. |
| ExrWriter.EncodeRow | src/utils/exr.hpp:192-200 | The channels of a row, rounded to binary16 or passed on, each in its own place. |
| ExrWriter.AcceptedHoldsRows | src/utils/exr.hpp:681-693 | Without a wrap of stride times height, exactly the input that holds a full stride for every row, padding of the last row included, of a non-empty image passes the checks; input that passes holds that much if and only if the product did not wrap. |
| ExrWriter.StridesHoldRows | src/utils/exr.hpp:728-734 | Input with a full stride for every row contains every row that the writer takes. |
| ExrWriter.WrappedStridePasses | src/utils/exr.hpp:687-689 | A stride whose product with the height wraps passes the checks with an input that ends before the last row: a concrete case. |
| ExrWriter.PutRows | src/utils/exr.hpp:728-735 | Writes the blocks of all rows, each taken at its row's stride. |
| ExrWriter.WriteRgba16f | src/utils/exr.hpp:666-742 | The refusal of the first failing check, or exactly the file with the rounded rows of the strided input. |
| ExrInput.InputStream.ReadNumber | src/utils/exr.hpp:348-356 | The scalar at the position, or a read failure. |
| ExrInput.InputStream.ReadStringZ | src/utils/exr.hpp:368-381 | The string up to the next zero, or a read failure. |
| ExrInput.InputStream.ReadBox | src/utils/exr.hpp:405-407 | Four signed coordinates. |
| ExrInput.InputStream.ReadChannelEntry | src/utils/exr.hpp:473-491 | The fields of one channel if they are the supported ones, otherwise the first deviation. |
| ExrInput.InputStream.ReadChannelNames | src/utils/exr.hpp:467-493 | All channel entries up to the empty name, with the first deviation as the error. |
| ExrInput.InputStream.ReadChannels | src/utils/exr.hpp:460-510 | The channel list, if its size and names are the expected ones. |
| ExrInput.InputStream.ReadFixed | src/utils/exr.hpp:512-582 | The value of an attribute of fixed size, or the error for an unsupported value. |
| ExrInput.InputStream.ReadPayload | src/utils/exr.hpp:460-584 | One attribute's payload by its name; unknown attributes are skipped by their size. |
| ExrInput.InputStream.ReadAttributes | src/utils/exr.hpp:447-585 | All attributes up to the empty name, in any order. |
| ExrInput.InputStream.ReadOffsets | src/utils/exr.hpp:610-613 | The line offset table, or a read failure. |
| ExrInput.InputStream.Seek | src/utils/exr.hpp:398-403 | Moves to a position that a signed 64-bit offset can hold, or fails. |
| ExrInput.InputStream.ReadRow | src/utils/exr.hpp:617-652 | The block at an offset, decoded into the four channels of its own row and no other pixel; or the first error. |
| ExrInput.DecodePlane | src/utils/exr.hpp:633-650 | Decodes one plane into its channel of the row and changes nothing else. |
| ExrInput.ReadRows | src/utils/exr.hpp:615-653 | All rows, each decoded at its own place, or the first error. |
| ExrInput.ReadRgba32f | src/utils/exr.hpp:417-655 | For any bytes: the first error, or the dimensions, header values and, at every pixel and channel, the decoded stored value. |
| ExrRoundTrip.HeaderBack | src/utils/exr.hpp:447-585 | Any list of accepted attributes, in any order and with repetitions, is read back as written. |
| ExrValid.ItemsBack | src/utils/exr.hpp:447-585 | A header of accepted attributes with any number of attributes of unknown names anywhere among them, each with any payload below 2^31 bytes, is read back as the header without them, at the right end. |
| ExrValid.ItemsFound | src/utils/exr.hpp:447-585 | And every header that is accepted is such a list. |
| ExrValid.CompleteExactly | src/utils/exr.hpp:586-591 | A header is complete if and only if each of the eight attributes occurs in it. |
| ExrValid.RowExactly | src/utils/exr.hpp:617-652 | A row is read at an offset if and only if the bytes there are the block that the writer makes of it. |
| ExrValid.ValidIsRead | src/utils/exr.hpp:417-655 | Every valid file is read as what it holds: unknown attributes anywhere, repetitions, any order, blocks at any offsets, rows in any place. |
| ExrValid.ReadIsValid | src/utils/exr.hpp:417-655 | Every file that is read is a valid one and holds what is returned, so the reader accepts exactly the valid files. |
| ExrRoundTrip.RowBack | src/utils/exr.hpp:617-652 | A written scan line block is read back as the same row of binary16 values. |
| ExrRoundTrip.DimensionsBack | src/utils/exr.hpp:592-606 | The data window gives the dimensions back if and only if both are at most 2^31. |
| ExrRoundTrip.RoundTrip | src/utils/exr.hpp:417-742 | A written file of any width and height below 2^32 is read back as the same dimensions, header and rows exactly when both dimensions are at most 2^31, and otherwise rejected as invalid dimensions. |
| ExrFiles.FileFits | src/utils/exr.hpp:175-191 | Files of width below 2^28 and height up to 2^31 stay below the largest stream position. |
| ExrFiles.WriteAndReadHalves | src/utils/exr.hpp:417-742 | For half-precision input every pixel and channel comes back as its own value. |
| ExrFiles.WriteAndRead | src/utils/exr.hpp:417-742 | Writing any image of those dimensions with any valid stride and reading it back gives the same dimensions and, at every pixel and channel, the value decoded from the binary16 value of the original. |
| CrossAddon.ControlBlock.SyncReshadeEvents | src/utils/cross_addon.hpp:137-161 | The handler's records are registered exactly where some active module wants their event; nothing else changes. |
| CrossAddon.ControlBlock.IsWanted | src/utils/cross_addon.hpp:143-152 | True exactly when some active module has an active record of the event. |
| CrossAddon.ControlBlock.UnregisterReshadeEvents | src/utils/cross_addon.hpp:163-171 | Takes back exactly the registrations of one module. |
| CrossAddon.ControlBlock.DeactivateEvents | src/utils/cross_addon.hpp:173-177 | Marks all records of a module inactive. |
| CrossAddon.ControlBlock.BestModule | src/utils/cross_addon.hpp:181-188 | The active module with the lowest sequence, or none. |
| CrossAddon.ControlBlock.ElectHandler | src/utils/cross_addon.hpp:179-196 | Makes the best module the handler; on a change the old handler's registrations are all taken back before the new one gets any. |
| CrossAddon.ControlBlock.FindModule | src/utils/cross_addon.hpp:198-205 | The record of a token, or none. |
| CrossAddon.ControlBlock.CreateModule | src/utils/cross_addon.hpp:207-217 | A new inactive record at the front with the next sequence. |
| CrossAddon.ControlBlock.FindEvent | src/utils/cross_addon.hpp:219-225 | The first record of an event and callback. |
| CrossAddon.Host.Register | src/utils/cross_addon.hpp:95-98 | The host's registrations grow by one; that only one module ever holds any is a precondition every caller meets, intermediate states included. |
| CrossAddon.Host.Unregister | src/utils/cross_addon.hpp:100-103 | The host's registrations shrink by one that is there. |
| CrossAddon.Shared.RegisterModule | src/utils/cross_addon.hpp:269-296 | Finds or makes the module's record, activates it and settles election and registrations; true exactly for a newly active module; every record there was stays. |
| CrossAddon.Shared.UnregisterModule | src/utils/cross_addon.hpp:302-324 | Deactivates the module and its events and settles; true exactly if it was registered; all records stay. |
| CrossAddon.Shared.RegisterEvent | src/utils/cross_addon.hpp:326-346 | Activates the module, sets the activity of the event's record, made if needed, and settles; every record there was stays. |
| CrossAddon.Shared.UnregisterEvent | src/utils/cross_addon.hpp:348-359 | Makes the event's record inactive and settles; all records stay. |
| CrossAddon.ActKeeps | src/utils/cross_addon.hpp:137-359 | Every operation of any module leaves the records in order and settled. |
| CrossAddon.HostServesHandler | src/utils/cross_addon.hpp:137-359 | After any sequence of operations by any number of modules: a callback is registered with the host if and only if it is a record of the active module with the lowest sequence for an event that some active module wants. |
| CrossAddonHistory.RunTold | src/utils/cross_addon.hpp:265-359 | After any sequence of operations every record's existence, activity and age is what the sequence of operations alone says. |
| CrossAddonHistory.HostServesSequence | src/utils/cross_addon.hpp:137-359 | After any sequence of operations the host holds (module, event, callback) if and only if, by the sequence alone, the module is the first recorded one that is in, has recorded the callback, and some module's last word on the event and some callback since its last leave was to add it as active and it had or got a record. |
| CrossAddonHistory.PerformSequence | src/utils/cross_addon.hpp:137-359 | The operations performed through the modules' handles leave the host with exactly those registrations. |
| CrossAddon.NoHandlerWithoutModules | src/utils/cross_addon.hpp:137-359 | There is no handler, and nothing registered, exactly when no module is active. |
| CrossAddon.OthersStayActive | src/utils/cross_addon.hpp:269-359 | An operation of one module leaves the activity of every other module alone. |
| CrossAddon.Perform | src/utils/cross_addon.hpp:269-359 | One operation through its module's handle does to the records what the run of records says, and leaves the handles of all other modules usable. |
| CrossAddon.PerformAll | src/utils/cross_addon.hpp:137-359 | Any sequence of operations through any number of modules' handles follows the run of records, and the host then holds exactly the registrations that HostServesHandler describes. |
| CrossAddon.HostHoldsRecords | src/utils/cross_addon.hpp:137-196 | The host's own registrations are those the records say. |
| CrossAddon.SettleTwice | src/utils/cross_addon.hpp:137-161 | Settling what is settled changes nothing. |
| DescriptorCache.Tables.GetAllocatedDescriptorTable | src/utils/descriptor.hpp:464-477 | The cached table of a layout and parameter, or none. |
| DescriptorCache.Tables.PublishTable | src/utils/descriptor.hpp:495-517 | Caches the offered table unless another is cached already; returns the cached one and whether it was the one offered. |
| DescriptorCache.Tables.EraseLayout | src/utils/descriptor.hpp:454-462 | Forgets a layout and frees its valid tables, in order (see also lines 441-452). |
| DescriptorCache.FreesErased | src/utils/descriptor.hpp:441-462 | The protocol's step frees every table exactly as often as the list of valid tables that EraseLayout frees contains it. |
| DescriptorCache.ActKeeps | src/utils/descriptor.hpp:454-524 | Every step of any thread keeps the invariant, in any interleaving. |
| DescriptorCache.TablesOnce | src/utils/descriptor.hpp:479-524 | In every interleaving a table is published at most once and freed at most once, and freed unpublished exactly when its allocator gave it back. |
| DescriptorCache.NoTableLost | src/utils/descriptor.hpp:479-524 | Once no lookup is under way, every table was either published or given back, not both, and one that was not freed is cached. |
| DescriptorCache.SameTableForAll | src/utils/descriptor.hpp:464-524 | Between two frees of a layout all successful callers get the same table for the same parameter. |
| DescriptorCache.ServedTablesLive | src/utils/descriptor.hpp:454-477 | A table the cache serves has not been freed. |
| DescriptorCache.HitAnswers | src/utils/descriptor.hpp:464-494 | A lookup that finds a table in the cache gets it at once and changes nothing. |
| DescriptorCache.MissCaches | src/utils/descriptor.hpp:479-524 | A lookup that finds none, undisturbed, gets the table it allocates, which is cached from then on; all other entries stay. |
| DescriptorCache.LoserGetsCached | src/utils/descriptor.hpp:495-524 | A thread that meets a table published meanwhile gets that one and gives its own back. |
| DescriptorCache.FailureChangesNothing | src/utils/descriptor.hpp:479-494 | When the driver hands out no table everything is as it was. |
| DescriptorCache.FreedExactly | src/utils/descriptor.hpp:441-462 | Freeing a layout empties its part of the cache, frees exactly the tables cached there, each once, and leaves every other layout alone. |
| Crc32Table.TableIsDivision | src/utils/hash.hpp:52-84 | Every entry of the table is the bit-at-a-time division of its index by 0xEDB88320. |
| Crc32.TableStepDivides | src/utils/hash.hpp:86-88 | One table step is the division of one byte, for every state and byte. |
| Crc32.UpdateCRC32 | src/utils/hash.hpp:50-90 | Table-driven and bit-at-a-time division agree on all inputs. |
| Crc32.ComputeCRC32 | src/utils/hash.hpp:92-98 | The checksum of RFC 1952 section 8. |
| Crc32.CheckValue | src/utils/hash.hpp:92-98 | The checksum of the digits 1 to 9 is CBF43926, the check value of this CRC. |
| Crc32.Pieces | src/utils/hash.hpp:86-89 | A message may be given in pieces. |
| Crc32.Affine | src/utils/hash.hpp:86-89 | The division is linear over exclusive or of messages of the same length. |
| Crc32.StatesStayApart | src/utils/hash.hpp:86-89 | Different states stay different whatever follows. |
| Crc32.BurstSeen | src/utils/hash.hpp:96-98 | Two messages that differ, but only within four consecutive bytes, have different checksums. |
| Crc32.UnseenExactly | src/utils/hash.hpp:96-98 | Messages of one length have the same checksum if and only if their exclusive or is a multiple of the polynomial, which depends on the change and not on the message. |
| Crc32.FiveBytesMissed | src/utils/hash.hpp:96-98 | Five bytes are too many: two different messages with the same checksum. |
| HlslDependencies.CollectIncludedDependencies | src/utils/hlsl_dependencies.hpp:73-103 | For any finite include graph, cycles included, the loop ends with exactly the tracked includes of the files reachable through existing tracked files. |
| HlslDependencies.AddIncludes | src/utils/hlsl_dependencies.hpp:86-101 | The tracked includes of one file are recorded, and the existing ones queued. |
| HlslDependencies.CollectDependencies | src/utils/hlsl_dependencies.hpp:105-127 | The root first, then each needed file once, with its existence, and nothing else. |
| HlslDependencies.ClosedHasReachable | src/utils/hlsl_dependencies.hpp:82-101 | A visited set closed under existing tracked includes contains every reachable file. |

## Left out

- D3D11 fences: one context and one signal per call, a special case of the shared fences.
- Native creation, import and destruction of fences, contexts and shared handles, and calls on a null or foreign device:
  driver plumbing; driver calls that can fail are an arbitrary answer.
- KmtFence.D3DKMTFence.QueueFence: fence handles exist from creation on, so the branches for a missing handle are absent; assertions are taken as in a release build.
- KmtFence.D3DKMTFence.constructor: the joined fences are distinct objects with distinct native fences on one device; nothing else signals those fences.
- KmtFence.FenceValueNeverFalls: speaks of the value the GPU shows; what GetCompletedValue reports also jumps to UINT64_MAX when a binding is invalidated, which ObservedIsRetired covers.
- CallbackDelivery.ActKeeps: the worker exists from the start, the backend hands out increasing points (FenceDelivery proves it of the fences, PointsCountRegistrations of OpenGL), and the fence is not used while it is destroyed or from its own callback.
- CallbackDelivery.QueueDrains: liveness of the worker only, under a completed value that stays; fairness of the scheduler and time-outs are not modelled.
- FenceDelivery.NextPoint: the ReShade fence's wait on a change of queue, which precedes the reservation of the callback, is one step with its signal.
- OpenGLFence.ActKeeps: calls of QueueFence come from one producer thread, and the driver reports a sync as signaled only after the GPU has passed it.
- FlaggedBits.FlaggedBits.Set: words are natural numbers below a power of two of any width with their bitwise operations; C++ integer promotion of narrow words is not modelled.
- FlaggedVector.FlaggedVector.Set: the vector holds its blocks as values, so references into a block, relocation and sharing are not captured; FlaggedArray models a block in place.
- FlaggedVector.FlaggedVector.SetRange: index arithmetic is on natural numbers, without wrap of `first + size`.
- The projections values() and entries() of the containers, which combine the index iterators with get.
- CommandAction.SharedData.RunCallbacks: not re-entered; registration, pipeline creation and destruction do not overlap it; callback and configuration fix the thunk; callbacks answer by their place in the course of the command, and what they do to the command list is not modelled.
- CommandAction.SharedData.OnInitPipeline: a pipeline has one shader per stage, and registrations are only removed while pipelines prepared from them exist.
- CommandAction.SharedData.RegisterCallback: the module registration that precedes it is in CrossAddon; which commands a callback type supports is a parameter.
- Recycling of set nodes in RunCallbacks: the set of called pairs is a value that starts empty.
- PostCommandStack.CommandUnwinds: a binding is a number per slot, snapshots restore what they captured, and executing the command itself changes no binding; the rest of OnCommandAction's drawing state is not modelled.
- VulkanMerge.MergeVulkanDescriptorParameters: bindings are natural numbers, so `binding + count` does not wrap; sets beyond the game's are appended elsewhere.
- VulkanMerge.MergedSetIsUnion: the game's own ranges are disjoint; for ranges that overlap MergeCoversUnion counts how often a binding is covered.
- PushConstants.OnCreatePipelineLayout: Vulkan without layout cloning; offsets are natural numbers; D3D12 root signature cost counting and the D3D register search are not modelled.
- DescriptorPacking.PackRanges: devices other than Vulkan; register indexes are natural numbers, so `register + count` does not wrap.
- DescriptorPacking.DescriptorPusher.PushDescriptors: the D3D12 root-descriptor special case and Vulkan descriptor tables deliver through other calls and are not distinguished.
- CrossAddon.Shared.RegisterModule: opening the process-wide slot and the configure callbacks of modules are absent; whether a record can be allocated is a parameter.
- CrossAddon.Shared.UnregisterModule: the callback that reconfigures shared data on removal is absent.
- ExrWriter.WriteRgba16f: input that passes the checks contains every row that is written, as `subspan` demands; AcceptedHoldsRows and StridesHoldRows say when that is so. Failures of the file system are not modelled.
- ExrFormat.HeaderSizeIs: sizes are natural numbers; 32-bit overflow of a header's size is not modelled, a written header has at most 1601 bytes.
- ExrInput.ReadRgba32f: memory is unlimited, so the products that size the pixel vector do not wrap; they could only for 2^31 columns and rows at once.
- ExrRoundTrip.RoundTrip: the file is smaller than 2^63 bytes, the range of a stream position; FileFits gives dimensions that ensure it.
- Float16.Encode: floating-point values are their bit patterns; the processor's floating-point environment plays no role in either conversion.
- DescriptorCache.ActKeeps: destruction of the device does not overlap lookups, as comments in the code require; every table the driver hands out is a new one.
- HlslDependencies.CollectDependencies: reading files, matching include directives, normalizing paths and checking existence are one finite graph that does not change meanwhile.
- `HashPair`, logging, string formatting, device proxies, swapchains and user interface: no claim worth a proof, or driver plumbing.
