# Verified model of the SNAP core

This project models the parts of a storage and network emulation library in which most of its state lives, and proves
what they are for. Six pieces are covered.

1. **Hash set and dirty pages** (`Probe`, `Table`, `FlagWords`, `Rehash`, `Khash`, `DirtyPages`). Open addressing with tombstones,
   triangular probing and an in-place kick-out rehash behaves as a mathematical set over every sequence of calls; on it
   stands the set of pages dirtied since their last report.
2. **Virtqueue command machine** (`BlkMachine`, `BlkRequest`, `VirtqState`, `VirtqQueue`). Handlers move a command only
   to later states, a run ends in one of four ways, and a request has the outcome that its kind and the answers to it call
   for. Over unbounded runs with 16-bit wrapping indices every accepted command is completed exactly once, in order if order
   is forced, across suspend and restart, and with a good status only after exactly the operations of its kind.
3. **Descriptor chains** (`Descriptors`, `Chains`). Splitting and merging keep the bytes that a chain names; both ways of
   collecting a chain give the same array, and it is exactly known when that is the whole chain.
4. **NVMe rings on the DPA** (`CyclicCopy`, `RoundRobin`, `NvmeRings`, `Batches`, `NvmeSubmit`, `NvmeCompletions`). A
   cyclic copy with two wrap-arounds, weighted round robin, splitting of batches by namespace, and a completion ring with
   phase bits (section 4.6 of the NVM Express Base Specification 1.4).
5. **Controller life cycle and migration** (`Controller`, `ControllerQueues`, `Records`, `StateFormat`, `StateBuffer`).
   The product of controller state and migration state, the queues as the controller sees them, and the saved state of a
   controller as bytes in a buffer.
6. **Admin queue** (`AdminLists`, `AdminQueue`, `ScatterGather`). Pools of commands and descriptors, completion in order,
   and transfers between a buffer and a chain of descriptors.

Objects that the code updates in place are classes, buffers are arrays, loops are loops. Hardware, DMA engines, backends
and callbacks are parameters that say how they answer, so every claim holds for every way they may answer. The hash
function is a parameter; the load factor 0.77 is written `(77 * n + 50) / 100`, which is what the floating-point
expression gives for powers of two.

## Where the code does not do what one might expect

The model does what the code does. In these places that is not the natural property; nearly all have a member that
says exactly when the property holds.

- Free slots of the completion ring (dpa/dpa_nvme_mp.c:554): both operands have 16 bits and are promoted to `int`, so for
  a head not beyond the tail the remainder is negative and the count becomes almost 2^16. `BeliefIsRight` and
  `NoOverrunExactlyIfSafe` give the positions for which this does no harm.
- The status code for an unknown namespace is odd and spoils the phase bit (`PhaseShows`).
- The count of a wrapped sub-batch is right only for depths that divide 2^32 (`CountIsDistance`, `ForwardedWhole`).
- A first descriptor shorter than the header, or an empty last one, makes a 32-bit length wrap around
  (`SplitKeepsBytes`). Only one of header and footer is ever split (`SplitIsolates`).
- Merging a run of descriptors of 2^32 bytes or more makes the length of the merged one wrap around (`MergedFlatten`).
- Adding a range that reaches into the last page of the address space never ends, and one that reaches the end of the
  address space or beyond adds nothing, because its bound wraps around (`AddsAllExactlyIfBelow`).
- A sorted report of such a range reports nothing, for the same reason (`ReportsAllExactlyIf`).
- The length of an indirect table is kept in 16 bits, so of a table of 4096 entries or more only a part may be collected,
  with one wrong entry at its end, of which a length that is no multiple of 16 also zeroes a part
  (`FetchedExactlyIfWhole`).
- A namespace number from the host is used as an index into a table of 33 places without a test (`LookupsInside`).
- Creating a submission queue clears only the first place of that table; that the others are empty is demanded of the
  command.
- A queue that lost commands can be restarted without harm only if those come after the completed ones (`Restart`).
- A queue that lost commands is suspended although a command waits for a buffer, and has an operation under way again when
  the buffer comes (`RestIsBrokenExactlyIf`).
- A state saved with more queues than the restoring controller has is written past its table (`WritesInsideExactlyIf`).
- The waiting form of quiesce does not notice that a pending reset has stopped the controller (`ProgressSuspend`,
  `Progress`).
- When the completion of an admin command cannot be sent, the command is taken out of the list of those in flight twice
  (`TakenOutExactlyIfSent`).
- A cyclic copy that does not reach the first end may still post one transfer more than it has pieces (`Plan`), and for
  counts well beyond a ring full its last transfer leaves the rings (`LastTransferInside`).
- Changing the weight of a ring does not look whether the ring is attached, nor at the credits, and neither attaching nor
  detaching looks whether a weight is left, without which the search for a ring never ends (`ReweighKeeps`,
  `AttachKeeps`, `DetachKeeps`).
- A failed host operation is never reported to the driver, because the same failed status reaches the completion handler
  (`FailedDmaIsFatal`).
- A resume asked for from outside while a quiesce is under way starts a quiesced controller (`ProgressSuspend`).
- The comparisons for having come back to the start in the probe loops never succeed, because some bucket is always empty.

## Model

| member | source | states |
|---|---|---|
| Probe.PosNext | src/khash.h:266-266 | the step taken by the probe loops leads from the s-th triangular position to the next one |
| Probe.PosDistinct | src/khash.h:263-267 | for a power-of-two table two different steps below the size never visit the same bucket |
| Probe.ProbeCovers | src/khash.h:263-267 | the first n steps from any hash visit every bucket, so every probe loop meets an empty bucket if there is one |
| Table.EmptyReached | src/khash.h:265-268 | as long as not all buckets are used, probing from any hash meets an empty bucket within n steps |
| Table.AbsentAtEmpty | src/khash.h:265-269 | an empty bucket met before the key proves that the key is not stored |
| Table.Inserted | src/khash.h:369-379 | writing an absent key to a free bucket on its probe path adds exactly that key and keeps every other key stored once and reachable |
| Table.Removed | src/khash.h:382-388 | a tombstone removes exactly one key and keeps all others reachable |
| Table.KeysCount | src/khash.h:372-386 | as many keys are stored as buckets are live |
| Table.UpperBelow | src/khash.h:333-333 | the load bound, for every size from 4 on, leaves an empty bucket, and leaves room for half a table and for a full table in one twice as large |
| Table.RoundUpNeighbours | src/khash.h:277-278 | one below a table size rounds up to that size, one above it to twice the size |
| FlagWords.ShowsFlag | src/khash.h:176-178 | the macros see the flag that the two bits stand for |
| FlagWords.MarkDeleted | src/khash.h:182-182 | on packed words that stand for the flags with never both bits of a bucket set, setting the deleted bit of a live bucket changes the flag of that bucket to deleted and no other, and never sets both bits |
| FlagWords.MarkUsed | src/khash.h:180-180 | so does clearing the empty bit of an empty bucket, which makes it live |
| FlagWords.ClearBoth | src/khash.h:181-181 | so does clearing both bits of any bucket, which makes it live |
| FlagWords.FilledIsEmpty | src/khash.h:283-283 | words filled with 0xaa stand for empty buckets, with never both bits set |
| FlagWords.RunStands | src/khash.h:176-184 | through every run of the changes that the table makes - deleting a live bucket, using an empty one, occupying any - the packed words stand for the flags |
| FlagWords.WordsSuffice | src/khash.h:184-184 | the number of words is enough for every table size |
| FlagWords.RoundUp32IsLeast | src/khash.h:187-187 | the shifts give the least power of two not below the request if and only if the request is from 1 to 2^31 |
| Rehash.MovingStarts | src/khash.h:298-300 | before the first move the shared key array, seen through old and new flags together, holds exactly the stored set |
| Rehash.Taken | src/khash.h:301-306 | marking an old bucket deleted takes exactly its key out of the set held by both layouts |
| Rehash.Moved | src/khash.h:307-322 | one round of the kick-out: the key in hand arrives in the new layout and the key it displaces, if any, comes into the hand; nothing else changes |
| Rehash.MovingEnds | src/khash.h:324-334 | when no old bucket is live the new layout alone holds the stored set, each key once and reachable by probing |
| Khash.HashSet.constructor | src/khash.h:228-230 | a new table is consistent and stores the empty set |
| Khash.HashSet.SizeIsCardinality | src/khash.h:337-388 | in every consistent table `size` is the cardinality of the stored set and some bucket is empty |
| Khash.HashSet.Lookup | src/khash.h:263-269 | the probe loop ends at the bucket of the key or at an empty bucket, having missed the key everywhere before |
| Khash.HashSet.Get | src/khash.h:255-271 | finds a bucket if and only if the key is in the stored set, and then that bucket holds it |
| Khash.HashSet.Del | src/khash.h:382-388 | removes exactly the key of a live bucket, and does nothing for any other bucket or for the end position |
| Khash.HashSet.FindEmpty | src/khash.h:308-311 | finds the first empty bucket of the new layout on the probe path |
| Khash.HashSet.KickRound | src/khash.h:307-322 | one round in place on the shared key array and both flag arrays |
| Khash.HashSet.KickOut | src/khash.h:307-322 | the kick-out process ends, and adds exactly the first key to what both layouts hold |
| Khash.HashSet.Rehashed | src/khash.h:298-324 | after the loop over all old buckets no old bucket is live and the held set is unchanged |
| Khash.HashSet.Relayout | src/khash.h:284-328 | growing, moving and shrinking together give a well-formed new layout with exactly the old set |
| Khash.HashSet.Resize | src/khash.h:272-336 | a resize never changes the stored set; it is refused exactly when the size is not below the bound of the requested table |
| Khash.HashSet.RequestAccepted | src/khash.h:340-347 | both requests that an insertion can make are accepted |
| Khash.HashSet.MakeRoom | src/khash.h:340-348 | afterwards there is room for one more used bucket, and the set is unchanged |
| Khash.HashSet.FindSlot | src/khash.h:352-368 | finds the bucket that holds the key; else, the key being absent, the last tombstone met, or the first empty bucket if there is none |
| Khash.HashSet.ProbeForPut | src/khash.h:353-362 | the probe loop of an insertion stops at the key or at an empty bucket and has noted the last tombstone on its way |
| Khash.HashSet.Write | src/khash.h:369-379 | adds the key; the result tells a fresh bucket from a tombstone |
| Khash.HashSet.Put | src/khash.h:337-381 | adds the key to the set, reports whether it was there, and returns its bucket |
| Khash.Run | src/khash.h:255-388 | for every sequence of put, get and delete from an empty table, what the caller sees is what a mathematical set would show |
| DirtyPages.PendingIsDirtySince | ctrl/snap_dp_map.c:58-185 | over any history of additions and reports, a page is pending if and only if it was dirtied after its last report |
| DirtyPages.AdditionEnds | ctrl/snap_dp_map.c:64-69 | the loop of an addition ends after some number of rounds if and only if it has nothing to do or its bound stays out of the last page of the 64-bit address space |
| DirtyPages.AddsAllExactlyIfBelow | ctrl/snap_dp_map.c:64-69 | for every 64-bit address and 32-bit length, the loop ends having visited exactly the pages of the range if and only if the range stays out of the last page of the address space |
| DirtyPages.LastPageNeverEnds | ctrl/snap_dp_map.c:64-65 | one byte at the beginning of the last page: the loop never ends |
| DirtyPages.WholeLastPageIsLost | ctrl/snap_dp_map.c:64-65 | the whole last page: the bound wraps around to 0, the loop ends at once and the page is lost |
| DirtyPages.LostExactlyIfNew | ctrl/snap_dp_map.c:64-65 | a map that an addition leaves as it was holds what it should if and only if no page of the range was new |
| DirtyPages.ReportsAllExactlyIf | ctrl/snap_dp_map.c:105-128 | with its end in 64 bits a report looks at the pages of its range if and only if the range ends inside the address space or has no pages; otherwise it looks at none |
| DirtyPages.RestOfMemoryIsPassedOver | ctrl/snap_dp_map.c:105-105 | everything from address 4096 on: the end wraps around to 0 and a pending page is passed over |
| DirtyPages.FoundIsInRange | ctrl/snap_dp_map.c:122-133 | going through the buckets finds every stored page of the range exactly once |
| DirtyPages.SortedAscends | ctrl/snap_dp_map.c:136-136 | sorting gives an ascending sequence |
| DirtyPages.SortedElems | ctrl/snap_dp_map.c:136-136 | sorting keeps the pages and keeps them distinct |
| DirtyPages.PrefixIsSmallest | ctrl/snap_dp_map.c:136-148 | the beginning of the sorted pages has no page left out that is smaller than one of its own |
| DirtyPages.DirtyMap.constructor | ctrl/snap_dp_map.c:35-50 | a new map has no pending pages |
| DirtyPages.DirtyMap.AddPages | ctrl/snap_dp_map.c:64-69 | the rounds of the loop add exactly the pages that overlap the range |
| DirtyPages.DirtyMap.PutRange | ctrl/snap_dp_map.c:64-69 | with the bound computed in 64 bits: the pages of the range are added, but none if the bound wraps around |
| DirtyPages.DirtyMap.AddRange | ctrl/snap_dp_map.c:58-74 | the map still holds exactly the pages dirtied since their last report, if the range ends inside the address space; if it does not, the map stays as it was |
| DirtyPages.DirtyMap.Drain | ctrl/snap_dp_map.c:172-181 | reports distinct stored pages and removes exactly those; a report that is not full leaves the map empty |
| DirtyPages.DirtyMap.Serialize | ctrl/snap_dp_map.c:164-185 | the same for the map with its history |
| DirtyPages.DirtyMap.CountInRange | ctrl/snap_dp_map.c:100-108 | counts the pages of the range |
| DirtyPages.DirtyMap.Collect | ctrl/snap_dp_map.c:122-133 | collects the pages of the range in bucket order |
| DirtyPages.DirtyMap.DeleteFirst | ctrl/snap_dp_map.c:137-141 | deletes exactly the first n of the pages |
| DirtyPages.DirtyMap.Select | ctrl/snap_dp_map.c:99-137 | the smallest pages of the range in ascending order, as many as fit |
| DirtyPages.DirtyMap.Report | ctrl/snap_dp_map.c:99-157 | the same for the pages up to a given end |
| DirtyPages.DirtyMap.SerializeSort | ctrl/snap_dp_map.c:89-157 | for a range that ends inside the address space: reports the smallest of its pages in ascending order up to the capacity and removes exactly those, and fails only for want of a temporary buffer, changing nothing; for any other range reports nothing |
| Descriptors.MergedFlatten | ctrl/snap_virtio_blk_virtq.c:439-454 | merging keeps the sequence of (byte address, direction) of the data if and only if every run of descriptors that continue each other has less than 2^32 bytes |
| Descriptors.ShortChainsFit | ctrl/snap_virtio_blk_virtq.c:439-454 | so every chain of less than 2^32 bytes keeps its bytes |
| Descriptors.LongRunLosesBytes | ctrl/snap_virtio_blk_virtq.c:444-445 | two descriptors of 2^31 bytes that continue each other become an empty one |
| Descriptors.MergedSettled | ctrl/snap_virtio_blk_virtq.c:439-454 | after merging no adjacent pair could be merged |
| Descriptors.MergedIdempotent | ctrl/snap_virtio_blk_virtq.c:439-454 | merging a second time changes nothing |
| Descriptors.MergeOne | ctrl/snap_virtio_blk_virtq.c:440-453 | one round of the merge loop, in place |
| Descriptors.MergeData | ctrl/snap_virtio_blk_virtq.c:439-454 | the merge loop in place: the data packed from index 1 on are the merged data |
| Descriptors.MergeSequential | ctrl/snap_virtio_blk_virtq.c:430-458 | merging in place: the chain becomes header, merged data, footer, and its length shrinks by exactly the number of merges |
| Descriptors.ShiftUp | ctrl/snap_virtio_blk_virtq.c:482-486 | moves address, length and flags up by one place, but not the `next` fields |
| Descriptors.SplitHeaderInPlace | ctrl/snap_virtio_blk_virtq.c:478-493 | splitting the header in place gives the chain of `SplitHeader` |
| Descriptors.SplitInPlace | ctrl/snap_virtio_blk_virtq.c:478-503 | splitting in place gives the chain of `Split`; only one of header and footer is split |
| Descriptors.SplitHeaderKeepsBytes | ctrl/snap_virtio_blk_virtq.c:487-489 | splitting the header keeps the bytes of the chain if and only if the first descriptor has at least 16 bytes |
| Descriptors.SplitFooterKeepsBytes | ctrl/snap_virtio_blk_virtq.c:494-502 | splitting the footer keeps the bytes of the chain if and only if the last descriptor is not empty |
| Descriptors.SplitKeepsBytes | ctrl/snap_virtio_blk_virtq.c:478-503 | splitting keeps the bytes of the chain if and only if the chain is splittable in this sense |
| Descriptors.ShortHeaderLosesBytes | ctrl/snap_virtio_blk_virtq.c:487-489 | a chain with a first descriptor of eight bytes for which splitting names other bytes |
| Descriptors.SplitIsolates | ctrl/snap_virtio_blk_virtq.c:478-503 | after splitting the header is always alone in its descriptor; the footer is if and only if the header needed no splitting or the footer was alone already |
| Descriptors.ProcessDescs | ctrl/snap_virtio_blk_virtq.c:469-508 | splitting and merging in place; the count of merges is set exactly when descriptors are merged and otherwise stays what it was |
| Descriptors.ProcessedIsFaithful | ctrl/snap_virtio_blk_virtq.c:469-508 | for every splittable chain the whole step keeps the bytes if and only if every run of its data has less than 2^32 bytes; it keeps header first and footer last, and leaves nothing to merge |
| Descriptors.MergedChainKeepsBytes | ctrl/snap_virtio_blk_virtq.c:430-458 | merging between header and footer keeps the bytes of the chain if and only if every run of the data has less than 2^32 bytes |
| Chains.ChainUnique | ctrl/virtq_common.c:809-823 | a chain is determined by its head |
| Chains.ChainDistinct | ctrl/virtq_common.c:816-820 | a chain that ends visits no entry twice |
| Chains.ChainFits | ctrl/virtq_common.c:226-232 | a chain is no longer than its table |
| Chains.ArrangeDescs | ctrl/virtq_common.c:809-823 | copies exactly the chain of the head, in order |
| Chains.SortedExactlyIfWhole | ctrl/virtq_common.c:226-234 | the sort gives the chain of the table if and only if the chain is not longer than the table is told to be, or has one entry more and that is what the entry at its place becomes when its first bytes are zeroed up to the length |
| Chains.PutBack | ctrl/virtq_common.c:234-234 | so many bytes are copied back as the length says: the sorted entries, zeros, and zeros at the beginning of an entry in which the length ends; nothing behind changes |
| Chains.ZeroFirstInMemory | ctrl/virtq_common.c:234-234 | of the descriptor in memory the first bytes are zero and the others as they were |
| Chains.SortIndirect | ctrl/virtq_common.c:215-237 | for a table that is told to have so many entries and bytes: puts its chain at its front, in order, or, if the chain is longer, a part of it and one wrong entry |
| Chains.Fetcher.constructor | ctrl/virtq_common.c:795-805 | whatever number of descriptors came inline, they are a beginning of the chain |
| Chains.Fetcher.ReadEntry | ctrl/virtq_common.c:239-277 | one more ring entry, the next of the chain, is read |
| Chains.Fetcher.ReadIndirect | ctrl/virtq_common.c:250-256 | the table of a trailing indirect descriptor is read over that descriptor, and its length is kept in 16 bits |
| Chains.Fetcher.FinishIndirect | ctrl/virtq_common.c:215-237 | when the table has arrived it is sorted by that length |
| Chains.Fetcher.FetchNext | ctrl/virtq_common.c:207-278 | one fetch step: either everything has been collected or one more read is under way |
| Chains.Fetcher.FetchAll | ctrl/virtq_common.c:207-278 | all fetch steps together collect the chain of the ring with the sorted table in the place of a trailing indirect descriptor, whatever part of it came inline |
| Chains.FetchedExactlyIfWhole | ctrl/virtq_common.c:214-256 | what is collected is the chain, a trailing indirect descriptor replaced by the chain of its table, if and only if that chain has at most as many entries as the length cut to 16 bits makes room for, or one more that happens to be what stands right behind them with its first bytes zeroed up to that length |
| Chains.ShortTablesAreWhole | ctrl/virtq_common.c:250-256 | so every table of fewer than 4096 entries is collected |
| Chains.LongTableIsCut | ctrl/virtq_common.c:217-234 | a table of 4096 entries with a chain of two: only the first is collected |
| Chains.HalfEntryIsZeroed | ctrl/virtq_common.c:217-234 | a table of 65560 bytes with a chain of two: both are counted, and the address of the second is zeroed |
| Chains.BothWays | ctrl/virtq_common.c:851-864 | inline descriptors plus one-by-one fetch and the copy from a whole table give the same array |
| BlkMachine.OnFetchDescs | ctrl/virtq_common.c:292-320 | each handler goes on only to a later state, and otherwise waits, loses the command or completes it once; without a failure the operations posted so far are those that its state and kind call for: descriptor fetch |
| BlkMachine.OnReadHeader | ctrl/snap_virtio_blk_virtq.c:576-602 | the same for reading the header |
| BlkMachine.OnParseHeader | ctrl/snap_virtio_blk_virtq.c:621-683 | the same for parsing the header, with its waits for host data and for the memory pool; the kind of the request is the one in the header |
| BlkMachine.OnReadData | ctrl/snap_virtio_blk_virtq.c:705-747 | the same for reading data |
| BlkMachine.OnHandleReq | ctrl/snap_virtio_blk_virtq.c:759-903 | the same for handing the request to the backend: what is posted is the operation of the kind of request |
| BlkMachine.OnWrite | ctrl/snap_virtio_blk_virtq.c:788-805 | a write makes the backend write, after its data was read |
| BlkMachine.OnRead | ctrl/snap_virtio_blk_virtq.c:806-825 | a read makes the backend read, and its data is still to be written back unless the backend does that |
| BlkMachine.OnFlush | ctrl/snap_virtio_blk_virtq.c:826-839 | a flush makes the backend flush |
| BlkMachine.OnGetId | ctrl/snap_virtio_blk_virtq.c:840-863 | a request for the name writes the name to the host |
| BlkMachine.OnOutDataDone | ctrl/virtq_common.c:327-335 | the same for the end of a backend write; a failure goes into the status byte |
| BlkMachine.OnInDataDone | ctrl/snap_virtio_blk_virtq.c:913-950 | the same for the end of a backend read |
| BlkMachine.OnWriteStatus | ctrl/virtq_common.c:417-452 | the same for writing the status |
| BlkMachine.OnSendComp | ctrl/virtq_common.c:520-565 | the same for sending the completion; with forced order a command out of turn stands in line |
| BlkMachine.Handle | ctrl/snap_virtio_blk_virtq.c:1070-1085 | the handler table keeps that promise for every state |
| BlkMachine.RunEnds | ctrl/virtq_common.c:171-188 | every run of the progress loop ends, in one of four ways: waiting, standing in line, lost, or completed exactly once, with a good status only if the backend executed the request and exactly the operations of its kind were made for it |
| BlkMachine.ReleaseRun | ctrl/virtq_common.c:576-597 | releasing takes the command out of the count |
| BlkMachine.FailedDmaIsFatal | ctrl/virtq_common.c:177-185 | a failed host operation, in any state that can have one, ends in the fatal state with nothing sent and the used counter unchanged |
| BlkRequest.RequestMeets | ctrl/snap_virtio_blk_virtq.c:576-950 | a command driven through all its handlers and callbacks has the outcome that can be read off the answers in one pass: lost, completed once with that status, or standing in line with it if order is forced and it is not its turn; for every kind of request and every answer |
| BlkRequest.HandlesIsRun | ctrl/virtq_common.c:171-188 | the handlers in between are those of the progress loop |
| VirtqState.NextIsOldest | ctrl/virtq_common.c:640-656 | with forced order the command whose 16-bit index is the next to complete is the oldest one, over unbounded runs and wrap-around |
| VirtqState.NotSentYet | ctrl/virtq_common.c:520-565 | with forced order a command under way is not older than those completed |
| VirtqState.RunKeeps | ctrl/virtq_common.c:171-188 | the run of a command after the end of its operation keeps all counters, the order and the once-only property of the queue |
| VirtqState.NextSlotIsFree | ctrl/virtq_common.c:790-791 | with forced order the slot of the next command is free |
| VirtqState.KeptAdmitted | ctrl/virtq_common.c:866-870 | accepting a command keeps the queue consistent |
| VirtqState.EveryRequestAccounted | ctrl/virtq_common.c:836-872 | every accepted command has been completed or is held by exactly one slot, never both |
| VirtqState.SuspendedIsComplete | ctrl/virtq_common.c:614-634 | a queue suspended without a fatal command has completed every accepted command once and has no host or backend operation left, and no command waiting for a buffer |
| VirtqState.RunSettles | ctrl/virtq_common.c:172-188 | a command that runs on waits at most for one more thing, so without arrivals the commands that wait become no more |
| VirtqState.RestIsBrokenExactlyIf | ctrl/virtq_common.h:375-378 | a queue at rest, with or without lost commands, can have an operation under way again if and only if a command waits for a buffer from the memory pool |
| VirtqState.RestingStillActs | ctrl/virtq_common.h:375-378 | a suspended queue with a lost command and one waiting for a buffer: when the buffer comes an operation on the host is under way |
| VirtqState.InOrderSlots | ctrl/virtq_common.c:790-794 | with forced order the commands under way are those after the completed ones, each in the slot of its own number |
| VirtqState.CompletedOnce | ctrl/virtq_common.c:544-562 | sending a completion keeps every command completed at most once |
| VirtqQueue.Virtq.constructor | ctrl/virtq_common.c:124-132 | a new queue starts with both indices at zero |
| VirtqQueue.Virtq.CmdProgress | ctrl/virtq_common.c:171-188 | the progress loop in place: handlers run until one waits, with the same status for all of them |
| VirtqQueue.Virtq.Receive | ctrl/virtq_common.c:783-807 | a command is taken if and only if the queue runs, and then runs in the slot of its number or of its first descriptor; a dropped one changes no counter and leaves only its number in the slot |
| VirtqQueue.Virtq.Admit | ctrl/virtq_common.c:866-870 | takes a command into its slot and runs it |
| VirtqQueue.Virtq.Drop | ctrl/virtq_common.c:845-849 | a drop while flushing changes no counter |
| VirtqQueue.Virtq.DmaDone | ctrl/snap_virtio_blk_virtq.c:121-138 | the end of a host operation; a failed one loses the command and sends nothing |
| VirtqQueue.Virtq.BdevDone | ctrl/snap_virtio_blk_virtq.c:346-361 | the end of a backend operation; a failure goes into the status byte and is reported |
| VirtqQueue.Virtq.MemReady | ctrl/snap_virtio_blk_virtq.c:604-611 | a buffer of the memory pool is ready |
| VirtqQueue.Virtq.CompleteNext | ctrl/virtq_common.c:646-652 | completes a command in line whose turn has come |
| VirtqQueue.Virtq.ProgressUnordered | ctrl/virtq_common.c:640-656 | afterwards no waiting command is at the head of the order |
| VirtqQueue.Virtq.Suspend | ctrl/virtq_common.c:736-756 | asks for suspension once |
| VirtqQueue.Virtq.CountersSay | ctrl/virtq_common.c:614-634 | the counters say that the queue may rest if and only if its slots do |
| VirtqQueue.Virtq.ProgressSuspend | ctrl/virtq_common.c:614-634 | a flushing queue is suspended if and only if no slot waits for the host or the backend, and none is busy unless a command was lost |
| VirtqQueue.Virtq.Progress | ctrl/virtq_common.c:667-703 | one progress call keeps the queue consistent, does nothing when suspended, and otherwise leaves no waiting command at the head of the order; from the flushing state it suspends the queue if and only if no slot waits for the host or the backend and none is busy unless a command was lost, so always if no slot was busy |
| VirtqQueue.Virtq.Restart | ctrl/virtq_common.c:114-132 | restart of any suspended queue from the used index of the host gives a consistent queue; requests keep numbers of their own, and none is lost or repeated, if and only if every request still held comes after the completed ones; always so with forced order or without lost commands |
| VirtqQueue.Virtq.HeldAfterSent | ctrl/virtq_common.c:114-132 | the completed requests are the first ones if and only if those still held come after them |
| VirtqQueue.Virtq.LostThenRepeated | ctrl/virtq_common.c:114-132 | a suspended queue of two slots without forced order, request 0 lost and request 1 completed, does not meet the condition: the next request handed over has the number of a completed one |
| CyclicCopy.RingIsRemainder | dpa/dpa_dma_utils.h:40-41 | the two-case form of an index is the remainder |
| CyclicCopy.CopiesEach | dpa/dpa_dma_utils.h:25-58 | what a cyclic copy means, element by element: (src+k) mod depth goes to (dst+k) mod depth for each k, everything else stays |
| CyclicCopy.Plan | dpa/dpa_dma_utils.h:31-57 | the transfers stay inside both buffers, continue each other and move the count in all; their number is the pieces needed, plus one when the second test fires without the first |
| CyclicCopy.Write | dpa/dpa_dma_utils.h:54-55 | one transfer |
| CyclicCopy.LastTransferInside | dpa/dpa_dma_utils.h:29-55 | the transfers stay inside both rings if and only if the count is at most a ring full and the elements up to the first end of a ring |
| CyclicCopy.CyclicWrite | dpa/dpa_dma_utils.h:25-58 | for all indices and every count for which the transfers stay inside the rings, also beyond a ring full, the effect is the cyclic copy, by at most three transfers |
| RoundRobin.NextRing | dpa/dpa_nvme_mp.c:118-120 | finds the next ring with a weight, going around |
| RoundRobin.SearchNeedsWeight | dpa/dpa_nvme_mp.c:118-120 | the search meets a ring with a weight at some step if and only if there is one |
| RoundRobin.TakeTurn | dpa/dpa_nvme_mp.c:141-147 | from every state with a weighted ring, whatever its credits, the choice of a ring is one step of the round robin |
| RoundRobin.SentMark | dpa/dpa_nvme_mp.c:141-147 | each send uses the ring that the weighted round has at the place of the state, and moves to the next place |
| RoundRobin.WindowIsRotatedRound | dpa/dpa_nvme_mp.c:115-147 | a window of as many sends as the weights add up to uses a whole round, rotated to the place of the state |
| RoundRobin.AnyWindowIsFair | dpa/dpa_nvme_mp.c:115-147 | in every such window every ring is used exactly as often as its weight, if the active ring has no more credits than its weight |
| RoundRobin.FairExactlyIfProper | dpa/dpa_nvme_mp.c:115-147 | the next window is fair if and only if the active ring has no more credits than its weight, or is the only one with a weight |
| RoundRobin.FairInTheEnd | dpa/dpa_nvme_mp.c:115-147 | from every state, windows are fair once the credits at hand are used up |
| NvmeRings.AttachKeeps | dpa/dpa_nvme_mp.c:263-278 | with a new ring the active index points at an attached ring, only attached rings have a weight and some ring has one, if and only if the ring or another one has a weight; and then the namespace is fair |
| NvmeRings.DetachKeeps | dpa/dpa_nvme_mp.c:297-313 | without a ring all that stays true if and only if another ring has a weight or none is attached; and a fair namespace stays fair |
| NvmeRings.ReweighKeeps | dpa/dpa_nvme_mp.c:329-337 | with another weight it stays true if and only if the ring is attached or gets no weight, and some weight is left; it stays fair if and only if also the active ring keeps at least its credits as weight |
| NvmeRings.FirstAttached | dpa/dpa_nvme_mp.c:301-309 | finds the first attached ring |
| NvmeRings.Detach | dpa/dpa_nvme_mp.c:299-313 | the active index points at the first attached ring if its ring was taken, or is the invalid marker if none is left |
| Batches.CountIsDistance | dpa/dpa_nvme_mp.c:149-149 | the 32-bit count is the cyclic distance if and only if the sub-batch does not wrap or the depth divides 2^32 |
| Batches.WrappedCountFails | dpa/dpa_nvme_mp.c:149-149 | a ring of three slots in which a wrapped sub-batch of two entries gets the count 0 |
| Batches.ReadCountIsDistance | dpa/dpa_nvme_mp.c:604-604 | the number of entries read is the cyclic distance if and only if nothing wraps or the depth divides 2^64 |
| Batches.SplitUnique | dpa/dpa_nvme_mp.c:174-184 | the split of a batch into longest runs of one namespace is unique |
| Batches.CopyAppends | dpa/dpa_nvme_mp.c:150-153 | a copy to the tail of a ring appends the copied entries to its history, in consecutive slots |
| NvmeSubmit.ForwardedWhole | dpa/dpa_nvme_mp.c:149-152 | a forwarded sub-batch arrives whole if and only if it does not wrap or the depth divides 2^32 |
| NvmeSubmit.ServedOk | dpa/dpa_nvme_mp.c:141-153 | a send appends its entries to the history of one ring and keeps all others, and goes to the ring whose turn it is |
| NvmeSubmit.ServedSound | dpa/dpa_nvme_mp.c:141-153 | a send goes to an attached ring |
| NvmeSubmit.CommandOk | dpa/dpa_nvme_mp.c:253-339 | a command leaves histories, turns and rings of a namespace in order if and only if it leaves it sound |
| NvmeSubmit.LastWindowFair | dpa/dpa_nvme_mp.c:141-147 | in every state of the queue, the last sends of a namespace, as many as its weights add up to, used each ring exactly as often as its weight, if it was fair when its rings last changed or has since used up the credits it had then |
| NvmeSubmit.LookupsInside | dpa/dpa_nvme_mp.c:130-130 | every lookup that the sub-batches of a batch make stays inside the table of namespaces if and only if every entry names a namespace of at most 32 |
| NvmeSubmit.LookupOutside | dpa/dpa_nvme_mp.c:130-130 | one entry for namespace 33: its lookup is outside the table |
| NvmeSubmit.Submission.constructor | dpa/dpa_nvme_mp.c:341-359 | a new queue has no namespaces, if the table that comes with the command has none but perhaps the first |
| NvmeSubmit.Submission.Attach | dpa/dpa_nvme_mp.c:253-281 | attaching a ring makes the namespace if need be; everything stays in order if and only if a weight is left, and then the namespace is fair |
| NvmeSubmit.Submission.Detach | dpa/dpa_nvme_mp.c:283-319 | detaching a ring: everything stays in order if and only if another ring has a weight or none is attached |
| NvmeSubmit.Submission.Modify | dpa/dpa_nvme_mp.c:320-339 | giving a ring another weight: everything stays in order if and only if the namespace stays sound |
| NvmeSubmit.Submission.ReadEntries | dpa/dpa_nvme_mp.c:592-609 | the new entries of the host's ring, wrapped or not, join what has been read and not yet sent, if nothing wraps or the depth divides 2^64 |
| NvmeSubmit.Submission.Reject | dpa/dpa_nvme_mp.c:135-139 | answers every entry of the sub-batch with one error, in order |
| NvmeSubmit.Submission.Forward | dpa/dpa_nvme_mp.c:141-153 | sends the sub-batch to the ring whose turn it is |
| NvmeSubmit.Submission.Send | dpa/dpa_nvme_mp.c:125-165 | the sub-batch is rejected if and only if its namespace, of at most 32, does not exist or has no ring |
| NvmeSubmit.Submission.HandleBatch | dpa/dpa_nvme_mp.c:167-188 | every non-empty batch for namespaces of at most 32, wrapped or not, is split into its runs of one namespace, and each entry is forwarded or answered with an error exactly once, in order |
| NvmeCompletions.LapIsQuotient | dpa/dpa_nvme_mp.c:98-99 | the lap is the quotient by the depth |
| NvmeCompletions.PhaseAlternates | dpa/dpa_nvme_mp.c:98-99 | when a slot is used again its phase is the opposite |
| NvmeCompletions.PhaseShows | dpa/dpa_nvme_mp.c:93-93 | an entry shows the right phase if and only if the message has status bit 0 clear or the phase is 1 |
| NvmeCompletions.EntryTells | dpa/dpa_nvme_mp.c:75-94 | the t-th entry has the result, the command number and the status of its message, the head (t+1) mod the depth of the submission queue, its number, and phase (t/depth + 1) mod 2 if status bit 0 is clear |
| NvmeCompletions.InvalidNamespaceShowsWrongPhase | dpa/dpa_nvme_mp.c:38-41 | the status code for an unknown namespace is odd and spoils the phase |
| NvmeCompletions.BelievedFreeIsExpression | dpa/dpa_nvme_mp.c:554-554 | the case form of the free-slot count equals the expression in C arithmetic: operands promoted to int, remainder with the sign of the dividend, result cut to 16 bits |
| NvmeCompletions.BeliefIsRight | dpa/dpa_nvme_mp.c:554-554 | that count is the number of free slots if and only if the head is beyond the tail or the ring is full at the wrap-around |
| NvmeCompletions.EmptyRingOverrun | dpa/dpa_nvme_mp.c:553-563 | an empty ring of four slots into which four entries are taken |
| NvmeCompletions.NoOverrunExactlyIfSafe | dpa/dpa_nvme_mp.c:546-580 | produced minus consumed stays below the depth for every load of the polled queues if and only if the head is beyond the tail, or at least 64, or the ring is full at the wrap-around |
| NvmeCompletions.PolledAllFits | dpa/dpa_nvme_mp.c:579-580 | from such a position the entries of all queues fit |
| NvmeCompletions.UnsafeOverruns | dpa/dpa_nvme_mp.c:579-580 | from any other position some load overruns the ring |
| NvmeCompletions.RecentGrows | dpa/dpa_nvme_mp.c:96-99 | writing the next entry keeps those of the last ringful in place |
| NvmeCompletions.RecentPushed | dpa/dpa_nvme_mp.c:582-588 | a push of the entries made since the last one leaves the last ringful in place in the host ring |
| NvmeCompletions.TakenCount | dpa/dpa_nvme_mp.c:579-580 | as many messages are taken as the counts add up to |
| NvmeCompletions.CompletionQueue.constructor | dpa/dpa_nvme_mp.c:229-251 | a new queue starts in slot 0 with phase 1 |
| NvmeCompletions.CompletionQueue.Handle | dpa/dpa_nvme_mp.c:75-100 | the t-th entry goes to slot t mod depth and tells of its message field by field, with phase (t/depth + 1) mod 2 |
| NvmeCompletions.CompletionQueue.HostSees | dpa/dpa_nvme_mp.c:75-100 | every entry of the last ringful tells the host, field by field, of its own message, in slot t mod depth |
| NvmeCompletions.CompletionQueue.Poll | dpa/dpa_nvme_mp.c:546-565 | takes messages of one queue 64 at a time, in order |
| NvmeCompletions.CompletionQueue.PollAll | dpa/dpa_nvme_mp.c:578-580 | takes the messages of all queues in turn |
| NvmeCompletions.CompletionQueue.HandleCompletions | dpa/dpa_nvme_mp.c:567-589 | a round of completions: entries fit from a safe position, and a host ring that held the last ringful of entries holds it again after the push |
| Controller.Ctrl.constructor | ctrl/snap_virtio_common_ctrl.h:116-121 | a new controller is stopped and has no queues |
| Controller.StatusBits | ctrl/snap_virtio_common_ctrl.c:339-347 | DRIVER_OK and DEVICE_NEEDS_RESET as bits of the register |
| Controller.Ctrl.Suspend | ctrl/snap_virtio_common_ctrl.c:726-755 | asks every queue to finish; only a started controller is suspended |
| Controller.Ctrl.Resume | ctrl/snap_virtio_common_ctrl.c:772-828 | resumes the queues in turn up to the first that fails; if none fails every queue and every placeholder is a queue in service; a controller with no queue stays suspended |
| Controller.FailedResumeCanBeRepeated | ctrl/snap_virtio_common_ctrl.c:801-810 | a queue whose resume failed is not in service unless it already was, and a resume that works brings it to service later |
| Controller.Ctrl.ServingAgain | ctrl/snap_virtio_common_ctrl.c:801-810 | queues resumed without a failure are all in service, placeholders included |
| Controller.Ctrl.Stop | ctrl/snap_virtio_common_ctrl.c:635-659 | destroys all queues; the state stays if the application refuses |
| Controller.Ctrl.MakeQueues | ctrl/snap_virtio_common_ctrl.c:573-588 | makes the enabled queues, or placeholders while suspended; at the first that fails it destroys those before it and leaves those after it |
| Controller.Ctrl.CleanUp | ctrl/snap_virtio_common_ctrl.c:607-610 | destroys the queues of a failed start and leaves their places taken |
| Controller.Ctrl.Start | ctrl/snap_virtio_common_ctrl.c:554-617 | starts a stopped controller and ends a migration, or gives a suspended one placeholders, if and only if all enabled queues are created and the application agrees |
| Controller.Ctrl.Reset | ctrl/snap_virtio_common_ctrl.c:368-388 | stops the controller and clears the reset bit |
| Controller.Ctrl.EndSuspend | ctrl/snap_virtio_common_ctrl.c:882-898 | at the end of a suspend a pending reset stops the controller, a waiting quiesce is answered, and a pending resume resumes every queue |
| Controller.Ctrl.ProgressSuspend | ctrl/snap_virtio_common_ctrl.c:864-900 | an OK answer to quiesce is given only with every queue at rest; after it the controller is stopped or suspended if and only if no resume was waiting that brings it back to service; it is found suspended if and only if neither that nor a pending reset has changed it |
| Controller.Ctrl.FunctionReset | ctrl/snap_virtio_common_ctrl.c:396-474 | a function-level reset asks every queue of a started controller to finish, stops one that is suspended, and only then ends a migration |
| Controller.Ctrl.DriverReset | ctrl/snap_virtio_common_ctrl.c:476-498 | a driver reset stops the controller now, with all queues gone, or asks every queue to finish and stays pending |
| Controller.Ctrl.DriverReady | ctrl/snap_virtio_common_ctrl.c:506-534 | a ready driver starts a stopped controller if and only if validation, creation and start succeed, and exactly the enabled places then have queues in service |
| Controller.Ctrl.ChangeStatus | ctrl/snap_virtio_common_ctrl.c:392-539 | the outcome for each case of the registers - function reset, driver reset with and without DRIVER_OK, DRIVER_OK alone, neither: controller and migration state, each queue, and whether a reset is pending |
| Controller.Ctrl.PollBar | ctrl/snap_virtio_common_ctrl.c:970-977 | the registers are read, and obeyed if and only if they changed, ask for a reset or show a function reset |
| Controller.Ctrl.PolledSays | ctrl/snap_virtio_common_ctrl.c:506-534 | obeying the registers never freezes; a stopped controller that sees nothing but a ready driver is started if and only if validation, start and creation succeed, and then exactly the enabled places have queues, in service |
| Controller.Ctrl.Progress | ctrl/snap_virtio_common_ctrl.c:950-986 | every step keeps the invariant and has the outcome that the registers call for; a live driver takes a stopped controller to started if and only if validation, start and creation succeed; a controller that a pending reset stops is not found suspended afterwards |
| Controller.Ctrl.QuiesceCommand | ctrl/snap_virtio_common_ctrl.c:2014-2055 | waits for the suspend, with every queue asked to finish, if and only if the controller is started or suspending and not yet in migration; otherwise answers at once, with OK only for a stopped one; the invariant is kept if and only if no resume is waiting |
| Controller.Ctrl.Quiesce | ctrl/snap_virtio_common_ctrl.c:2058-2076 | the waiting form of quiesce, first part: it fails, is done at once, or waits to find the controller suspended |
| Controller.Ctrl.QuiesceFound | ctrl/snap_virtio_common_ctrl.c:2078-2091 | the waiting form of quiesce, second part |
| Controller.Ctrl.Unquiesce | ctrl/snap_virtio_common_ctrl.c:2093-2115 | succeeds if and only if the controller is quiesced and every queue can be resumed; then every queue and placeholder is in service and the migration ends; on failure the migration state stays |
| Controller.Ctrl.Freeze | ctrl/snap_virtio_common_ctrl.c:2117-2143 | freezes only a quiesced controller |
| Controller.Ctrl.Unfreeze | ctrl/snap_virtio_common_ctrl.c:2145-2162 | goes back to quiesced |
| Controller.Ctrl.ModifyStatus | ctrl/snap_virtio_blk_ctrl.c:794-838 | an OK answer to a migration command means that the controller is in the state asked for, and is given if and only if the state it was in allows it; freezed is reached only from quiesced |
| Controller.Ctrl.Restored | ctrl/snap_virtio_common_ctrl.c:1857-1968 | only a stopped or suspended controller takes a state; a live one ends suspended with placeholders, exactly for the enabled queues; registers, state and queues for each outcome |
| Controller.Ctrl.AskResume | ctrl/snap_virtio_common_ctrl.c:772-784 | a resume from outside keeps the invariant if no quiesce is under way or done |
| Controller.Ctrl.Step | ctrl/snap_virtio_common_ctrl.c:950-986 | each step - queue activity, progress, quiesce, freeze, unfreeze, unquiesce, restore, resume from outside - keeps the invariant, and the freezed state is entered only from quiesced; the queues of a quiesced controller stay quiet |
| Controller.Ctrl.Run | ctrl/snap_virtio_common_ctrl.c:392-539 | in every run of such steps quiesced or freezed implies stopped or suspended; without an unquiesce attempt every queue of a quiesced controller, lost commands or not, is at rest, with no operation under way if no command waited for a buffer when it came to rest, and otherwise with no more than did |
| ControllerQueues.WithoutLossNoneWaited | ctrl/virtq_common.c:614-634 | a block queue that came to rest without a lost command has no command waiting for anything |
| ControllerQueues.BlockStep | ctrl/virtq_common.c:614-703 | every arrival, end of an operation, coming of a buffer, progress call and request to suspend changes a block queue in a way that the controller reckons with: it never goes back towards service, comes to rest with no operation under way, and at rest gets no more to do |
| ControllerQueues.BlockSuspend | ctrl/snap_virtio_common_ctrl.c:745-750 | a block queue asked to suspend is what the controller takes it for |
| ControllerQueues.BlockRestart | ctrl/snap_virtio_common_ctrl.c:801-810 | so is one created anew, also after lost commands, and every later step is again one that the controller reckons with |
| ControllerQueues.AdminStep | ctrl/snap_vq.c:163-285 | every step of an admin queue is one that the controller reckons with |
| ControllerQueues.AdminSuspend | ctrl/snap_vq.c:647-650 | an admin queue that is suspended is what the controller takes it for |
| ControllerQueues.AdminResume | ctrl/snap_vq.c:674-677 | so is one that is resumed |
| Records.NumberOfLe | ctrl/snap_virtio_state.h:31-35 | a little-endian number is read back if and only if it fits |
| Records.MemberOfPacked | ctrl/snap_virtio_state.h:52-81 | every member of a packed record is read back as written |
| StateFormat.Sizes | ctrl/snap_virtio_state.h:52-81 | the records have 32, 38 and 6 bytes |
| StateFormat.FieldReadBack | ctrl/snap_virtio_state.h:31-50 | type, length and data of a field are read back as written |
| StateFormat.OrderDoesNotMatter | ctrl/snap_virtio_common_ctrl.c:1874-1905 | what restore finds does not depend on the order of the fields nor on fields of unknown types |
| StateFormat.RestoreUndoesSave | ctrl/snap_virtio_common_ctrl.c:1874-1947 | for every number of queues and every pattern of enabled ones the registers, queue configurations, device state and saved progress come back; progress not saved is zero |
| StateFormat.BytesWritten | ctrl/snap_virtio_common_ctrl.c:1245-1271 | the bytes written are the reported size less 14 for every queue whose progress is not saved |
| StateBuffer.NextField | ctrl/snap_virtio_state.h:47-50 | the step to the next field, read from the buffer, leads to where it starts |
| StateBuffer.PutField | ctrl/snap_virtio_common_ctrl.c:1552-1618 | a field written after the others keeps them, and touches no byte behind it |
| StateBuffer.SaveQueue | ctrl/snap_virtio_common_ctrl.c:1631-1650 | one queue: configuration, and progress if it is enabled and has any |
| StateBuffer.SaveQueues | ctrl/snap_virtio_common_ctrl.c:1620-1655 | all queues; fails if and only if the progress of some queue cannot be read, and then only the common field is counted |
| StateBuffer.Rewalk | ctrl/snap_virtio_common_ctrl.c:1683-1684 | walking over the returned number of fields lands on the last queue field |
| StateBuffer.SaveDevice | ctrl/snap_virtio_common_ctrl.c:1686-1695 | the field of the device comes last, and is counted only if the device gave its state |
| StateBuffer.Save | ctrl/snap_virtio_common_ctrl.c:1657-1699 | saves exactly the fields of the state and touches nothing behind them; fails if and only if the buffer is shorter than reported, a progress cannot be read, or the device does not give its own state; in a buffer that is long enough the count is always that of the fields held: all, all but that of the device, or the common one alone |
| StateBuffer.Gather | ctrl/snap_virtio_common_ctrl.c:1877-1904 | takes in one field |
| StateBuffer.Restore | ctrl/snap_virtio_common_ctrl.c:1833-1968 | for complete records of queues that the controller has: accepts if and only if a common and a device field are found and the device takes a state; what is restored is what the fields say last |
| StateBuffer.WritesInsideExactlyIf | ctrl/snap_virtio_common_ctrl.c:1883-1899 | what restoring a saved state writes stays inside the table of queues if and only if the controller has at least as many queues as were saved |
| StateBuffer.WritesBeyond | ctrl/snap_virtio_common_ctrl.c:1883-1886 | with fewer queues, the record of the first queue too many is written past the table |
| StateBuffer.SaveThenRestore | ctrl/snap_virtio_common_ctrl.c:1657-1968 | restore after save, on a controller with as many queues or more, succeeds if and only if the device has a state of its own, and then gives the state back, with further queues zero |
| AdminQueue.StartKeeps | ctrl/snap_vq.c:163-184 | a command start keeps every slot, descriptor and arrival in exactly one place, and as many commands and descriptors free as are not in use |
| AdminQueue.StartEarned | ctrl/snap_vq.c:163-184 | a started command does not count as ended |
| AdminQueue.FetchKeeps | ctrl/snap_vq.c:66-75 | so does taking one more descriptor |
| AdminQueue.FinishKeeps | ctrl/snap_vq.c:267-276 | the end of a command keeps every slot, descriptor and arrival in one place, and a command waits for earlier ones only if it has ended |
| AdminQueue.CompleteKeeps | ctrl/snap_vq.c:238-251 | so does a completion, in order only of the oldest command |
| AdminQueue.FailKeeps | ctrl/snap_vq.c:278-285 | so does a fatal command |
| AdminQueue.TakenOutExactlyIfSent | ctrl/snap_vq.c:245-250 | when a command is taken out of those in flight at its end, it is among them if and only if its completion could be sent |
| AdminQueue.CompletionsAreArrivals | ctrl/snap_vq.c:253-276 | in order, the completions are exactly the arrivals without the fatal commands and those in flight |
| AdminQueue.Queue.constructor | ctrl/snap_vq.c:354-396 | all commands and descriptors are free at first |
| AdminQueue.Queue.CmdStart | ctrl/snap_vq.c:163-184 | takes a free command and its descriptors, which are there if and only if what is in use leaves room for them; no command ends by it |
| AdminQueue.Queue.FetchNextDesc | ctrl/snap_vq.c:100-117 | takes one more descriptor, which is there if and only if not all are in use |
| AdminQueue.Queue.CmdFatal | ctrl/snap_vq.c:278-285 | moves a command to the fatal ones, with its descriptors |
| AdminQueue.Queue.CleanUp | ctrl/snap_vq.c:130-134 | puts the descriptors of a command back |
| AdminQueue.Queue.CompleteExecute | ctrl/snap_vq.c:238-251 | completes a command and frees it |
| AdminQueue.Queue.Flush | ctrl/snap_vq.c:253-265 | completes exactly the waiting commands at the end of the list, oldest first |
| AdminQueue.Queue.CmdComplete | ctrl/snap_vq.c:267-276 | the set of ended commands grows by exactly this one; in order it waits until all earlier ones have ended, and every completed command has ended |
| AdminQueue.Queue.Progress | ctrl/snap_vq.c:691-704 | a flushing queue is suspended once nothing is in flight |
| ScatterGather.TotalLen | ctrl/snap_vq_adm.c:77-87 | the lengths added up |
| ScatterGather.SkipTo | ctrl/snap_vq_adm.c:114-119 | finds the descriptor of an offset, empty descriptors passed over |
| ScatterGather.ReadDescs | ctrl/snap_vq.c:186-236 | the bytes of the chain arrive in order, one transfer per descriptor, also for empty ones, each inside its descriptor; the pending count grows by the transfers posted, and by one more for a failed post |
| ScatterGather.LayoutRead | ctrl/snap_vq_adm.c:107-123 | reading at an offset moves exactly the bytes from there on, up to the length or the end of the chain |
| ScatterGather.WriteDescs | ctrl/snap_vq.c:186-236 | the same in the other direction: the bytes arrive at the addresses of the chain, no other address changes, and the reported length grows by the bytes moved |
| ScatterGather.LayoutWrite | ctrl/snap_vq_adm.c:142-159 | writing starts at the first writable descriptor; bytes, reported length, transfers and pending count as for the loop |

## Left out

- Khash.HashSet.Put: works on a flag for each bucket; that packed words stand for such flags through every run of changes is shown separately in `FlagWords.RunStands`.
- Failing allocation in the hash table, and bucket counts that overflow 32 bits.
- DirtyPages.DirtyMap.AddRange: ranges that reach into the last page of the address space but not to its end are shut out, because the loop does not end for them.
- Khash.HashSet.Resize: the key array is grown and cut as a fresh array, where the source may keep it in place.
- The push bitmap of dirty pages: its lengths have no clean specification.
- Byte totals, statistics, and the count of backend commands not yet completed.
- BlkRequest.RequestMeets: begins when the last descriptor of the request is there; each read of a descriptor before that leaves the command and the queue as they were or loses the command (`DescriptorRead`).
- BlkMachine.OnInDataDone: when a later part of a write-back cannot be posted, the earlier parts stay in flight while the command goes on to its completion, and their ends count for the next command in the slot; the model excludes that such ends arrive.
- BlkMachine.Handle: handlers are functions on values; aliasing between a command and its queue is not modelled.
- VirtqState.SuspendedIsComplete: says nothing about the completions of queues with a fatal command; what they may still do is `VirtqState.RestIsBrokenExactlyIf`.
- A read command without data descriptors waits for ever; there are no liveness claims.
- Chains.Fetcher.FetchNext: cycles in chains are excluded; the source follows them without end.
- NvmeCompletions.CompletionQueue.HandleCompletions: a push that would leave the rings, or of 2^16 entries and more, is excluded; error entries are made in the shadow ring but not pushed by the code that makes them.
- NvmeSubmit.Submission.HandleBatch: an empty batch is excluded, for which the code reads an uninitialised namespace; so is a namespace number above 32, for which it reads past its table.
- NvmeSubmit.Submission.Attach: namespace numbers above 32 and queue pairs beyond the count are excluded; the code uses both as indices without a test.
- NvmeSubmit.Submission.Detach: the same, and a namespace that does not exist, which the code dereferences.
- NvmeSubmit.Submission.Modify: the same as for `Detach`.
- NvmeSubmit.Submission.constructor: tables of namespaces with a later place taken are excluded.
- NvmeSubmit.Submission.Forward: the cyclic copy is taken by its effect, which `CyclicCopy.CyclicWrite` establishes; messages to the ARM side are not modelled.
- The admin submission queue of the DPA, which sends everything as namespace 0, is an easy case of the above.
- Controller.Ctrl.DriverReady: the progress call made after clearing the reset bit of a transitional device, for which the lock is given up, is a step of its own in a run; virtual function counts are not modelled.
- Controller.Ctrl.Suspend: for device types without a suspend operation the code pretends; claims about queues at rest are made only for types with one.
- Places of destroyed queues after a failed start are marked, and whatever is read of such a queue is left open.
- Poll groups, locks and threads: locked regions are single steps.
- StateBuffer.Restore: demands a buffer that holds its fields whole, with records that are complete and name existing queues, which the code takes for granted (`WritesInsideExactlyIf` says when saved states do); the older state format is not modelled.
- AdminQueue.Queue.CmdStart: an exhausted pool of commands or descriptors is excluded, for which the code does not test.
- AdminQueue.Queue.FetchNextDesc: an exhausted pool of descriptors is excluded.
- AdminQueue.Queue.CompleteExecute: only for completions that are sent; after a failed send the code unlinks the command twice, which is not an operation on lists.
- ScatterGather.LayoutWrite: the content of host memory is claimed only for descriptors that do not overlap.
- Other admin command layouts and status tables are plain switches.
- Net and file-system controllers, firmware command building and device enumeration.
