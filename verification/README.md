# Storage data paths: a verified model

A Dafny model of the state machines and data paths in this collection of storage code, with
proofs of what they are meant to guarantee. `dafny verify dfyconfig.toml` checks all of it. Each proof
is meant to stay well inside `--resource-limit 2000000 --verification-time-limit 0`, the flags to use on a
machine too slow for the default limit of 30 seconds.

| part of the system | files |
|---|---|
| lock-free ring between one producer and one consumer | `SpscIndex`, `SpscQueue` (operations and the class), `SpscMachine` (all interleavings) |
| FUSE requests and interrupts | `InterruptProtocol` (all interleavings, with locks), `InterruptQueue`, `InterruptRuns` (the queue along runs), `InterruptStarvation`, `InterruptCalls` (which callback runs, and how often), `InterruptProgress` (who takes how many steps), `CircularList`, `FuseSession` (the lists in memory) |
| NVMe data path | `NvmeMemory` (segments, iterator), `NvmeDevice` (splitting, aligned reads), `NvmeQueue` (a batch, all interleavings), `NvmeDriver` (the loops), `Multiples` |
| copying FUSE buffer vectors | `FuseBuf` |
| passthrough file system | `Dirents`, `Readdir` (directory listing), `InodeTable`, `LoInodes` (inode list) |
| Ceph messenger | `WorkerPool` (queue strategy), `SpuriousWakeups`, `DispatchQueue`, `DispatchAccounts`, `DispatchRuns` |
| Ceph OSD map reservations | `MapReservations` |
| network addresses on the wire | `AddrCodec`, `AddrObjects`, `Wire` |
| one-pass variance | `Variance` |

Where the code is concurrent, the model is a step relation in which every atomic access, or every
stretch of code under a lock, is one step and any number of threads interleave; the theorems hold
in every reachable state. A step that would touch memory it must not, or trip an assertion, leaves
an arbitrary state behind, so that safety is proved and not assumed. Beside the machines stand
classes with the source's own fields, whose methods are proved against the functions the machines
use. What the operating system, the device or another thread may do is a nondeterministic choice.

Findings, each with its exact condition among the rows below:

* An interrupt queued at position p need not be dealt with within p + 1 requests: requests that match
  an interrupt queued behind it overtake it (`RetiredInTimeIff`, and for every run of the protocol
  `DealtWithInTimeIff`). It can stay at the head of the queue for ever: `HeadStarves` is a run in which it
  does, for any number of requests with different numbers.
* The scatter-gather iterator, reset to the very end of a task, hands out the last partial segment again
  (`IteratorHandsOutTheRest`).
* When the last command of a batch is a write, the completion callback runs before the buffers of that
  command are back in the pool (`BuffersAtTheCallback`). The context, which the callback may destroy, is used
  after it: always once, by the test that ends the handler's loop, and once more, by `release_segs`, if and
  only if the last command to complete is a write (`AioHandle`; `OneWrite` is the shortest such batch).
* `fuse_buf_copy` leaves the destination cursor behind if and only if the copy uses the source up, which is
  when the source holds something, no more than the destination takes, and does not end in an empty buffer;
  it lags by the last stretch of bytes that lies in one buffer on both sides (`FuseBufCopy`, `LastRound`,
  `TenIntoTwenty`).
* The reply to a readdir request is empty if and only if the directory is at its end or the buffer is too
  small for the next entry, which a reader cannot tell apart (`EmptyAnswerIff`); a listing stops short if and
  only if a request found no room for its next entry or there were too few requests (`ChainListsInOrder`).
* The worker pool relies on condition variables that do not wake spuriously. A thread that wakes without a
  signal stays on the list of waiters until a queued message or the stop takes it off; the list is corrupted
  if and only if such a thread, before that, looks at an empty queue that has not been stopped
  (`SafeIffNoneInVain`, over histories with any number of such wakeups). A queued message only puts that off
  (`MessageOnlyPutsItOff`), and a message that finds such a thread first on the list wakes nobody
  (`DispatchWakesIff`).
* A message queued when every worker has decided to exit stays queued (`DrainedIffAttended`,
  `LateMessagesStay`); `UnattendedAfterStop` reaches that state with any number of workers.
* After `stop`, the dispatch thread drops messages without giving their bytes back to the throttle
  (`ThrottleIsEmptyUnlessDropped`); `BytesOfTheDropped` is a run after which it keeps any number of them.
* The release of the last older OSD map wakes one waiter only (`LastReleaseWakesOne`), and a run reaches a
  state in which a second one is left asleep (`SecondWaiterOversleeps`).
* Decoding an address leaves what the wire does not carry as the target had it (`SameAddressIff`).
* The reader of address vectors copies as many bytes as the wire announces into the 28 bytes of an address.
  `Err(Overrun)` stands for that copy going beyond the address: it is not an error the code reports, and
  what happens then is undefined. It happens if and only if more than 28 bytes are announced and more than 28
  are left, also when these are too few and the copy ends by throwing (`VectorOverrunIff`,
  `OverlongAddress`). The reader of single addresses never does it (`DecodeStaysInside`), and the two agree
  exactly where `TrustIsHarmlessIff` says.

## Model

| member | source | states |
|---|---|---|
| SpscIndex.NextIndex | Ceph-Seastar/src/spsc_queue.hpp:65-71 | the reduction loop gives the next slot, wrapping to 0 |
| SpscIndex.AvailabilityIsComplementary | Ceph-Seastar/src/spsc_queue.hpp:73-88 | in spite of the wrapping size_t subtraction, what can be read and what can be written always sum to one less than the ring size |
| SpscIndex.FullTestsAgree | Ceph-Seastar/src/spsc_queue.hpp:104-110 | the single push's "next equals read index" test holds exactly when the bulk push sees no room |
| SpscQueue.PushManyAppends | Ceph-Seastar/src/spsc_queue.hpp:125-160 | with a stale read index, a bulk push appends exactly the longest prefix that fits the snapshot and never fills the last slot |
| SpscQueue.PopManyTakesOldest | Ceph-Seastar/src/spsc_queue.hpp:266-328 | with a stale write index, a bulk pop takes exactly the oldest elements, as many as asked for and seen |
| SpscQueue.PushManyKeepsPublishedSlots | Ceph-Seastar/src/spsc_queue.hpp:143-156 | no slot of the published window changes, in the one-section and the two-section copy |
| SpscQueue.PushManyIsRepeatedPush | Ceph-Seastar/src/spsc_queue.hpp:104-160 | a bulk push equals that many single pushes, in buffer, index and count |
| SpscQueue.PopManyIsRepeatedPop | Ceph-Seastar/src/spsc_queue.hpp:162-328 | a bulk pop equals that many single pops |
| SpscQueue.RingBuffer.constructor | Ceph-Seastar/src/spsc_queue.hpp:61-63 | a run-time sized ring starts empty with one slot more than elements |
| SpscQueue.RingBuffer.Push | Ceph-Seastar/src/spsc_queue.hpp:104-117 | refines the single push; fails exactly when the snapshot shows no room |
| SpscQueue.RingBuffer.PushBulk | Ceph-Seastar/src/spsc_queue.hpp:125-160 | the two-section copy and the reset at the ring size refine the bulk push |
| SpscQueue.RingBuffer.ConsumeOne | Ceph-Seastar/src/spsc_queue.hpp:162-177 | hands out the oldest element, or nothing exactly when the snapshot is empty |
| SpscQueue.RingBuffer.Pop | Ceph-Seastar/src/spsc_queue.hpp:266-297 | refines the bulk pop, wrap included |
| SpscQueue.RingBuffer.ConsumeAll | Ceph-Seastar/src/spsc_queue.hpp:196-229 | refines the bulk pop of everything seen |
| SpscMachine.WritesStayOffTheWindow | Ceph-Seastar/src/spsc_queue.hpp:112-114 | while both sides work from stale loads, the producer's next write is to no published slot |
| SpscMachine.NoRace | Ceph-Seastar/src/spsc_queue.hpp:104-177 | the slot about to be written is never the slot about to be read |
| SpscMachine.StepRefinesFifo | Ceph-Seastar/src/spsc_queue.hpp:104-177 | every step stays in bounds, keeps the invariant and is one step of an abstract queue, or invisible |
| SpscMachine.EveryRunIsFirstInFirstOut | Ceph-Seastar/src/spsc_queue.hpp:104-177 | in every interleaving, consumed ++ published == pushed, also in the middle of a pop, and one slot stays spare |
| SpscMachine.VerdictsAreExact | Ceph-Seastar/src/spsc_queue.hpp:109-110 | at the instant of the load a push accepts as many items as there is room for and a pop is offered as many as there are, and the step starts with just these; refusal means full, coming back empty-handed means empty |
| SpscMachine.NeitherSideWaits | Ceph-Seastar/src/spsc_queue.hpp:104-177 | whatever one side is in the middle of, the other can start or go on |
| SpscMachine.PushIsPushMany | Ceph-Seastar/src/spsc_queue.hpp:125-160 | a push spread over many steps publishes what the uninterrupted one computes from its snapshot |
| SpscMachine.PopIsPopMany | Ceph-Seastar/src/spsc_queue.hpp:266-297 | likewise for a pop, although the producer writes meanwhile |
| InterruptProtocol.StepIsSafe | DPDK-FUSE/low_level/fuse_lowlevel.c:129-144 | no enabled step touches a destroyed request |
| InterruptProtocol.StepKeepsInv | DPDK-FUSE/low_level/fuse_lowlevel.c:1715-1795 | every step of owners and interrupters keeps the invariant on counters, links, locks and both lists |
| InterruptProtocol.RequestsAreDestroyedOnceByTheLastHolder | DPDK-FUSE/low_level/fuse_lowlevel.c:129-144 | a request is destroyed once, exactly when its owner is through and no interrupter holds it, never while linked or locked, and is not touched again |
| InterruptCalls.LastRegistrationIsInForce | DPDK-FUSE/low_level/fuse_lowlevel.c:2396-2403 | in every run from the start a request records the callbacks its owner registered, in order, and the one in force is the last of them |
| InterruptCalls.StepKeepsTallied | DPDK-FUSE/low_level/fuse_lowlevel.c:1726-1737 | every step keeps calls made and the call about to be made equal to the INTERRUPTs that marked the request since its last registration, and one if it was interrupted before; only the callback registered last is called |
| InterruptCalls.RegisteredCallbackIsCalled | DPDK-FUSE/low_level/fuse_lowlevel.c:2396-2408 | in every run, with the request lock free: if f is the callback registered last, only f has been called since, once by each INTERRUPT that has marked the request since and once more if one had marked it before; so if any marked it, early or late, f has been called |
| InterruptCalls.RegistrationsAreRecorded | DPDK-FUSE/low_level/fuse_lowlevel.c:2396-2403 | along every run what is recorded, with the registration under way, is what was registered |
| InterruptCalls.InterruptedIffMarked | DPDK-FUSE/low_level/fuse_lowlevel.c:1729-1731 | a request is interrupted iff an INTERRUPT that carries its number has marked it |
| InterruptCalls.HeldIsMarked | DPDK-FUSE/low_level/fuse_lowlevel.c:1724-1743 | an INTERRUPT that got hold of a request has marked it by the time it is disposed of, whatever the owner does meanwhile |
| InterruptProgress.StepsAreCounted | DPDK-FUSE/low_level/fuse_lowlevel.c:1715-1795 | in every run an owner has taken exactly the steps its arrival, registrations, rejection and reply ask for, less those before it, and an INTERRUPT at most eight |
| InterruptProtocol.LockOrderIsKept | DPDK-FUSE/low_level/fuse_lowlevel.c:1724-1737 | nobody who wants a request lock holds the session lock |
| InterruptProtocol.SomeoneCanMove | DPDK-FUSE/low_level/fuse_lowlevel.c:1715-1752 | while any thread is inside the protocol, some thread can move: no deadlock |
| InterruptProtocol.QueuedInterruptsAreUnmatched | DPDK-FUSE/low_level/fuse_lowlevel.c:1746-1771 | queued interrupts have different targets, none of them a pending request; an interrupt has been disposed of once if it is done with and not otherwise |
| InterruptProtocol.AtRestInterruptsAreQueuedOrDisposed | DPDK-FUSE/low_level/fuse_lowlevel.c:1746-1771 | with nobody inside the protocol, every INTERRUPT received waits in the queue, once, or has been disposed of exactly once |
| InterruptQueue.ArrivalAdvances | DPDK-FUSE/low_level/fuse_lowlevel.c:1774-1795 | an arriving request retires exactly one queued interrupt, and moves the one at p forward iff it matches none behind p |
| InterruptQueue.RetiredWithinItsPosition | DPDK-FUSE/low_level/fuse_lowlevel.c:1774-1795 | p + 1 requests that match nothing behind position p retire the interrupt there |
| InterruptQueue.RetiredEarlyIffMatched | DPDK-FUSE/low_level/fuse_lowlevel.c:1779-1787 | with at most p requests, the interrupt at p is retired iff its own request was among them |
| InterruptQueue.RetiredInTimeIff | DPDK-FUSE/low_level/fuse_lowlevel.c:1774-1795 | it is retired within p + 1 requests iff its own was among them or none aimed at an interrupt behind it |
| InterruptQueue.OldestInterruptCanStarve | DPDK-FUSE/low_level/fuse_lowlevel.c:1779-1787 | for every n there are n requests, with different numbers, that leave the oldest interrupt in place |
| InterruptQueue.EnqueueIsArrival | DPDK-FUSE/low_level/fuse_lowlevel.c:2588-2596 | what the enqueue step of the protocol does to the queue |
| InterruptQueue.SearchIsInterrupt | DPDK-FUSE/low_level/fuse_lowlevel.c:1754-1772 | what the search step of the protocol does to the queue |
| InterruptRuns.StepTracks | DPDK-FUSE/low_level/fuse_lowlevel.c:1746-1795 | every step of the protocol is one arrival, one looked-up INTERRUPT, or nothing to the queue |
| InterruptRuns.GoneIffRetired | DPDK-FUSE/low_level/fuse_lowlevel.c:1774-1795 | along any run, a queued interrupt has left the queue iff the arrivals and INTERRUPTs of the run retire it |
| InterruptRuns.DealtWithInTimeIff | DPDK-FUSE/low_level/fuse_lowlevel.c:1774-1795 | in any run with p + 1 arrivals the interrupt at p is matched or answered iff its request was among them or none aimed behind it |
| InterruptStarvation.HeadStarves | DPDK-FUSE/low_level/fuse_lowlevel.c:1774-1795 | for every n a run from the start takes in n requests with different numbers while the first interrupt stays at the head |
| CircularList.ListAdd | DPDK-FUSE/low_level/fuse_lowlevel.c:114-121 | inserting keeps a circle a circle, with the node before the given one |
| CircularList.ListDel | DPDK-FUSE/low_level/fuse_lowlevel.c:106-112 | removing keeps the rest a circle; a node linked to itself changes nothing |
| CircularList.Node.constructor | DPDK-FUSE/low_level/fuse_lowlevel.c:100-104 | a new node is linked to itself |
| FuseSession.Session.constructor | DPDK-FUSE/low_level/fuse_lowlevel.c:2918-2919 | both lists start as circles of their heads |
| FuseSession.Session.FindPending | DPDK-FUSE/low_level/fuse_lowlevel.c:1719-1720 | walking the links finds the first pending request with the number |
| FuseSession.Session.TakeInterrupt | DPDK-FUSE/low_level/fuse_lowlevel.c:1754-1772 | a pending target gets a reference, a twin is dropped, anything else goes to the end of the interrupt list |
| FuseSession.Session.CheckInterrupt | DPDK-FUSE/low_level/fuse_lowlevel.c:1774-1795 | the matching interrupt, or else the oldest, leaves the list; the request is marked iff one matched; the one handed out is self-linked |
| FuseSession.Session.EnqueueRequest | DPDK-FUSE/low_level/fuse_lowlevel.c:2588-2596 | the request is appended to the pending list and retires one interrupt |
| FuseSession.Session.FreeRequest | DPDK-FUSE/low_level/fuse_lowlevel.c:129-144 | linked or not, the request leaves the list, its callback is cleared, its counter falls by one, and the caller destroys it iff it is 0 |
| NvmeMemory.GatherHoldsPayload | Ceph-Seastar/src/NVMEDevice.cc:322-354 | the gathered segments, flattened, begin with the payload |
| NvmeMemory.IteratorHandsOutTheRest | Ceph-Seastar/src/NVMEDevice.cc:267-320 | reset to o and next until dry hand out exactly bytes [o, len), iff o < len or the last segment is full |
| NvmeMemory.Task.ResetSgl | Ceph-Seastar/src/NVMEDevice.cc:267-286 | the loop over the segments ends where the iterator's definition has the cursor |
| NvmeMemory.Task.NextSge | Ceph-Seastar/src/NVMEDevice.cc:288-320 | hands out the next piece of the rest, nothing only at the end |
| NvmeMemory.Task.Transfer | Ceph-Seastar/src/NVMEDevice.cc:267-320 | the driver's use of the two callbacks yields the bytes [o, len) of the concatenated segments |
| NvmeMemory.Task.CopyToBuf | Ceph-Seastar/src/NVMEDevice.cc:251-264 | the scatter copy yields bytes [off, off + n) of the flattened segments; `None`, for a read beyond the first segment, exactly when something is asked for from behind that segment |
| NvmeDevice.IOContext.WriteSplit | Ceph-Seastar/src/NVMEDevice.cc:843-889 | the loop appends the tasks of the split to the chain and counts them |
| NvmeDevice.SplitCount | Ceph-Seastar/src/NVMEDevice.cc:854-871 | a write makes as many tasks as it has 128 KiB, rounded up |
| NvmeDevice.SplitTasksAreExact | Ceph-Seastar/src/NVMEDevice.cc:843-889 | tasks are contiguous, sector-exact, at most 128 KiB and at most 16 segments each |
| NvmeDevice.WriteInAnyOrder | Ceph-Seastar/src/NVMEDevice.cc:843-889 | executing the tasks in any order replaces exactly [off, off + len) by the buffer |
| NvmeDevice.RoundDown | Ceph-Seastar/src/NVMEDevice.cc:783-784 | the usable size is the largest multiple of the block size |
| NvmeDevice.WindowCovers | Ceph-Seastar/src/NVMEDevice.cc:974-975 | the aligned window covers the request, stays on the device and is sector-exact |
| NvmeDevice.ReadRandom | Ceph-Seastar/src/NVMEDevice.cc:968-994 | an unaligned read returns exactly the bytes of the device asked for, unless the window starts more than one segment before them |
| NvmeQueue.StepKeepsInv | Ceph-Seastar/src/NVMEDevice.cc:356-460 | submission, transfer and completion keep counters, buffers, device contents and read results in step |
| NvmeQueue.ResourcesAreAccounted | Ceph-Seastar/src/NVMEDevice.cc:238-249 | depth equals outstanding commands and is bounded; free and held segments are always the same 1024 |
| NvmeQueue.NoBufferIsShared | Ceph-Seastar/src/NVMEDevice.cc:336-339 | a segment lent to one command is lent to no other and is not free |
| NvmeQueue.StallMeansOutstanding | Ceph-Seastar/src/NVMEDevice.cc:328-329 | the depth at its maximum, or more buffers needed than are free, means a command is outstanding |
| NvmeQueue.SubmitsIff | Ceph-Seastar/src/NVMEDevice.cc:379-382 | in every run the next task can be submitted iff fewer commands are outstanding than the depth allows and its buffers and the borrowed ones fit the pool |
| NvmeQueue.ExitMeansEverythingIsDone | Ceph-Seastar/src/NVMEDevice.cc:367-460 | the loop ends, with the callback fired once, exactly when all tasks are submitted, executed once and completed, and all buffers are back |
| NvmeQueue.BuffersAtTheCallback | Ceph-Seastar/src/NVMEDevice.cc:689-713 | all buffers are back when the callback runs iff the last command is a read |
| NvmeQueue.ProgressIsPossible | Ceph-Seastar/src/NVMEDevice.cc:367-460 | while anything runs a useful step is possible, and each one leaves less to do |
| NvmeQueue.AioWriteReplacesTheRange | Ceph-Seastar/src/NVMEDevice.cc:824-889 | end to end: however submissions, transfers and completions interleave, the device ends with the range replaced |
| NvmeQueue.EveryWriteLands | Ceph-Seastar/src/NVMEDevice.cc:356-460 | in a batch of any writes that do not overlap and any reads, however it interleaves, each write is on the device in the end and the other bytes are as before |
| NvmeQueue.EveryAioWriteLands | Ceph-Seastar/src/NVMEDevice.cc:824-889 | so every buffer written with aio_write among others in one batch is on the device in the end |
| NvmeQueue.ReadsReturnTheDevice | Ceph-Seastar/src/NVMEDevice.cc:937-966 | a read returns what the device held after the commands before it in the order they were carried out, of which it is the next |
| NvmeDriver.QueueData.PopBuffers | Ceph-Seastar/src/NVMEDevice.cc:336-339 | the loop takes the last segments of the pool, last first |
| NvmeDriver.QueueData.ReleaseSegs | Ceph-Seastar/src/NVMEDevice.cc:238-249 | the segments go to the end of the pool in order |
| NvmeDriver.QueueData.SubmitTask | Ceph-Seastar/src/NVMEDevice.cc:379-455 | refuses exactly if the depth is at its maximum or the task needs more buffers than are free, and then changes nothing; otherwise it is the submit step |
| NvmeDriver.QueueData.SubmitAll | Ceph-Seastar/src/NVMEDevice.cc:374-456 | the loop ends only with no task left, the depth at its maximum, or too few buffers for the next task |
| NvmeDriver.QueueData.IoComplete | Ceph-Seastar/src/NVMEDevice.cc:671-725 | is the completion step, for reads and writes with their different order of callback and release; uses the context after the callback iff the last command is a write |
| NvmeDriver.QueueData.ProcessCompletions | Ceph-Seastar/src/NVMEDevice.cc:370-372 | whatever outstanding commands the device carries out and reports, in any order, no more is running, and less if it reports one |
| NvmeDriver.QueueData.AioHandle | Ceph-Seastar/src/NVMEDevice.cc:356-460 | finished exactly when nothing runs, everything then done; one poll per task and one more suffice if each reports any outstanding command; the context is used after the callback twice if the last command is a write, else once |
| NvmeDriver.OneWrite | Ceph-Seastar/src/NVMEDevice.cc:683-695 | a batch of one write ends with its context used twice after the callback |
| FuseBuf.CarryOn | DPDK-FUSE/low_level/buffer.c:301-346 | copying a first part and then the next is copying both |
| FuseBuf.World.WriteOut | DPDK-FUSE/low_level/buffer.c:42-74 | each transfer asks for the rest; with the retry flag they go on until all is written, one writes nothing or one fails, without it there is one; the result is the error of a first one that fails, and otherwise what was written, which is exactly the first bytes |
| FuseBuf.World.ReadIn | DPDK-FUSE/low_level/buffer.c:76-121 | the same for reads, which yield the first bytes of the source |
| FuseBuf.World.ReadToMemory | DPDK-FUSE/low_level/buffer.c:76-121 | the bytes read arrive in memory, the transfers are those of the read |
| FuseBuf.World.CopyBlock | DPDK-FUSE/low_level/buffer.c:138-157 | one block is read, and as much of it as was read is written; the error is that of the side that failed |
| FuseBuf.World.FdToFd | DPDK-FUSE/low_level/buffer.c:123-171 | blocks of 4096 bytes, or what is left, until one is not moved whole; the result is the error of a first block that fails and otherwise what was written |
| FuseBuf.World.CopyOne | DPDK-FUSE/low_level/buffer.c:240-275 | all four kinds of copy move exactly the first res places, by the transfers of their kind; memory to memory moves all, overlapping or not |
| FuseBuf.BufVec.Advance | DPDK-FUSE/low_level/buffer.c:285-299 | the cursor moves by exactly len places of the flattened rest |
| FuseBuf.BufVec.Size | DPDK-FUSE/low_level/buffer.c:22-35 | modulo 2^64, the total size, or the largest number and what follows the last buffer that has it |
| FuseBuf.CountedFrom | DPDK-FUSE/low_level/buffer.c:22-35 | what is counted is the largest number, if a buffer has it, and the sizes of the buffers behind the last such |
| FuseBuf.World.Round | DPDK-FUSE/low_level/buffer.c:312-340 | one round moves on in the flattened vectors; remaining buffers become fewer if there is another round |
| FuseBuf.IntoAt | DPDK-FUSE/low_level/buffer.c:301-346 | how far the k-th byte reaches into its buffer, from a cursor k bytes on |
| FuseBuf.LastRound | DPDK-FUSE/low_level/buffer.c:335-339 | the round that uses the source up copies the last stretch of bytes that lies in one buffer on both sides |
| FuseBuf.World.Rounds | DPDK-FUSE/low_level/buffer.c:312-343 | the loop: no copy follows one that failed; the result is its error if nothing was copied before, otherwise the sum of the copies; and by how much the destination cursor lags |
| FuseBuf.World.CopyLoop | DPDK-FUSE/low_level/buffer.c:301-346 | error and nothing moved, or k and the first k flattened bytes moved, all else unchanged; the source cursor moves by k, the destination's by k less a lag computed from the two vectors; k is all there is or all that fits unless the system cut a transfer short |
| FuseBuf.World.FuseBufCopy | DPDK-FUSE/low_level/buffer.c:301-346 | the same, and the cursor lags iff the source holds something that fits into the destination and does not end in an empty buffer; a vector copied onto itself changes nothing and tells its size |
| FuseBuf.TenIntoTwenty | DPDK-FUSE/low_level/buffer.c:301-346 | ten bytes copied into a buffer of twenty leave the destination cursor at 0 |
| Wire.LeRoundTrip | messenger/msg/msg_types.h:444-447 | a number that fits k bytes is read back from its k bytes |
| Wire.FromLeRoundTrip | messenger/msg/msg_types.h:444-447 | any k bytes are the k bytes of the number they are read as |
| Wire.LeDigit | messenger/msg/msg_types.h:444-447 | byte i is the i-th digit to the base 256, lowest first |
| Dirents.ParseInvertsEncode | DPDK-FUSE/low_level/fuse_lowlevel.c:275-300 | a reply of any entries is parsed back to the same entries |
| Dirents.EntryLayout | DPDK-FUSE/low_level/fuse_lowlevel.c:275-300 | where each field of an entry is: inode and offset of eight bytes, length and type of four, the name, zeros to a multiple of eight |
| Dirents.FitIsLongest | DPDK-FUSE/low_level/fuse_lowlevel.c:288-289 | the number of entries delivered is the longest prefix that fits |
| Readdir.AddDirentry | DPDK-FUSE/low_level/fuse_lowlevel.c:275-300 | writes exactly the padded entry if it fits and nothing otherwise, and tells its size either way |
| Readdir.Dirp.constructor | DPDK-FUSE/low_level/passthrough_ll.c:302-322 | a new handle stands before the first entry |
| Readdir.Dirp.LoDoReaddir | DPDK-FUSE/low_level/passthrough_ll.c:335-409 | whatever the handle has buffered, the reply is the longest prefix of the listing from the offset that fits; only if the stream failed, a shorter one, or its error if nothing was delivered; the stream is moved iff the offset is not the one it stands at |
| Readdir.AnswerParses | DPDK-FUSE/low_level/passthrough_ll.c:335-409 | a reader recovers from the bytes, for each entry that fits, its inode number, name, type and the offset behind it |
| Readdir.EmptyAnswerIff | DPDK-FUSE/low_level/passthrough_ll.c:335-409 | a reply is empty iff the directory is at its end or the next entry does not fit |
| Readdir.ChainListsInOrder | DPDK-FUSE/low_level/passthrough_ll.c:335-409 | replies chained by their offsets list entries in order, none twice, none skipped; some are missing at the end iff a request had no room for the entry it asked for or the requests ran out |
| Readdir.ChainListsAll | DPDK-FUSE/low_level/passthrough_ll.c:335-409 | with requests enough and big enough the whole directory is listed |
| InodeTable.LookupKeeps | DPDK-FUSE/low_level/passthrough_ll.c:164-219 | a lookup keeps keys and descriptors unique and holds one more descriptor iff the file was not listed |
| InodeTable.ForgetKeeps | DPDK-FUSE/low_level/passthrough_ll.c:248-265 | a forget keeps the table in order and gives up the descriptor iff the count reaches 0 |
| InodeTable.OneFdEach | DPDK-FUSE/low_level/passthrough_ll.c:196-198 | as many descriptors are held as inodes are listed |
| InodeTable.ListedIffLookedUp | DPDK-FUSE/low_level/passthrough_ll.c:153-265 | after any history an inode is listed, once, iff lookups less forgets are positive, and its count is that difference |
| LoInodes.LoData.LoFind | DPDK-FUSE/low_level/passthrough_ll.c:153-162 | walking the links finds the first inode with the key |
| LoInodes.LoData.LoDoLookup | DPDK-FUSE/low_level/passthrough_ll.c:164-219 | success yields the node with the inode and device number of the file that the name leads to in the parent, and is the lookup of the table; failure is the error of the call that failed and changes neither list nor open descriptors; nothing leaks |
| LoInodes.LoData.OpenFile | DPDK-FUSE/low_level/passthrough_ll.c:176-182 | the descriptor stands for the file that parent and name lead to, and so do the numbers read from it; if either call fails nothing stays open |
| LoInodes.LoData.EnterFile | DPDK-FUSE/low_level/passthrough_ll.c:184-211 | the file is found in the list and the descriptor closed, or a node for it is put in front |
| LoInodes.LoData.LoForget | DPDK-FUSE/low_level/passthrough_ll.c:248-265 | is the forget of the table, with list and descriptors in step; on the root it lowers the root's count; false exactly if that count would reach 0, where the source frees memory that is not the heap's |
| LoInodes.LoData.LoFree | DPDK-FUSE/low_level/passthrough_ll.c:237-246 | the node leaves the circle and its descriptor is closed |
| LoInodes.LoData.Teardown | DPDK-FUSE/low_level/passthrough_ll.c:651-654 | the loop ends with every held descriptor closed exactly once |
| WorkerPool.StepKeepsInv | messenger/msg/QueueStrategy.cc:29-85 | waiters are exactly the unsignalled sleepers; while one sleeps, no more messages are queued than threads are on their way; each message has one holder or one end |
| WorkerPool.EveryRunIsSafe | messenger/msg/QueueStrategy.cc:29-85 | in every run no thread is listed twice and no null message is delivered |
| WorkerPool.StepDelivers | messenger/msg/QueueStrategy.cc:65-70 | a message is delivered by the thread that holds it when it looks at `stop` while the pool runs, and dropped if it looks later |
| WorkerPool.NoneIsDroppedBefore | messenger/msg/QueueStrategy.cc:65-70 | in every run from the start no message is dropped before the stop |
| WorkerPool.NoneIsDeliveredAfter | messenger/msg/QueueStrategy.cc:65-70 | after the stop no message is delivered |
| WorkerPool.QueuedMessageFindsAWorker | messenger/msg/QueueStrategy.cc:47-72 | unless all have exited, a queued message finds a worker that can step |
| WorkerPool.SpuriousWakeup | messenger/msg/QueueStrategy.cc:61-62 | the first look after an unsignalled wakeup would link the thread again iff no message is queued |
| SpuriousWakeups.HarmlessIff | messenger/msg/QueueStrategy.cc:51-63 | a step is unsafe iff a thread that is awake and still listed looks at an empty queue that is not stopped |
| SpuriousWakeups.SafeIffNoneInVain | messenger/msg/QueueStrategy.cc:29-85 | in any history from the start with any unsignalled wakeups, no step links a thread twice iff none looks in vain between such a wakeup and being taken off the list |
| SpuriousWakeups.MessageOnlyPutsItOff | messenger/msg/QueueStrategy.cc:51-72 | a history in which such a thread delivers a message, and its next look at the queue is unsafe |
| SpuriousWakeups.DispatchWakesIff | messenger/msg/QueueStrategy.cc:37-42 | queueing a message wakes a thread iff the first on the list is not awake already |
| WorkerPool.WorkersComeToRest | messenger/msg/QueueStrategy.cc:47-72 | after stop the workers take a bounded number of steps |
| WorkerPool.RestMeansExited | messenger/msg/QueueStrategy.cc:65-66 | workers that can do nothing more after stop have exited |
| WorkerPool.DrainedIffAttended | messenger/msg/QueueStrategy.cc:47-72 | then every message is delivered or released once iff nothing was queued or a worker had not decided to exit |
| WorkerPool.ShutdownDrains | messenger/msg/QueueStrategy.cc:74-85 | shutting down a pool with workers ends every message queued before |
| WorkerPool.LateMessagesStay | messenger/msg/QueueStrategy.cc:35-44 | what is queued when no worker looks any more stays, whatever happens |
| WorkerPool.UnattendedAfterStop | messenger/msg/QueueStrategy.cc:35-85 | for any number of workers, a run from the start to a stopped pool with a message that nobody will look at |
| WorkerPool.QueueStrategy.DsDispatch | messenger/msg/QueueStrategy.cc:35-44 | queues the message and signals the first waiter |
| WorkerPool.QueueStrategy.Entry | messenger/msg/QueueStrategy.cc:51-64 | takes a message, or leaves after stop, or goes to the front of the waiters |
| WorkerPool.QueueStrategy.ShutDown | messenger/msg/QueueStrategy.cc:74-85 | the loop empties the waiter list and signals each of them |
| DispatchQueue.EnqueueMirrors | messenger/msg/DispatchQueue.h:73-80 | queueing a message that is not queued keeps the index the image of the queue |
| DispatchQueue.TakeMirrors | messenger/msg/DispatchQueue.h:81-87 | taking any entry finds its message in the index and keeps the image |
| DispatchQueue.DiscardMirrors | messenger/msg/DispatchQueue.cc:213-226 | discarding a class trips no assertion iff the class holds messages only, and keeps the image |
| DispatchQueue.DiscardOfAnIdIsSafe | messenger/msg/DispatchQueue.h:203-205 | discarding an id that get_id returned never meets a code |
| DispatchQueue.QueuedTwice | messenger/msg/DispatchQueue.cc:80-94 | a message queued twice makes the second removal trip the assertion |
| DispatchAccounts.EveryStepIsSafe | messenger/msg/DispatchQueue.cc:151-226 | no assertion fails and the throttle is never asked for more than it holds |
| DispatchAccounts.StepKeepsInv | messenger/msg/DispatchQueue.cc:39-61 | what the throttle holds is always the sum of what each message still owes |
| DispatchAccounts.EveryRunIsSafe | messenger/msg/DispatchQueue.cc:151-226 | so in every run from an empty queue |
| DispatchAccounts.ExitLeavesNothing | messenger/msg/DispatchQueue.cc:204-205 | when the dispatch thread leaves its loop the index is empty, like the queue |
| DispatchAccounts.ThrottleIsEmptyUnlessDropped | messenger/msg/DispatchQueue.cc:190-198 | when all messages are settled the throttle is empty iff no message with a charge was dropped after stop; before stop each is paid back exactly |
| DispatchAccounts.BytesOfTheDropped | messenger/msg/DispatchQueue.cc:151-206 | for any size, a run from the start in which everything is settled and the throttle keeps the bytes of a message dropped after stop |
| DispatchAccounts.Dispatcher.EnqueueMsg | messenger/msg/DispatchQueue.cc:80-94 | the index is updated, then the queue |
| DispatchAccounts.Dispatcher.EnqueueCode | messenger/msg/DispatchQueue.h:146-195 | a code goes to the end of the queue with class 0, unless stopped; then nothing changes |
| DispatchAccounts.Dispatcher.Dequeue | messenger/msg/DispatchQueue.cc:155-158 | takes an entry off queue and index |
| DispatchAccounts.Dispatcher.DiscardQueue | messenger/msg/DispatchQueue.cc:213-226 | the loop removes the class from the index and gives back each message's charge |
| DispatchRuns.QueueIsConserved | messenger/msg/DispatchQueue.cc:80-226 | in every run what is in the queue, with what was taken and discarded, is what was queued: messages with their class, and codes iff not stopped |
| DispatchRuns.CodeWaits | messenger/msg/DispatchQueue.h:146-195 | a code queued before the stop is in the queue until the dispatch thread takes it |
| DispatchRuns.TakenThenDispatchedUnlessStopped | messenger/msg/DispatchQueue.cc:190-199 | a message in hand is dropped iff the queue has been stopped, otherwise dispatched with its charge |
| DispatchRuns.DispatchGivesBack | messenger/msg/DispatchQueue.cc:58-62 | at the end of its dispatch a message has given back all it was charged |
| DispatchRuns.IdsAreFresh | messenger/msg/DispatchQueue.h:203-205 | no id is handed out twice |
| MapReservations.StepKeepsInv | Ceph-Seastar/src/OSD.h:352-396 | each epoch is counted as often as it is held, and only then listed |
| MapReservations.EveryRunIsSafe | Ceph-Seastar/src/OSD.h:373-383 | the assertions of release_map hold in every run |
| MapReservations.BarrierOpensIff | Ceph-Seastar/src/OSD.h:385-396 | the smallest counter lets the waiter through iff no older map is held |
| MapReservations.PassesIffNoneOlder | Ceph-Seastar/src/OSD.h:385-396 | a look lets the waiter go iff no reservation of an older map is outstanding, and puts it to sleep otherwise |
| MapReservations.OnlyALookPasses | Ceph-Seastar/src/OSD.h:385-396 | nobody leaves in any other way |
| MapReservations.CountsAreOutstanding | Ceph-Seastar/src/OSD.h:362-383 | in every run each epoch is counted as often as it was reserved and not yet released |
| MapReservations.OlderReservationsFall | Ceph-Seastar/src/OSD.h:362-383 | reservations below the next epoch never grow and fall by one with each release of an older map |
| MapReservations.BarrierOpensInTime | Ceph-Seastar/src/OSD.h:385-396 | while no newer map comes, the barrier opens after exactly as many older releases as were outstanding |
| MapReservations.OneWaiterIsWoken | Ceph-Seastar/src/OSD.h:382-394 | a single waiter never sleeps without cause |
| MapReservations.LastReleaseWakesOne | Ceph-Seastar/src/OSD.h:382-394 | after the last older release exactly the waiters that were not signalled sleep without cause |
| MapReservations.SecondWaiterOversleeps | Ceph-Seastar/src/OSD.h:382-394 | a run from the start with two waiters and a last release, after which one is left asleep |
| MapReservations.OsdService.PrePublishMap | Ceph-Seastar/src/OSD.h:352-355 | the next map becomes the published one, reservations stay |
| MapReservations.OsdService.GetNextmapReserved | Ceph-Seastar/src/OSD.h:362-371 | counts one reservation of the next map, if there is one |
| MapReservations.OsdService.ReleaseReservation | Ceph-Seastar/src/OSD.h:373-383 | counts one less and forgets the epoch at 0 |
| MapReservations.OsdService.MayPass | Ceph-Seastar/src/OSD.h:388-391 | looking at the first counter only decides whether none is below the next epoch |
| AddrCodec.TaggedRoundTrip | messenger/msg/msg_types.h:442-458 | the tagged form reads back in both readers, over any target and before any rest |
| AddrCodec.LegacyRoundTrip | messenger/msg/msg_types.h:417-428 | the legacy form reads back as a legacy address; other families leave the target's address |
| AddrCodec.RoundTrip | messenger/msg/msg_types.h:434-501 | decoding inverts encoding in both forms and stops where encoding did |
| AddrCodec.SameAddressIff | messenger/msg/msg_types.h:460-501 | the address comes back unchanged iff the bytes the wire does not carry agree (and, legacy, type and family allow it) |
| AddrCodec.BlankTarget | messenger/msg/msg_types.h:289-303 | a zero-padded address comes back into a blank one, in the legacy form up to its type |
| AddrCodec.VectorRoundTrip | messenger/msg/msg_types.cc:223-275 | vectors of zero-padded addresses come back whole; without the feature the first legacy address, else the first, else a blank one |
| AddrCodec.SingleInVector | messenger/msg/msg_types.cc:245-271 | the vector reader takes either single form as a vector of one |
| AddrCodec.TrustIsHarmlessIff | messenger/msg/msg_types.cc:257-267 | the vector reader agrees with the address reader on a socket address iff its length is 0 or from 2 to what the family has |
| AddrCodec.DecodeStaysInside | messenger/msg/msg_types.h:460-501 | whatever the bytes, the address reader never writes beyond the address |
| AddrCodec.VectorOverrunIff | messenger/msg/msg_types.cc:257-267 | the vector reader writes beyond the address iff the bytes begin with a sound tagged envelope, the announced length is above 28 and more than 28 bytes are left |
| AddrCodec.OverlongAddress | messenger/msg/msg_types.cc:257-267 | so it does on any tagged address with more than 28 announced and more than 28 present bytes, enough or not |
| AddrCodec.TaggedLayout | messenger/msg/msg_types.h:442-458 | where each field of the tagged form is, in bytes |
| AddrCodec.LegacyLayout | messenger/msg/msg_types.h:435-441 | the legacy form: four zeros, the nonce, and 128 bytes that begin with the family, high byte first |
| AddrCodec.VectorLayout | messenger/msg/msg_types.cc:241-242 | the vector form: a two, the number of addresses, each in the tagged form, in order |
| AddrCodec.LegacyChoiceIs | messenger/msg/msg_types.cc:225-239 | a peer without the feature is told the first legacy address, else the first, else a blank one |
| AddrCodec.TaggedIsRead | messenger/msg/msg_types.h:467-497 | for any bytes: which are taken for a tagged address, what it is, and that reading goes on behind the body |
| AddrCodec.TaggedIsReadOnTrust | messenger/msg/msg_types.cc:255-271 | the same for the vector reader |
| AddrCodec.LegacyIsRead | messenger/msg/msg_types.h:417-428 | for any bytes: what is read behind the legacy marker, or that they are too few |
| AddrCodec.MarkerDecides | messenger/msg/msg_types.h:460-467 | the first byte decides which form is read, and which values are errors |
| AddrObjects.EntityAddr.EncodeTo | messenger/msg/msg_types.h:434-459 | writes the encoding field by field |
| AddrObjects.EntityAddr.DecodeFrom | messenger/msg/msg_types.h:460-501 | reads into the object what the decoding function says, with its errors |
| AddrObjects.EntityAddrVec.EncodeTo | messenger/msg/msg_types.cc:223-243 | the search for a legacy address and the loop write the vector's encoding |
| AddrObjects.EntityAddrVec.DecodeFrom | messenger/msg/msg_types.cc:245-275 | rebuilds the vector from any of the three forms, with the errors; `Overrun` where the source writes beyond the address, also if the copy then throws |
| Variance.OnePassIsTwoPass | Seastar-FUSE/seastar/avg_std.cc:30-37 | the running form equals the sum of squared deviations from the mean |
| Variance.ZeroIffConstant | Seastar-FUSE/seastar/avg_std.cc:30-37 | it is never negative, and 0 iff the samples do not vary |
| Variance.OrderDoesNotMatter | Seastar-FUSE/seastar/avg_std.cc:30-37 | it is the same for every permutation of the samples |
| Variance.AvgAndVariance | Seastar-FUSE/seastar/client.cc:189-204 | the two loops compute the mean and the sample variance |

## Left out

- Weak memory and object lifetimes in the ring: loads and stores are atomic steps, elements plain values; `reset`, `front` and the compile-time sized variants are not modelled.
- SpscQueue.RingBuffer.constructor: asks that twice the ring size fit size_t, because beyond that the index sums of the source wrap.
- Decoding and dispatch of FUSE opcodes; the session's locked sections take the request they got.
- InterruptCalls.RegisteredCallbackIsCalled: an INTERRUPT that marks a request only after its owner has given it back finds no callback and is promised none.
- Data pointers handed to callbacks: a callback is a number.
- `splice`, pipes and descriptors without a position; files are addressed by position, and copying uses the definition for systems without splice.
- FuseBuf.World.CopyLoop: asks for vectors that do not overlap, as copying through descriptors does; within one pair of memory buffers CopyOne allows overlap.
- FuseBuf.World.ReadIn: hands the bytes over at the end, so a memory buffer that aliases the file being read is not covered.
- readdirplus, whose entry that does not fit is still looked up; plain readdir only.
- Directories that change while they are listed, and offsets that were never handed out.
- LoInodes.LoData.LoDoLookup: other users of the file system may rename and delete between operations, not during one.
- LoInodes.LoData.LoForget: promises nothing once it has returned false; lookup counts are unbounded.
- LoInodes: the inode list is proved for one operation after another; `passthrough_ll.c` serves lookups from `fuse_session_loop_mt` (line 640) without a lock around the list.
- NVMe: probing, flush, performance counters, clocks, and commands that fail (the source aborts).
- NvmeQueue.ExitMeansEverythingIsDone: covers contexts with `priv` set, of tasks with at most 1024 segments; the others wait on code that is not part of this model.
- NvmeDevice.ReadRandom: the device answers at once; None stands for a copy whose length has wrapped, which reads beyond the first segment.
- NvmeMemory.Task.CopyToBuf: None stands for the same wrapped length; what is read then is not modelled.
- WorkerPool.EveryRunIsSafe: messages that can be fast-dispatched bypass the queue and are not modelled; start and join of threads neither.
- DispatchQueue: the order in which the prioritized queue hands out entries is any order; local delivery is a caller of enqueue.
- DispatchAccounts.EveryRunIsSafe: assumes that callers do not queue a message that is queued, as the source does (`QueuedTwice` shows what happens otherwise).
- include/encoding.h and include/buffer.h are not part of this model; the versioned envelope is taken to be version, compatible version and a 32-bit length, and a copy out of a buffer to throw only after it has copied what there is.
- Address parsing and printing, comparison operators, and the layouts of other systems than Linux.
- AddrObjects.EntityAddrVec.DecodeFrom: the elements of a vector are decoded into blank addresses; after an error the object is unspecified, and after `Overrun` everything is.
- Variance.AvgAndVariance: exact reals instead of floating point, and at least two samples; the square root is left out.
- MapReservations: other users of the publish lock and of the condition variable.
- `SimpleMessenger`, `Finisher`, `MonMap`, message decoding, the rest of the OSD, the Seastar servers and clients, and scripts: plumbing or code whose other half is elsewhere.
