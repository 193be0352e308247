# scull drivers: model and proofs

The scull family of Linux character drivers, in Dafny: the blocking pipe device, the sparse
quantum store behind all memory devices, and the access-controlled devices on top of it.

**Pipe** (`scull/pipe.c`). `Ring.dfy` is the arithmetic of the circular buffer, `PipeDevice.dfy`
the device structure with the bodies that run under the semaphore, and `PipeProtocol.dfy` the
system of threads: any number of threads, any interleaving, one atomic step at a time. Inside the
critical section too, the test with its clamp, the user copy, the pointer update, the wrap, the
allocation, the counting and the free are separate steps that do not look at who else is inside;
that a thread finds things as it left them is proved from the semaphore. Loads of
`rp` and `wp` outside the semaphore are separate steps (each mention of a pointer in
`spacefree` its own, in any order), `wp` can be seen resting on `end`, a
`down_interruptible` that has to wait and every sleep can be interrupted, user copies can fail
part-way, a wake wakes all waiters, and a copy that left the buffer would be recorded (`wild`).
`PipeInvariant.dfy` proves what every step keeps while one thread at most is inside,
`PipeTheorems.dfy` draws the conclusions for every reachable state, `PipeCalls.dfy` says what every
call returns to its caller, from what was observed of it along the run (`Log`), `PipeRefinement.dfy`
ties the imperative bodies to the steps, and `PipePoll.dfy` is about runs in which poll is called
too, and so about what happens when the semaphore fails.

**Store** (`common_scull/base_scull.c`). `StoreSpec.dfy` says on values what each call does,
`StoreFlat.dfy` that this is a flat partial map from offsets to bytes, `StoreCalls.dfy` when each
call succeeds, what it allocates and what it leaves, for any amount of memory,
`StoreRoundTrip.dfy` that messages survive any chunking, `StoreRuns.dfy` what holds over runs with
many handles and ioctl changes. `StoreMemory.dfy` is kernel memory as a map from addresses to cells
(list node, pointer array, block); an access to a freed or foreign cell would be an access outside the map. A block
knows how many bytes its allocator gave; an access past them is recorded in `overran`, and from
then on nothing is claimed about real memory.
`StoreDevice.dfy` is `struct scull_dev` with its loops working on that memory, proved to do what
`StoreSpec.dfy` says; `StoreSession.dfy` is about runs of calls in memory.

**Access** (`scull/access.c`). `UidDevice.dfy` is the uid-owned device, `BlockingUidDevice.dfy`
its blocking variant as a system of threads, `BlockingUidCalls.dfy` what its calls return and who
owns it along every run, and `TtyDevices.dfy` the list of per-terminal devices, which share one
kernel memory.

Where the code does not do what one would expect, the code is kept and the exact condition proved:

- `scull_p_poll` tests the semaphore the wrong way round. Over every run the semaphore plus the
  threads inside is one, plus the polls interrupted, minus the polls granted (`PollAccounting`): the
  accounting is right if and only if the two are equally many; one granted too many and nobody gets
  in until the next interrupted poll (`StuckIff`, `StuckUntilInterrupted`, `InterruptedPollRevives`);
  one interrupted too many and two threads get in (`TwoInsideOnlyIf`, `TwoInsideIf`). As long as
  interrupted polls are never ahead, everything else holds (`SafeWithPolls`); once they are, two
  readers can deliver the same byte twice (`DeliveredTwice`, `PollCanDeliverTwice`) and a release can
  free the buffer under an opener (`PollCanFreeUnderOpener`).
- `scull_p_read` compares `f_flags` with `==`: a reader can be put to sleep if and only if its
  handle can read and its flags are anything but O_NONBLOCK alone (`ReaderSleepsIff`), and a read of
  an empty ring gives -EAGAIN exactly with those flags (`ReadReturns`). `scull_p_write` uses `&`
  (`WriterSleepsIff`, `WriteReturns`).
- An interrupted release leaves its handle counted: once all files (opened for reading or writing)
  are closed, the buffer is still there if and only if some release was interrupted
  (`BufferLeaksIff`), and then for good (`LeakIsForever`, `BufferCanLeak`).
- `item` is an `int`: positions beyond 2^31 items are not addressed, and beyond 2^32 items they
  alias lower ones (`CanonIsIdentityIff`, `FarPositionsAlias`, `RoundTrip`).
- `size += count`: while only handles opened since the last trim write, the size is the end of the
  data if and only if the last write that stored anything began at the size of that moment
  (`SizeIsEndIff`; two handles writing at 0 are a case where it is not, `TwoWritersInflateSize`).
- Cache and page allocators do not follow the quantum: a run accesses memory past the end of a
  block if and only if some write in it allocates a quantum while the quantum of the last trim is
  more than the allocator gives (`OverrunsIff`, on kernel memory `RunThenTrim`). kmalloc devices
  never do. As built, `scullc` and `scullp` have no ioctl and their own copy of the globals, and
  then they do not either (`NeverOverrunsWithoutIoctl`); with an ioctl they do
  (`RaisedQuantumOverruns`).

Assumptions: memory accesses are sequentially consistent; the store's calls and trims are atomic
(the code reads the geometry, and a read the bytes left before the size, before it takes the device
semaphore, and trims without it);
`quantum` and `qset` are positive and their product is an `int`; a file is released only after
the last call on it has returned; credentials do not change during a call; a handle keeps its
flags for life (fcntl(F_SETFL) can set O_NONBLOCK on a handle whose reader already sleeps, which
`ReaderSleepsIff`, `WriterSleepsIff` and what is said about -EAGAIN do not cover).

## Model

| member | source | states |
|---|---|---|
| `Ring.SpaceFree` | scull/pipe.c:37-44 | the result lies between -1 and the size, for any pointers in the buffer, also with `wp` on `end` |
| `Ring.Accounting` | scull/pipe.c:37-44 | free space plus queued bytes is always the size minus the reserved slot |
| `Ring.PassTakesPrefix` | scull/pipe.c:81-93 | copying and passing over bytes within the clamp takes exactly those off the front of the queue |
| `Ring.ReadTakesPrefix` | scull/pipe.c:73-93 | a read delivers a prefix of the queue and leaves exactly the rest, in order; non-empty if bytes were asked for, and short of the request only where the queue or the buffer ends |
| `Ring.WriteFits` | scull/pipe.c:147-156 | the accepted count stays before `end` and before `rp`, never lets `wp` reach `rp`, is positive if there is room, and short of the request only where the free space or the buffer ends |
| `Ring.WriteAppends` | scull/pipe.c:157-166 | a write appends exactly the accepted bytes, also while `wp` rests on `end`, and a full ring never looks empty |
| `Ring.ScribbleKeepsQueue` | scull/pipe.c:157-161 | whatever a faulting copy leaves behind, the queued bytes are untouched |
| `Ring.OneWrite` | scull/pipe.c:147-166 | one write call leaves sound pointers and the queue followed by the accepted prefix, which is all of the data unless the ring is then full or the end of the buffer reached |
| `Ring.TwoReadsDrain` | scull/pipe.c:73-93 | two reads that ask for enough deliver the whole queue, whatever the wrap |
| `Ring.TwoWritesAccept` | scull/pipe.c:147-166 | two writes accept any message that fits the free space, and the queue ends with it |
| `PipeDevice.ScullPipe.constructor` | scull/pipe.c:321-328 | a new device has no buffer and no handles |
| `PipeDevice.ScullPipe.FreeSpace` | scull/pipe.c:37-44 | the free space is what the queue and the reserved slot leave |
| `PipeDevice.ScullPipe.Take` | scull/pipe.c:73-94 | the bytes delivered followed by the new queue are the old queue; a fault changes nothing |
| `PipeDevice.ScullPipe.Room` | scull/pipe.c:147-156 | the clamped count fits the buffer and is positive if there is room |
| `PipeDevice.ScullPipe.Fill` | scull/pipe.c:157 | exactly the bytes from `wp` on are replaced |
| `PipeDevice.ScullPipe.Store` | scull/pipe.c:147-166 | the new queue is the old one followed by the accepted prefix; a fault leaves the queue |
| `PipeDevice.ScullPipe.Open` | scull/pipe.c:218-237 | ENOMEM exactly if there is no buffer and no memory; a first open makes an empty ring, later ones keep it |
| `PipeDevice.ScullPipe.Release` | scull/pipe.c:251-263 | the buffer goes exactly when no counted handle is left |
| `PipeRefinement.ReadSection` | scull/pipe.c:73-94 | the locked part of read is the clamp, copy and move steps, or the clamp and fault steps, with the same bytes delivered |
| `PipeRefinement.WriteSection` | scull/pipe.c:147-166 | the locked part of write is the clamp, copy, move and wrap steps, or the clamp and fault steps |
| `PipeRefinement.OpenSection` | scull/pipe.c:218-237 | the locked part of open is the buffer step and the counting step, ENOMEM included |
| `PipeRefinement.ReleaseSection` | scull/pipe.c:251-263 | the locked part of release is the counting step and the step that may free |
| `PipeInvariant.StepKeepsTokens` | scull/pipe.c:46-176 | no step of any call, early returns included, changes semaphore value plus holders |
| `PipeInvariant.StepKeepsRing` | scull/pipe.c:73-94 | every step keeps the pointers sound and the histories equal to the queue, given that whoever is inside still knows what it found out |
| `PipeInvariant.StepKeepsKnown` | scull/pipe.c:73-166 | with one thread inside at most, every step keeps what threads between clamp, copy, move and counting rely on (room and queue as clamped, bytes as copied, buffer present), and no copy leaves the buffer |
| `PipeInvariant.StepKeepsUses` | scull/pipe.c:208-267 | every step keeps calls on live handles and releases on their own handle |
| `PipeInvariant.StepKeepsCounts` | scull/pipe.c:230-263 | every step keeps the counters equal to the counted handles and the buffer present while they are positive; an opener counts itself on a buffer that is still there |
| `PipeInvariant.StepKeepsLifetime` | scull/pipe.c:243-263 | every step keeps: no buffer without a handle, except inside an open or release, and a closing handle has its release running |
| `PipeInvariant.StepKeepsLeaked` | scull/pipe.c:246-249 | no step touches a handle whose release was interrupted |
| `PipeInvariant.StepKeepsWakes` | scull/pipe.c:56-72 | every step keeps what a queued, unwoken thread has loaded true of the ring, unless its wake is pending |
| `PipeInvariant.StepKeepsWaits` | scull/pipe.c:104-128 | every step keeps non-blocking calls out of the wait loops, as far as the flags are tested |
| `PipeInvariant.StepKeepsSound` | scull/pipe.c:46-267 | all of this together follows, for one step, from one thread at most being inside |
| `PipeInvariant.ExecKeepsInv` | scull/pipe.c:46-267 | all of this over every interleaving |
| `PipeCalls.FifoOverEveryRun` | scull/pipe.c:73-175 | in every reachable state, with any threads anywhere inside or outside the locked bodies, the bytes accepted are the bytes delivered followed by the bytes queued; what each thread took is what its reads returned followed by what it has in hand, and what it put is counted by what its writes returned and have in hand |
| `PipeTheorems.MutualExclusion` | scull/pipe.c:46-267 | semaphore plus threads in the critical section is one, on all paths including every early return |
| `PipeTheorems.NoLostReaderWakeup` | scull/pipe.c:56-72 | a reader sleeps unwoken on a non-empty ring only while a writer's wake is pending |
| `PipeTheorems.NoLostWriterWakeup` | scull/pipe.c:104-128 | a writer sleeps unwoken on a ring with space only while a reader's wake is pending |
| `PipeTheorems.NoMutualWait` | scull/pipe.c:56-128 | a reader and a writer asleep unwoken at once, on a buffer of two bytes or more, only while a wake is pending |
| `PipeTheorems.PendingWriterWakes` | scull/pipe.c:162-170 | a writer that has moved `wp` is never blocked, needs three more steps at most, and in every continuation that has them every queued reader has been woken, or has left, at some moment |
| `PipeTheorems.PendingReaderWakes` | scull/pipe.c:86-97 | a reader that has moved `rp` is never blocked, needs two more steps at most, and in every continuation that has them every queued writer has been woken, or has left, at some moment |
| `PipeTheorems.SleeperIsWoken` | scull/pipe.c:56-170 | whoever sleeps although it could go on has a thread whose next few steps, in any continuation, end its sleep |
| `PipeTheorems.RingAccounting` | scull/pipe.c:37-44 | in every reachable state the buffer keeps its size, free space and queue add up, and the pointers are inside when the semaphore is free |
| `PipeTheorems.BufferLifetime` | scull/pipe.c:208-267 | the counters are the live handles plus those closing or whose release was interrupted; the buffer exists while one of them has a mode; without a handle only inside an open or release, and outside those exactly with a handle if all have a mode |
| `PipeTheorems.BufferLeaksIff` | scull/pipe.c:243-263 | with all calls returned and all files closed, the buffer remains exactly if some release was interrupted |
| `PipeTheorems.LeakIsForever` | scull/pipe.c:246-249 | after an interrupted release no continuation frees the buffer |
| `PipeTheorems.BufferCanLeak` | scull/pipe.c:246-249 | a run, with a release interrupted while another thread is inside, that ends with all files closed and the buffer allocated |
| `PipeTheorems.NoStalePointers` | scull/pipe.c:73-166 | no copy of any run touches memory outside the allocated buffer; whoever is inside read or write finds the buffer there and the pointers in it |
| `PipeTheorems.HolderCanMove` | scull/pipe.c:73-95 | the holder of the semaphore is never blocked, needs five more steps at most, and in every continuation that has them the semaphore has been free at some moment |
| `PipeTheorems.ReaderSleepsIff` | scull/pipe.c:56-72 | some run puts a reader to sleep if and only if its flags lack O_WRONLY and are not exactly O_NONBLOCK |
| `PipeTheorems.WriterSleepsIff` | scull/pipe.c:104-123 | some run puts a writer to sleep if and only if its flags have exactly one of O_WRONLY and O_RDWR, and not O_NONBLOCK |
| `PipeTheorems.NeverStuck` | scull/pipe.c:46-268 | in every reachable state a thread in a call can take its next step unless it waits for the semaphore another has or sleeps unwoken, and there a signal ends its call with -ERESTARTSYS |
| `PipeCalls.NonBlockWriterNeverSleeps` | scull/pipe.c:104-110 | no writer with O_NONBLOCK is ever in the wait loop; having found the ring full it fails with -EAGAIN and has put nothing |
| `PipeCalls.StepConserves` | scull/pipe.c:81-175 | in every step, what a thread had in hand and what the step moves is what the step returns and what the thread then has in hand |
| `PipeCalls.AllTold` | scull/pipe.c:46-268 | at every point of every call of every run: its arguments and flags are those it was made with, and what it has moved, found, suffered and counted so far is what that point allows |
| `PipeCalls.ReadReturns` | scull/pipe.c:46-99 | a finished read returned -EAGAIN exactly if it found the ring empty and its flags are O_NONBLOCK alone, -EFAULT exactly on a fault, -ERESTARTSYS exactly on a signal, and then took nothing; else it returned what it took, the head of the queue it found, in full up to the end of the queue or the buffer |
| `PipeCalls.WriteReturns` | scull/pipe.c:101-176 | a finished write returned -EAGAIN exactly if it found the ring full and O_NONBLOCK is set, -EFAULT exactly on a fault, -ERESTARTSYS exactly on a signal, and then put nothing; else the number of bytes it put, the head of its data, in full up to the end of the free space or the buffer |
| `PipeCalls.OpenReturns` | scull/pipe.c:208-240 | a finished open added one live handle with its flags, or returned -ENOMEM exactly if it lacked a buffer and memory, -ERESTARTSYS exactly on a signal, and added none |
| `PipeCalls.ReleaseReturns` | scull/pipe.c:242-268 | a finished release removed its handle and no other, or was interrupted and left it leaked for good |
| `PipePoll.PollAccounting` | scull/pipe.c:178-200 | over every run with polls, semaphore plus holders is 1 + interrupted - granted; it is one exactly if the two are equal |
| `PipePoll.StuckIff` | scull/pipe.c:183-186 | semaphore 0 with nobody inside exactly while granted polls exceed interrupted ones by one |
| `PipePoll.StuckUntilInterrupted` | scull/pipe.c:183-186 | a stuck device stays so and no byte moves in any run without an interrupted poll |
| `PipePoll.InterruptedPollRevives` | scull/pipe.c:187-199 | an interrupted poll gives a stuck device its semaphore back |
| `PipePoll.TwoInsideOnlyIf` | scull/pipe.c:198 | two threads inside at once only if more polls were interrupted than granted |
| `PipePoll.TwoInsideIf` | scull/pipe.c:198 | and then any two threads between calls or inside can be brought inside together |
| `PipePoll.SafeWithPolls` | scull/pipe.c:178-200 | while interrupted polls were never ahead, one thread at most is inside, and therefore FIFO, lifetime and wakeups hold as without polls |
| `PipePoll.DeliveredTwice` | scull/pipe.c:81-93 | with more polls interrupted than granted, nobody inside and a byte queued, two idle threads can both deliver that byte |
| `PipePoll.PollCanDeliverTwice` | scull/pipe.c:198 | a run with a poll after which more bytes were delivered than accepted |
| `PipePoll.PollCanFreeUnderOpener` | scull/pipe.c:259-263 | a run with a poll after which an open handle has no buffer |
| `PipePoll.PollCanStick` | scull/pipe.c:183-186 | a run with a poll that ends stuck |
| `PipePoll.PollCanAdmitTwo` | scull/pipe.c:198 | a run, with a poll interrupted while another thread is inside, that ends with two threads inside |
| `StoreSpec.Locate` | common_scull/base_scull.c:182-185 | s_pos and q_pos are within qset and quantum for every position |
| `StoreSpec.Followed` | common_scull/base_scull.c:82-114 | the old list is a prefix, all added nodes are empty, and with enough memory node `item` exists |
| `StoreSpec.Prepare` | common_scull/base_scull.c:186-211 | the list stays well-formed, every existing quantum is kept, the only new one is the slot's and zeroed, and on success the slot has one |
| `StoreSpec.Write` | common_scull/base_scull.c:168-229 | every outcome leaves a well-formed store of the same geometry, and the size grows by exactly the result, positive if bytes were given and less than all of them only at the end of the quantum (its effect on bytes: `StoreFlat.WriteIsExact`; its errors: `StoreCalls.WriteOutcome`) |
| `StoreSpec.Read` | common_scull/base_scull.c:116-166 | every outcome leaves geometry, size and existing nodes; the result is no longer than asked and ends within the size (its bytes: `StoreFlat.ReadIsPure`) |
| `StoreFlat.TwoLevels` | common_scull/base_scull.c:138-141 | the two-step division is numbering quanta by quantum and grouping them by qset |
| `StoreFlat.CanonIsIdentityIff` | common_scull/base_scull.c:182-185 | a position addresses its own offset if and only if its item number is an `int` |
| `StoreFlat.LocateBijective` | common_scull/base_scull.c:182-185 | in that range, equal places and equal positions are the same thing |
| `StoreFlat.FarPositionsAlias` | common_scull/base_scull.c:182 | positions 2^32 items apart address the same byte |
| `StoreFlat.WriteIsExact` | common_scull/base_scull.c:182-224 | a successful write accepts all its data or all that the quantum of its position has room for, stores exactly the accepted bytes at its offset, zeroes the rest of a new quantum, and changes no other offset |
| `StoreFlat.FaultingWriteIsConfined` | common_scull/base_scull.c:217-221 | a faulting write can spoil only the bytes it was to replace, and not the size |
| `StoreFlat.FailedAllocationChangesNothing` | common_scull/base_scull.c:188-209 | running out of memory at any point changes no byte and no size |
| `StoreFlat.WriteSucceedsIff` | common_scull/base_scull.c:186-211 | with memory and without fault a write fails exactly for a negative item number |
| `StoreFlat.ReadIsPure` | common_scull/base_scull.c:116-166 | a read changes no byte or size; it delivers the flat slice cut at size and quantum, and nothing exactly at the end, on a hole, without nodes or for count 0 |
| `StoreCalls.PrepareCounts` | common_scull/base_scull.c:186-211 | the allocations of a write succeed exactly if there is memory for all it needs and its item is not negative; else it has made as many as there was memory for |
| `StoreCalls.WriteOutcome` | common_scull/base_scull.c:168-229 | for any memory and fault: -ENOMEM exactly for a negative item or too little memory, -EFAULT exactly if it gets to a copy that faults, and the device grows by exactly the objects needed, or that memory allowed |
| `StoreCalls.ReadOutcome` | common_scull/base_scull.c:130-165 | -EFAULT exactly if there is a byte at the position and the copy faults; only list nodes up to the item are allocated, none at the end |
| `StoreCalls.CallIsExact` | common_scull/base_scull.c:52-229 | every call, by its effect on the flat map, size, geometry and answer: a read changes nothing, a write does one of three exact things, a trim leaves nothing |
| `StoreRoundTrip.WriteInRange` | common_scull/base_scull.c:168-229 | in range, a write makes progress and stores at the caller's offset |
| `StoreRoundTrip.WriteAllHolds` | common_scull/base_scull.c:168-229 | the write loop finishes if and only if the message is at most 2^31 items long, and then the device holds it |
| `StoreRoundTrip.ReadAllReturns` | common_scull/base_scull.c:116-166 | the read loop returns what the device holds from the position on |
| `StoreRoundTrip.RoundTrip` | common_scull/base_scull.c:116-229 | for every geometry and all request sizes: written in pieces and read in pieces, the message comes back |
| `StoreRuns.StepKeepsInv` | common_scull/base_scull.c:116-229 | every call keeps the size equal to the accepted bytes, recent handles and their writes within it and present, and every block at its allocator's size |
| `StoreRuns.SizeAccounting` | common_scull/base_scull.c:212-224 | over every run the size is the sum of write results since the trim; recent handles and all they wrote stay within it, and what they wrote is stored |
| `StoreRuns.PositionAccounting` | common_scull/base_scull.c:159-222 | over every run, an open handle stands exactly as far from 0 as its own calls since its open have moved bytes |
| `StoreRuns.SizeIsEndIff` | common_scull/base_scull.c:222-223 | over every run in which only recent handles store, the size is the end of the data if and only if the last write that stored anything began at the size of that moment |
| `StoreRuns.TwoWritersInflateSize` | common_scull/base_scull.c:222-223 | two handles write one byte each at 0: the size is 2, the data ends at 1 |
| `StoreRuns.GeometryStable` | common_scull/base_scull.c:33-79 | over every run from any device and global geometry, the device has the global geometry of its last trim, its arrays that qset, and every block the quantum of kmalloc, the object size of a cache or the bytes of a page allocation |
| `StoreRuns.OverrunsIff` | common_scull/base_scull.c:33-50 | for all allocators, a run passes the end of a block (memset, copy or read) if and only if some write in it allocates while the quantum of the last trim exceeds the allocator's size |
| `StoreRuns.KmallocNeverOverruns` | common_scull/base_scull.c:38-39 | no run of a kmalloc device passes the end of a block |
| `StoreRuns.NeverOverrunsWithoutIoctl` | scullp/main.c:96-100 | no run without ioctl does, if the allocator holds the quantum of setup and the global one |
| `StoreRuns.RaisedQuantumOverruns` | scullc/main.c:95-106 | with a cache or pages: raise the quantum, trim, write a byte, and the block is shorter than the quantum and the write has passed its end |
| `StoreMemory.RepFrame` | common_scull/base_scull.c:52-80 | a device is as it was when only cells it does not own change |
| `StoreMemory.LinkRep` | common_scull/base_scull.c:87-107 | linking a new node appends an empty item and keeps the list null-terminated and unshared |
| `StoreMemory.AddTable` | common_scull/base_scull.c:192-201 | a new pointer array belongs to its node alone and holds only nulls |
| `StoreMemory.AddBlock` | common_scull/base_scull.c:202-211 | a new block belongs to its slot alone and reads as zeros |
| `StoreMemory.BlockSized` | common_scull/base_scull.c:204 | a new block has the allocator's length and the others keep theirs |
| `StoreMemory.SetBlock` | common_scull/base_scull.c:217 | changing a block changes that one quantum and nothing else |
| `StoreMemory.FreedAll` | common_scull/base_scull.c:57-75 | the cells freed node by node are exactly the cells owned |
| `StoreDevice.Heap.Kmalloc` | common_scull/base_scull.c:87 | a fresh non-null address, every other cell as before |
| `StoreDevice.Heap.Kfree` | common_scull/base_scull.c:71-73 | only an allocated cell can be freed, and only it goes |
| `StoreDevice.Device.constructor` | scull/main.c:93-99 | a new device is an empty store |
| `StoreDevice.Device.Link` | common_scull/base_scull.c:87-94 | one empty node is appended, in a cell that was free |
| `StoreDevice.Device.Head` | common_scull/base_scull.c:84-95 | the head, made if missing and memory allows |
| `StoreDevice.Device.Reach` | common_scull/base_scull.c:98-110 | one turn: the next node, made if missing and memory allows |
| `StoreDevice.Device.Walk` | common_scull/base_scull.c:96-113 | the walk ends at node number `item` or where memory ran out, having added only empty nodes |
| `StoreDevice.Device.Follow` | common_scull/base_scull.c:82-114 | node number `item`; old nodes and their order kept, null exactly on a failed allocation or a negative item |
| `StoreDevice.Device.NeedTable` | common_scull/base_scull.c:192-201 | a pointer array if there was none and memory allows |
| `StoreDevice.Device.NeedBlock` | common_scull/base_scull.c:202-211 | a zeroed quantum in a block of the allocator's size if there was none and memory allows; the memset passes its end exactly if that size is below the quantum |
| `StoreDevice.Device.CopyIn` | common_scull/base_scull.c:217 | the bytes of that quantum from q_pos on; never the first access past the end of a block |
| `StoreDevice.Device.PrepareSlot` | common_scull/base_scull.c:186-211 | the allocations of a write, refining the value-level stages; an end is newly passed exactly if it allocates a block shorter than the quantum |
| `StoreDevice.Device.Write` | common_scull/base_scull.c:168-229 | refines the value-level write on kernel memory, accepts all the data or up to the end of the quantum, takes only free cells, touches no foreign cell, moves position and size by the result, newly passes the end of a block exactly if it allocates a short one |
| `StoreDevice.Device.Lookup` | common_scull/base_scull.c:143-147 | the block of a place, null exactly if any level is missing |
| `StoreDevice.Device.Read` | common_scull/base_scull.c:116-166 | refines the value-level read on kernel memory, moves the position by the result, and is never the first to pass the end of a block |
| `StoreDevice.Device.FreeTable` | common_scull/base_scull.c:64-71 | frees the blocks of one node and its pointer array, each once |
| `StoreDevice.Device.FreeNode` | common_scull/base_scull.c:58-75 | frees all cells of one node and finds the next |
| `StoreDevice.Device.Trim` | common_scull/base_scull.c:52-80 | memory loses exactly the device's cells; the device is empty under the global geometry |
| `StoreSession.GrowthConserves` | common_scull/base_scull.c:168-229 | a call leaves memory outside the device as it was |
| `StoreSession.Perform` | common_scull/base_scull.c:52-229 | any call does to the device and answers what the value level says, conserves memory outside it, and newly passes the end of a block exactly if it allocates a short one |
| `StoreSession.RunThenTrim` | common_scull/base_scull.c:52-80 | any run of calls with faults and failed allocations, then a trim: the answers are those of the value level and exactly the device's cells are gone; some end was passed if and only if some write allocated a short block, and if not, memory is what it was without the device |
| `StoreSession.Send` | common_scull/base_scull.c:168-229 | a user's write loop on kernel memory ends; it passes the end of a block exactly if there is a byte to write and blocks are short, and if not the device holds the message |
| `StoreSession.Receive` | common_scull/base_scull.c:116-166 | a user's read loop on kernel memory ends and returns exactly the message |
| `UidDevice.OpenedIsSafe` | scull/access.c:76-88 | a permitted open keeps the count right and every opener authorised |
| `UidDevice.ReleasedIsSafe` | scull/access.c:108-112 | a release keeps the count right and every opener authorised |
| `UidDevice.ScullU.constructor` | scull/access.c:66-67 | no handle, no owner |
| `UidDevice.ScullU.Open` | scull/access.c:71-102 | EBUSY exactly if the device is open, its owner neither uid of the process, and the process cannot override; otherwise counted, and owned by the real uid of whoever finds no handle open |
| `UidDevice.ScullU.Release` | scull/access.c:104-115 | its handle goes, and the owner exactly with the last one |
| `UidDevice.OwnershipSafety` | scull/access.c:71-115 | over every run the count is the open handles, all opened by processes authorised against the present owner |
| `UidDevice.OwnerStays` | scull/access.c:84-112 | along every stretch of a run with a handle open, the owner is the same |
| `UidDevice.OwnerIsFirstOpener` | scull/access.c:84-112 | over every run the owner of an open device is the real uid of the process whose open found no handle open, and an idle device has none |
| `UidDevice.LetInIff` | scull/access.c:76-88 | after every run an open adds its handle exactly if none is open, or the process is or acts as that first opener, or overrides; a refused one changes nothing |
| `BlockingUidDevice.StepKeepsInv` | scull/access.c:136-199 | every step of every open and release keeps lock, ownership and wait-queue invariants, and only blocking opens in the wait loop |
| `BlockingUidDevice.NoLostWakeup` | scull/access.c:149-199 | an opener asleep with no wake pending faces a positive count and an owner it is not authorised against |
| `BlockingUidDevice.BlockingOwnershipSafety` | scull/access.c:144-199 | in every reachable state the count is the open handles, all authorised, and one thread at most is inside |
| `BlockingUidDevice.OwnerChangesOnlyWhenUnused` | scull/access.c:163-191 | the owner changes only while no handle is open |
| `BlockingUidDevice.PendingWakeArrives` | scull/access.c:187-197 | the thread with a pending wake is never blocked, needs three more steps at most, and in every continuation that has them every queued opener has been woken, or has left, at some moment |
| `BlockingUidDevice.SleeperIsWoken` | scull/access.c:149-199 | an opener asleep on a device it could have has a thread whose next steps, in any continuation, end its sleep |
| `BlockingUidCalls.AllTold` | scull/access.c:144-199 | at every point of every call of every run: its arguments are those it was made with, and what it has found, suffered, added and removed so far is what that point allows |
| `BlockingUidCalls.OpenReturns` | scull/access.c:144-181 | a finished open returned -EAGAIN exactly if it was made with O_NONBLOCK and found the device taken under the lock, -ERESTARTSYS exactly on a signal, which reaches only a blocking open that found it taken, and otherwise 0, having added one handle with its credentials |
| `BlockingUidCalls.ReleaseReturns` | scull/access.c:183-199 | a finished release returned 0 and removed its handle and no other |
| `BlockingUidCalls.OwnerIsFirstOpener` | scull/access.c:163-191 | in every reachable state the owner of an open device is the real uid of the process whose open added a handle while there was none; with no handle and a free lock there is no owner |
| `BlockingUidCalls.OnlyBlockingOpensWait` | scull/access.c:149-161 | whoever is in the wait loop was called without O_NONBLOCK, has found the device taken and cannot override |
| `BlockingUidCalls.OpenerSleepsIff` | scull/access.c:149-161 | some run puts an open to sleep if and only if it lacks O_NONBLOCK and the process cannot override |
| `BlockingUidCalls.NeverStuck` | scull/access.c:144-199 | in every reachable state a thread in a call can take its next step unless it sleeps unwoken, and then a signal can reach it, or another has the lock, who gives it back within four steps of his own |
| `TtyDevices.GrowthSpares` | scull/access.c:211-248 | a device is unchanged, and still shares nothing, while another grows |
| `TtyDevices.TrimSpares` | scull/access.c:268-271 | a device is unchanged while another is trimmed |
| `TtyDevices.ScullC.constructor` | scull/access.c:220 | the list starts empty |
| `TtyDevices.ScullC.LookFor` | scull/access.c:227-248 | the one device of the key, prepended empty if new; null exactly for a new key without memory; entries stay |
| `TtyDevices.ScullC.Open` | scull/access.c:250-276 | EINVAL exactly without a tty, ENOMEM exactly for a new key without memory; keys keep their devices, all other contents stay, a new or write-only opened device is empty |
| `TtyDevices.ScullC.Find` | scull/access.c:230-236 | the entry of a key, null exactly if there is none |
| `TtyDevices.ScullC.Write` | scull/access.c:288 | one terminal's write does to its device and position what scull_write does, and nothing to the others |
| `TtyDevices.ScullC.Read` | scull/access.c:287 | one terminal's read delivers and moves what scull_read does and leaves the others alone |
| `TtyDevices.ScullC.Trim` | scull/access.c:268-271 | one terminal's trim leaves the others alone |
| `TtyDevices.ScullC.CallOn` | scull/access.c:287-288 | any call through one terminal does to its device and answers what that call does, and does nothing to the others |
| `TtyDevices.ScullC.Perform` | scull/access.c:250-276 | one call changes what its own terminal has stored as that call alone would, is answered from that alone, and changes nothing any other has |
| `TtyDevices.ScullC.Run` | scull/access.c:227-276 | after any run of calls by any terminals, every terminal has stored what its own calls alone would have left and got the answers they alone would have got, in the device it had |

## Left out

- Module init and exit, cdev and device-number registration, proc files, user programs and scripts.
- `scull_p_poll`: its mask. `fasync` and SIGIO delivery are kernel calls.
- Steps finer than one test with its clamp, one copy, one pointer or counter update inside the pipe's critical section; and what a copy outside the buffer reads or overwrites, which takes two threads inside and is only recorded.
- What an access past the end of a block does to the memory behind it: it is recorded, and the contents after it are those of a driver whose stray bytes nobody disturbs.
- `scull_s_open`, `scull_s_release`: the availability counter is commented out, so there is no protocol.
- ioctl command decoding, capability tests and transfers: only the change of the global geometry is modelled.
- `globalmem`, `completion`, `sleepy`: each is one buffer or one flag around a kernel call; `jit`, `jiq`: timers, tasklets and text output.
- The wait loops of the pipe and of the blocking uid device are transitions of a step system, not `while` loops: other threads run between any two of their steps.
- Kernel memory is a map from addresses to cells held by a `Heap` object; pointer fields are addresses into it, not Dafny references.
- Overflow of `dev->size` and `f_pos` (64 bits) and of the handle counters.
- The interrupted `down_interruptible` of `scull_read` and `scull_write`, which returns before touching anything.
- Races between the store's calls and trims, which run without a common lock.
- The trim that `scull_u_open` and `scull_w_open` do for write-only opens: `StoreDevice.Device.Trim` covers it.
- Releasing the list items of the per-terminal devices: the driver never does.
