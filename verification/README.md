# RT-Thread kernel model for the infrared module

The infrared module runs on a vendored RT-Thread 4.0.3 kernel (uniprocessor, 32 priorities, small-memory heap). This
project models the parts of that kernel, and of the module's own code, whose correctness is hard to see from any one
function, and proves what they are relied on for.

| part | files | what is modelled |
|---|---|---|
| Small-memory heap | `HeapLayout`, `HeapBytes`, `SmallHeap`, `HeapRuns` | `mem.c`: headers in the bytes of an array, split, merge, first fit from `lfree`, realloc, counters |
| Lists and bit search | `RtList`, `LinkedNodes`, `Ffs` | `rtservice.h` circular lists; `__rt_ffs` with its table |
| Blocking IPC | `WaitList`, `ArrivalOrder`, `MailboxModel`, `MailboxOrder`, `Mailbox`, `QueueModel`, `QueueAnswers`, `QueueOrder`, `MsgQueue`, `PoolModel`, `PoolOrder`, `MemPool`, `EventModel`, `EventOrder`, `Event`, `MutexModel`, `Mutex` | `ipc.c` and `mempool.c` as step systems: each interrupt-disabled section is one step, and any other thread's sections may come in between |
| Timers | `TimerModel`, `TimerRuns`, `SkipList`, `SysTimer` | `timer.c` and the tick of `clock.c`: skip list, wrapping 32-bit ticks, timeout functions that start and stop timers |
| Scheduler | `SchedModel`, `SchedEffects`, `Scheduler`, `Slices`, `TimeSlice` | `scheduler.c` and the states of `thread.c`: ready queues, bitmap, yields, locks; the time slices of `clock.c` |
| IPC with the scheduler | `Dispatch`, `MailboxDispatch`, `QueueDispatch`, `PoolDispatch` | each section of a call is run by the thread that has the processor, and ends in `rt_schedule` |
| Slab heap | `PageRuns`, `PageLedger`, `Pages`, `ZoneModel`, `SlabModel`, `SlabEffects`, `Slab` | `slab.c`: page runs, zones of chunks, page map |
| Memory heaps | `MapSums`, `MemHeapModel`, `MemHeapEffects`, `MemHeap` | `memheap.c`: address list, free list, accounts, realloc with its data |
| Worst-case stack | `CallGraph`, `Wcs` | `WCS.py`: memoised search of the call graph |
| Checksums and frames | `ShiftRegister`, `BitStream`, `PolyDivision`, `ModbusBits`, `ModbusTaps`, `ModbusCrc`, `ModbusErrors`, `ModbusDivision`, `Crc32`, `Crc32Taps`, `Crc32Division` | CRC-16 of *MODBUS over Serial Line V1.02*, section 6.2.2, with the frames built and checked; CRC-32 of RFC 1952, section 8 |

`Beginnings` says what newly initialised objects answer. The form is the same everywhere. Where the C or Python code changes things in place there is a class with its fields
and arrays, whose methods follow the code branch by branch; each method `ensures` that the new state is a function of
the old one. Those functions are defined on values, and the theorems about single steps, whole runs and round trips are
lemmas about them. A run is a sequence of steps of any threads in any order, from the initialised state.

`dafny verify dfyconfig.toml` checks everything.

## Model

| member | source | states |
|---|---|---|
| HeapLayout.LayoutIsFunctionOfLive | infrared_module/rt-thread/src/mem.c:156-194 | A tiled, fully coalesced block list is determined by its live blocks: two such lists with the same live blocks are equal, so the free blocks carry no history. |
| HeapLayout.TakeReleaseRestores | infrared_module/rt-thread/src/mem.c:303-410 | Freeing the block that an allocation was cut from restores the identical block list, whether or not it was split. |
| HeapLayout.ReleaseCommutes | infrared_module/rt-thread/src/mem.c:552-615 | Two live blocks may be freed in either order with the same resulting block list. |
| HeapLayout.NothingLiveIsOneBlock | infrared_module/rt-thread/src/mem.c:156-194 | When nothing is live the heap is one free block from end to end. |
| HeapBytes.BlocksDisjoint | infrared_module/rt-thread/src/mem.c:303-370 | Different blocks of a tiled list have disjoint extents. |
| HeapRuns.RunCanonical | infrared_module/rt-thread/src/mem.c:272-615 | After every run of malloc, free and realloc the blocks tile the heap from offset 0 to its end, and no two neighbouring blocks are free. |
| HeapRuns.RunsWithSameLiveBlocks | infrared_module/rt-thread/src/mem.c:272-615 | Two runs that leave the same live blocks leave the identical block list, whatever calls led there. |
| HeapRuns.RunThatFreesEverything | infrared_module/rt-thread/src/mem.c:552-615 | A run after which nothing is live is back at the one free block of the fresh heap. |
| HeapRuns.MallocFreeRestores | infrared_module/rt-thread/src/mem.c:272-615 | malloc followed by free of the block it gave leaves the block list as it was. |
| HeapRuns.HandedOut | infrared_module/rt-thread/src/mem.c:303-370 | A successful malloc adds exactly one live block, which was not live, holds the aligned request, wastes less than a header and MIN_SIZE, and is the first block in address order that is large enough. |
| HeapRuns.FreedLive | infrared_module/rt-thread/src/mem.c:552-615 | rt_free of a live block takes exactly that block out of the live blocks and changes no other; anything else changes nothing. |
| HeapRuns.ResizeKeepsOrEnds | infrared_module/rt-thread/src/mem.c:430-469 | rt_realloc changes nothing for a size beyond the heap or the size the block has, and for size 0 takes exactly that block out of the live blocks. |
| HeapRuns.ResizeCuts | infrared_module/rt-thread/src/mem.c:471-503 | If more than a header and MIN_SIZE would be left over, the block is replaced by its own head, of exactly the aligned size, and no other live block changes. |
| HeapRuns.ResizeMoves | infrared_module/rt-thread/src/mem.c:505-516 | Otherwise the block is replaced by one where malloc would put it, with less than a header and MIN_SIZE to spare, or everything stays if malloc finds none. |
| HeapRuns.RefusalIsExact | infrared_module/rt-thread/src/mem.c:291-311 | malloc refuses an aligned request no larger than the heap exactly when every free block that is large enough is the exact fit whose data ends at heap_end. |
| HeapRuns.FreshHeapRefusesItsSize | infrared_module/rt-thread/src/mem.c:305-311 | A fresh heap refuses a request for its whole size although its one block is large enough. |
| HeapRuns.TinyHeapScanNeverEnds | infrared_module/rt-thread/src/mem.c:299-311 | On a heap smaller than MIN_SIZE the bound of the scan wraps: for every n the n-th position of the scan is below the bound and nothing there fits. |
| HeapRuns.AlignedRequestCoversSize | infrared_module/rt-thread/src/mem.c:288-300 | What malloc looks for covers the size asked for if and only if RT_ALIGN does not wrap; for the three sizes where it does, malloc looks for MIN_SIZE bytes. |
| SmallHeap.AlignIs | infrared_module/rt-thread/src/mem.c:288-289 | RT_ALIGN rounds up to the next multiple of 4, except for the three largest sizes, which it turns into 0. |
| HeapRuns.ResizedIsAfter | infrared_module/rt-thread/src/mem.c:421-516 | The block list that the method for rt_realloc ensures is the one the run theorems step with. |
| HeapRuns.TopIsPeak | infrared_module/rt-thread/src/mem.c:343-369 | After every run max_mem is the largest used_mem there has been at any moment, the moments inside a reallocation (old and new block both in use) included, and used_mem does not exceed it. |
| SmallHeap.HeapInit | infrared_module/rt-thread/src/mem.c:204-257 | A heap between two addresses exists exactly when two headers fit between the aligned addresses; it then is one free block of the rest, and well formed. |
| SmallHeap.Heap.PlugHoles | infrared_module/rt-thread/src/mem.c:156-194 | On the bytes of the heap: the freed block is merged with free neighbours on both sides, lfree moves down with it, the links agree with the merged list, and no data byte of any block changes. |
| SmallHeap.Heap.Scan | infrared_module/rt-thread/src/mem.c:303-321 | The scan from lfree ends at the first block in address order that fits below the bound, or at the bound if there is none: starting at lfree skips nothing. |
| SmallHeap.Heap.AdvanceLfree | infrared_module/rt-thread/src/mem.c:380-387 | After the lowest free block has been taken lfree is moved to the lowest block that is free now, or to heap_end. |
| SmallHeap.Heap.MallocAligned | infrared_module/rt-thread/src/mem.c:291-410 | On the bytes of the heap: first fit, split, used_mem, max_mem and lfree as specified, NULL exactly when the specification finds no block, and all data of all live blocks untouched. |
| SmallHeap.Heap.Malloc | infrared_module/rt-thread/src/mem.c:272-410 | rt_malloc for every 32-bit size, 0 and refused sizes included: nothing changes when it returns NULL. |
| SmallHeap.Heap.Free | infrared_module/rt-thread/src/mem.c:552-615 | rt_free of a live block or NULL: exactly that block goes out of the live set, the heap stays well formed (tiling, back-links, lfree, used_mem), no data changes. |
| SmallHeap.Heap.Realloc | infrared_module/rt-thread/src/mem.c:421-516 | rt_realloc in all its branches: on success the first min(old, new) bytes are in the new block, every other live block keeps its place and its data, a size that cannot be had changes nothing, and max_mem is what the branch taken makes of it. |
| SmallHeap.Heap.CopyBytes | infrared_module/rt-thread/src/kservice.c:210-280 | Copies between disjoint ranges carry every byte over and change no byte outside the destination. |
| RtList.InsertAfterRing | infrared_module/rt-thread/include/rtservice.h:58-65 | The four link writes put a new node directly behind any node of a circle, and the result is a circle again, both ways round. |
| RtList.BeforeIsAfter | infrared_module/rt-thread/include/rtservice.h:73-80 | Inserting before a node writes the same links as inserting after the node in front of it. |
| RtList.RemoveRing | infrared_module/rt-thread/include/rtservice.h:86-92 | Taking any node but the head out leaves the circle of the others in order. |
| RtList.Lists.Init | infrared_module/rt-thread/include/rtservice.h:47-50 | The node becomes an empty list; no other node's links change. |
| RtList.Lists.InsertAfter | infrared_module/rt-thread/include/rtservice.h:58-65 | The list holds the new node at the place behind l, and links of nodes outside the list are unchanged. |
| RtList.Lists.InsertBefore | infrared_module/rt-thread/include/rtservice.h:73-80 | The list holds the new node at the place in front of l, or last if l is the head; others are unchanged. |
| RtList.Lists.Remove | infrared_module/rt-thread/include/rtservice.h:86-92 | The list holds the other nodes in order and the removed node is an empty list of its own. |
| RtList.Lists.IsEmpty | infrared_module/rt-thread/include/rtservice.h:98-101 | True exactly for a list without nodes. |
| RtList.Lists.Len | infrared_module/rt-thread/include/rtservice.h:107-118 | The walk round the circle ends and counts the nodes. |
| Ffs.FfsIsLowest | infrared_module/rt-thread/src/kservice.c:1293-1337 | For every 32-bit word: 0 only for 0, and otherwise the bit at the returned number less one is set and no lower bit is. |
| Ffs.FfsFindsPriority | infrared_module/rt-thread/src/kservice.c:1293-1337 | On the word whose bits are a set of priorities the search returns the highest priority in the set, as the scheduler model uses it. |
| WaitList.SuspendSorted | infrared_module/rt-thread/src/ipc.c:100-121 | Insertion in priority order keeps the list sorted and puts the newcomer in front of exactly lower-priority threads, so behind its equals. |
| WaitList.PlacedInLine | infrared_module/rt-thread/src/ipc.c:100-121 | Priority order with arrival order among equals is kept when the newest arrival is inserted. |
| WaitList.SuspendOn | infrared_module/rt-thread/src/ipc.c:83-129 | The walk of rt_ipc_list_suspend computes that insertion for both FIFO and PRIO lists. |
| ArrivalOrder.Arrives | infrared_module/rt-thread/src/ipc.c:83-129 | Whoever begins to wait as number n takes its place in a list that is in turn (FIFO: by arrival; PRIO: by priority, then by arrival), and the list is in turn again; other lists are not disturbed. |
| ArrivalOrder.WakesInTurn | infrared_module/rt-thread/src/ipc.c:140-153 | From a list in turn exactly the foremost waiter is woken, and the others keep their order. |
| WaitList.WithoutKeeps | infrared_module/rt-thread/src/ipc.c:140-153 | Taking a thread out of a wait list keeps the order of the others and repeats nobody. |
| WaitList.ResumeAll | infrared_module/rt-thread/src/ipc.c:163-191 | Resuming everybody ends exactly the calls of those on the list. |
| MailboxModel.NoLostWakeup | infrared_module/rt-thread/src/ipc.c:1541-1787 | In every interleaving of senders, receivers, timeouts and resets: while a receiver waits and a mail is stored, a woken receiver is about to run and gets the oldest mail, however little of its timeout is left; likewise for senders and free slots. |
| MailboxModel.RunKeeps | infrared_module/rt-thread/src/ipc.c:1510-1839 | Every run keeps the mailbox invariant: who waits where, how many are woken, and the ring within its size. |
| MailboxModel.WaitersOnOneSide | infrared_module/rt-thread/src/ipc.c:1541-1787 | Once every woken thread has run, senders and receivers never both wait (for a mailbox with slots). |
| MailboxModel.FirstInFirstOut | infrared_module/rt-thread/src/ipc.c:1510-1839 | In every run what receivers got and resets dropped, followed by what is stored, is exactly the mails accepted, in order, each once. |
| MailboxModel.RemainingIs | infrared_module/rt-thread/src/ipc.c:1594-1601 | What is left of a timeout after any number of ticks that 32 bits can hold: unchanged if it is not positive; otherwise the difference, or 0 once it has run out, if and only if no more than 2^31 ticks beyond the timeout have passed. |
| MailboxModel.SendAnswers | infrared_module/rt-thread/src/ipc.c:1530-1637 | In any reachable state a send puts its mail last if there is room; with none it fails at once and changes nothing if it has no time, and otherwise its thread joins the waiting senders with its mail and its timeout. |
| MailboxModel.RecvAnswers | infrared_module/rt-thread/src/ipc.c:1685-1795 | In any reachable state a receive takes exactly the oldest mail; with none it fails at once and changes nothing if it has no time, and otherwise its thread joins the waiting receivers. |
| MailboxModel.WokenSender | infrared_module/rt-thread/src/ipc.c:1541-1632 | A woken sender that finds the mailbox full waits on if and only if it waits for ever or fewer ticks than its timeout have passed, with its mail and the rest of its timeout, and fails otherwise; with room its mail goes last. |
| MailboxModel.WokenReceiver | infrared_module/rt-thread/src/ipc.c:1697-1755 | A woken receiver that finds no mail waits on if and only if it waits for ever or fewer ticks than its timeout have passed, with the rest of its timeout, and times out otherwise. |
| MailboxModel.Ends | infrared_module/rt-thread/src/ipc.c:1807-1839 | A timeout ends its thread's call and nothing else; a reset drops the mails, ends the calls of exactly those that wait, and lets the woken ones go on. |
| MailboxOrder.FifoByArrival | infrared_module/rt-thread/src/ipc.c:90-95 | In every run of a FIFO mailbox, whoever comes, is woken, times out or is reset: both wait lists hold their threads in the order in which they began to wait. |
| MailboxOrder.ForemostIsWoken | infrared_module/rt-thread/src/ipc.c:1541-1787 | After every run, FIFO or PRIO: a mail sent wakes exactly the foremost waiting receiver and a mail taken exactly the foremost waiting sender (the longest waiting; for PRIO the longest waiting of the highest priority); no other step wakes anybody. |
| Mailbox.MessageBox.constructor | infrared_module/rt-thread/src/ipc.c:1362-1390 | An empty ring of the given size with nobody waiting. |
| Mailbox.MessageBox.SendWait | infrared_module/rt-thread/src/ipc.c:1510-1638 | The first section of rt_mb_send_wait on the ring buffer, its offsets and wait lists is the send step of the model, with its status. |
| Mailbox.MessageBox.SendAgain | infrared_module/rt-thread/src/ipc.c:1541-1632 | The section a woken sender runs is the corresponding step, with the timeout reduced by the ticks slept. |
| Mailbox.MessageBox.RecvWait | infrared_module/rt-thread/src/ipc.c:1667-1795 | The first section of rt_mb_recv is the receive step of the model. |
| Mailbox.MessageBox.RecvAgain | infrared_module/rt-thread/src/ipc.c:1696-1787 | The section a woken receiver runs is the corresponding step. |
| Mailbox.MessageBox.TimeoutOf | infrared_module/rt-thread/src/thread.c:858-880 | A timeout takes the thread off its list and its call fails; nothing else changes. |
| Mailbox.MessageBox.ResetBox | infrared_module/rt-thread/src/ipc.c:1807-1839 | A reset ends all waiting calls with an error and empties the ring. |
| QueueModel.NodesConserved | infrared_module/rt-thread/src/ipc.c:2098-2461 | In every run the free list, the queue and one node for each call copying outside the lock are all the nodes of the pool, each in one place. |
| QueueModel.QNoLostWakeup | infrared_module/rt-thread/src/ipc.c:2098-2476 | In every run: while a receiver waits and a message is queued, a woken receiver is about to run and takes the head; likewise for senders and free nodes. |
| QueueModel.QStepKeeps | infrared_module/rt-thread/src/ipc.c:2056-2545 | Every section of any call, a timeout or a reset keeps the invariant: nodes conserved, waiters placed, wakeups counted, buffers sound. |
| QueueModel.RefinesDeque | infrared_module/rt-thread/src/ipc.c:2160-2484 | Linking appends the sender's message or prepends an urgent one, a receiver takes the front, a reset empties, and no other section changes what is queued: the queue is a bounded deque of messages. |
| QueueModel.ReceivesWhatItTook | infrared_module/rt-thread/src/ipc.c:2436-2461 | What a receiver ends up with is the message it took from the front, cut to its room, whatever other calls did to the pool meanwhile. |
| QueueModel.HandsUntouched | infrared_module/rt-thread/src/ipc.c:2160-2171 | No section of another call changes the node or the buffer a call is copying to or from outside the lock. |
| QueueModel.RoomToLink | infrared_module/rt-thread/src/ipc.c:2186-2195 | When a node is linked the queue is shorter than max_msgs, a 16-bit number, so the RT_MQ_ENTRY_MAX branch cannot be taken and no node is lost there. |
| QueueAnswers.SendAnswer | infrared_module/rt-thread/src/ipc.c:2074-2190 | In any reachable state a send or urgent send refuses a message that is too long, takes the first free node for it, fails without changing anything if there is none and it has no time (or is urgent), and otherwise waits with its message and timeout. |
| QueueAnswers.RecvAnswer | infrared_module/rt-thread/src/ipc.c:2356-2460 | In any reachable state a receive takes the node at the front with its message, fails without changing anything if there is none and it has no time, and otherwise waits with the size of its buffer and its timeout. |
| QueueAnswers.WokenSenderAnswer | infrared_module/rt-thread/src/ipc.c:2099-2162 | A woken sender that finds no free node waits on if and only if it waits for ever or fewer ticks than its timeout have passed, with the rest of it, and fails otherwise. |
| QueueAnswers.WokenReceiverAnswer | infrared_module/rt-thread/src/ipc.c:2375-2438 | A woken receiver that finds no message waits on if and only if it waits for ever or fewer ticks than its timeout have passed, with the rest of it, and times out otherwise. |
| QueueAnswers.CallsEnd | infrared_module/rt-thread/src/ipc.c:2497-2546 | A timeout ends its thread's call and nothing else; a reset frees every queued node, ends the calls of exactly those that wait, and lets all others go on as they were. |
| QueueAnswers.PostedAsAsked | infrared_module/rt-thread/src/ipc.c:2170-2210 | In every run what a sender links is the very message that its thread called with, in front if and only if it called as urgent; and what a receiver returns is the message that was at the front when it took it, cut to the buffer it called with. |
| QueueOrder.QFifoByArrival | infrared_module/rt-thread/src/ipc.c:90-95 | In every run of a FIFO queue both wait lists hold their threads in the order in which they began to wait. |
| QueueOrder.QForemostIsWoken | infrared_module/rt-thread/src/ipc.c:2193-2480 | After every run: a message linked wakes exactly the foremost waiting receiver and a node given back exactly the foremost waiting sender; no other section wakes anybody. |
| MsgQueue.MessageQueue.constructor | infrared_module/rt-thread/src/ipc.c:1862-1912 | Initialisation threads all nodes of a pool with arbitrary contents onto the free list, first to last. |
| MsgQueue.MessageQueue.SendWait | infrared_module/rt-thread/src/ipc.c:2056-2164 | The first section of rt_mq_send_wait on the linked lists of nodes is the model's send step: too long, node taken, full, or blocked. |
| MsgQueue.MessageQueue.SendAgain | infrared_module/rt-thread/src/ipc.c:2098-2164 | The section a woken sender runs is the corresponding step. |
| MsgQueue.MessageQueue.SendUrgent | infrared_module/rt-thread/src/ipc.c:2244-2278 | The first section of rt_mq_urgent. |
| MsgQueue.MessageQueue.CopyMessage | infrared_module/rt-thread/src/ipc.c:2166-2169 | Outside the lock: closing the node's link and filling its buffer changes only that node. |
| MsgQueue.MessageQueue.LinkMessage | infrared_module/rt-thread/src/ipc.c:2171-2213 | The second section: linking at the tail (or the head, if urgent), counting, and waking one receiver. |
| MsgQueue.MessageQueue.RecvWait | infrared_module/rt-thread/src/ipc.c:2337-2452 | The first section of rt_mq_recv: unlinking the head, or waiting. |
| MsgQueue.MessageQueue.RecvAgain | infrared_module/rt-thread/src/ipc.c:2371-2452 | The section a woken receiver runs is the corresponding step. |
| MsgQueue.MessageQueue.CopyToCaller | infrared_module/rt-thread/src/ipc.c:2454-2455 | Outside the lock: the caller gets at most the message size. |
| MsgQueue.MessageQueue.ReturnNode | infrared_module/rt-thread/src/ipc.c:2457-2483 | The node goes to the front of the free list and one sender is woken. |
| MsgQueue.MessageQueue.TimeoutOf | infrared_module/rt-thread/src/thread.c:858-880 | A timeout takes the thread off its list and its call fails. |
| MsgQueue.MessageQueue.ResetQueue | infrared_module/rt-thread/src/ipc.c:2497-2545 | A reset ends all waiting calls and moves every queued node to the free list; nodes being copied stay with their calls. |
| PoolModel.PNoLostWakeup | infrared_module/rt-thread/src/mempool.c:319-449 | In every run: while a thread waits and a block is free, a woken thread is about to run and gets a block, however little of its waiting time is left. |
| PoolModel.BlocksConserved | infrared_module/rt-thread/src/mempool.c:303-449 | In every run free and live blocks are all blocks of the pool, each once. |
| PoolModel.AllocFreeRestores | infrared_module/rt-thread/src/mempool.c:303-449 | Allocating and giving back a block nobody waits for leaves the pool as it was. |
| PoolOrder.AllocAnswers | infrared_module/rt-thread/src/mempool.c:303-394 | In any reachable state an allocation takes the first free block, fails at once without changing anything if there is none and it has no time, and otherwise waits, in front of all that wait already. |
| PoolOrder.WokenAllocator | infrared_module/rt-thread/src/mempool.c:317-372 | A woken thread that finds no free block waits on if and only if it waits for ever or fewer ticks than its time have passed, with the rest of it, and gets NULL otherwise. |
| PoolOrder.NewestIsWoken | infrared_module/rt-thread/src/mempool.c:416-443 | After every run a block given back wakes, of the waiting threads, exactly the one that began to wait last, and the others keep their order; nothing else wakes anybody. |
| MemPool.MemoryPool.constructor | infrared_module/rt-thread/src/mempool.c:77-124 | Initialisation threads all blocks onto the free list through their headers. |
| MemPool.MemoryPool.Alloc | infrared_module/rt-thread/src/mempool.c:303-391 | The first section of rt_mp_alloc on the threaded free list is the model's step. |
| MemPool.MemoryPool.AllocAgain | infrared_module/rt-thread/src/mempool.c:319-391 | The section a woken allocator runs is the corresponding step. |
| MemPool.MemoryPool.Free | infrared_module/rt-thread/src/mempool.c:399-449 | rt_mp_free finds the pool through the header, puts the block first on the free list and wakes one allocator. |
| MemPool.MemoryPool.TimeoutOf | infrared_module/rt-thread/src/thread.c:858-880 | A timeout takes the thread off the list and its call fails. |
| EventModel.NoneStranded | infrared_module/rt-thread/src/ipc.c:1101-1160 | In every run no suspended thread's AND or OR condition holds for the events that are set, and every suspended thread asked for AND or OR. |
| EventModel.SendAccounts | infrared_module/rt-thread/src/ipc.c:1101-1160 | In one send every event set before or sent now is afterwards either still set or with one CLEAR receiver; what a CLEAR receiver got nobody after it gets; each receiver gets its full AND mask or a non-empty OR part; and each waiter is either served or still waits. |
| EventModel.WokenIsServed | infrared_module/rt-thread/src/ipc.c:1285-1304 | In every run a thread woken by a send returns with what satisfied it, whatever happened in between. |
| EventModel.ReceivedAtOnce | infrared_module/rt-thread/src/ipc.c:1217-1257 | A receive returns at once exactly when its condition holds; it then gets events that satisfy it and clears exactly those, if asked to; with time 0 and an unmet condition nothing changes. |
| EventModel.ServedInOrder | infrared_module/rt-thread/src/ipc.c:1108-1155 | A waiter is served exactly when its condition is met by what those in front of it have left. |
| EventOrder.EventAnswers | infrared_module/rt-thread/src/ipc.c:1186-1290 | A send of no events and a receive for none are refused without effect; a receive that is not met and has time joins the waiters with its request. |
| EventOrder.MetIs | infrared_module/rt-thread/src/ipc.c:1216-1226 | A request is met if all events of its mask are set for AND, any of them for OR; AND decides if both are given. |
| EventOrder.EventCallsEnd | infrared_module/rt-thread/src/ipc.c:1317-1345 | A woken thread takes its delivery with it and leaves the set alone; a timeout ends one call; a reset clears all events and ends exactly the calls of those that wait. |
| EventOrder.GivenExactly | infrared_module/rt-thread/src/ipc.c:1108-1160 | Each waiter that is met is given exactly all of its mask for AND, and for OR every event of its mask that those in front of it have left. |
| EventOrder.EventByArrival | infrared_module/rt-thread/src/ipc.c:83-129 | In every run the list that a send walks along holds the waiters by arrival for a FIFO set, and by priority and then by arrival for a PRIO set. |
| Event.EventSet.constructor | infrared_module/rt-thread/src/ipc.c:967-985 | No events and nobody waiting. |
| Event.EventSet.Send | infrared_module/rt-thread/src/ipc.c:1081-1170 | The walk along the waiters, with its removals and clearing at the end, is the model's send step. |
| Event.EventSet.Recv | infrared_module/rt-thread/src/ipc.c:1186-1283 | The first section of rt_event_recv is the model's step, the error for an empty mask included. |
| Event.EventSet.RecvAgain | infrared_module/rt-thread/src/ipc.c:1285-1305 | The last section of a receive that waited. |
| Event.EventSet.TimeoutOf | infrared_module/rt-thread/src/thread.c:858-880 | A timeout takes the thread off the list and its call fails. |
| Event.EventSet.ResetSet | infrared_module/rt-thread/src/ipc.c:1317-1345 | A reset ends all waiting calls and clears all events. |
| MutexModel.OwnershipAgrees | infrared_module/rt-thread/src/ipc.c:697-923 | In every run of takes, recursive takes, releases and timeouts: value is 1 exactly when there is no owner, exactly when hold is 0; waiters imply an owner; hold is what the owner was granted and has not released, and everybody else has nothing. |
| MutexModel.OwnerOutranksWaiters | infrared_module/rt-thread/src/ipc.c:755-767 | In every run the owner's priority is no lower than any waiter's, and is exactly the highest of its own and of all that have waited since it became owner. |
| MutexModel.ReleaseRestores | infrared_module/rt-thread/src/ipc.c:854-923 | A full release puts every thread back at its priority at acquisition; the mutex goes to the waiter of highest priority that has waited longest among its equals, with hold 1. |
| MutexModel.TakeReleaseRestores | infrared_module/rt-thread/src/ipc.c:697-923 | An uncontended take and a full release leave the mutex as it was. |
| MutexModel.TakeOutcome | infrared_module/rt-thread/src/ipc.c:697-807 | Exactly when a take is granted (and hold grows by one), refused at the 255th hold, refused for time, or blocked. |
| MutexModel.TakeLeaves | infrared_module/rt-thread/src/ipc.c:670-815 | A take that fails changes nothing; one that waits leaves owner, hold and value as they were, and its thread joins the list with the time it asked for. |
| MutexModel.ReleaseOutcome | infrared_module/rt-thread/src/ipc.c:826-932 | Only the owner can release; a release that is not its last takes one hold off and changes nothing else; a timeout takes its thread out of the list and changes nothing else. |
| MutexModel.RaiseLasts | infrared_module/rt-thread/src/ipc.c:755-762 | While the mutex has the same owner its priority is never lowered. |
| MutexModel.OwnerIsRaisedByContenders | infrared_module/rt-thread/src/ipc.c:755-767 | In every run, whenever the mutex is owned and whether or not anybody still waits, the owner's priority is exactly the highest of its own and of all that have waited since it became owner. |
| MutexModel.TimeoutFits | infrared_module/rt-thread/src/thread.c:858-880 | If the owner's priority fits those who wait (it is the highest of its own and theirs), it still does after a waiter has timed out if and only if the waiter's priority is not above the owner's own, or another waiter's is as high. |
| MutexModel.FitsWhenMatched | infrared_module/rt-thread/src/ipc.c:755-767 | At any time the owner's priority fits those who wait if and only if each thread that has waited is matched by the owner's own priority or by a thread that waits now. |
| MutexModel.TimeoutKeepsRaise | infrared_module/rt-thread/src/thread.c:858-880 | The input for which it does not fit: the only waiter, of higher priority than the owner, times out, and the owner keeps the priority lent to it. |
| Mutex.PriorityMutex.constructor | infrared_module/rt-thread/src/ipc.c:546-566 | A free mutex among threads with the given priorities. |
| Mutex.PriorityMutex.Take | infrared_module/rt-thread/src/ipc.c:670-815 | rt_mutex_take on the mutex's and the threads' fields is the model's step, inheritance included. |
| Mutex.PriorityMutex.Release | infrared_module/rt-thread/src/ipc.c:826-933 | rt_mutex_release is the model's step, the error for a thread that is not the owner included. |
| Mutex.PriorityMutex.TimeoutOf | infrared_module/rt-thread/src/thread.c:858-880 | A timeout takes the thread off the list and its call fails. |
| TimerModel.FiresExactly | infrared_module/rt-thread/src/timer.c:529-594 | In every run with a check on every tick, whatever threads and timeout functions do: each firing is at exactly the tick asked for by the start before it, and a timer is in the list exactly while it has been started and has neither fired nor been stopped since; that tick is then still to come. |
| TimerRuns.FiresAfterItsDelay | infrared_module/rt-thread/src/timer.c:315-594 | From any point of any run: a timer started at tick n, set to d ticks and touched by nobody afterwards, fires at n + d and at no other tick if it is one-shot; and at n + d, n + 2d, n + 3d and so on and at no other tick if it is periodic. |
| TimerModel.StartSets | infrared_module/rt-thread/src/timer.c:331-433 | A start, of a pending timer or not, periodic or one-shot, makes it pending for as many ticks from now as it is set to, last among those due then, and leaves all other timers as they were. |
| TimerModel.StopSets | infrared_module/rt-thread/src/timer.c:438-463 | A stop leaves the timer pending no more and inactive, whatever it was doing, and leaves all other timers as they were. |
| TimerModel.ControlSets | infrared_module/rt-thread/src/timer.c:485-497 | A time that is set counts from the next start; a pending timer keeps its tick. |
| TimerModel.StartedByTimeout | infrared_module/rt-thread/src/timer.c:562-572 | What a timeout function starts, and leaves alone afterwards, is pending when it returns, for the time the timer was then set to. |
| TimerModel.TickFiresDue | infrared_module/rt-thread/src/clock.c:62-89 | A pending timer nobody touches is passed over on every earlier tick and fires on its own. |
| TimerModel.FiresInOrder | infrared_module/rt-thread/src/timer.c:541-590 | Within one check timers fire in due order, ties in start order, and only timers that were due when the check began. |
| TimerModel.DueTimerFires | infrared_module/rt-thread/src/timer.c:541-590 | Every due timer that no timeout function touches fires in this check; a periodic one is then pending for exactly one period later, a one-shot one not at all. |
| TimerModel.Check | infrared_module/rt-thread/src/timer.c:529-594 | The loop of rt_timer_check ends, by the number of due timers, and leaves nothing due and the invariant kept, whatever the timeout functions start and stop. |
| TimerModel.FireLeavesFewer | infrared_module/rt-thread/src/timer.c:550-586 | One turn of the loop takes the first timer off the due ones and makes none due. |
| TimerModel.FlagAfterFiring | infrared_module/rt-thread/src/timer.c:556-585 | After a firing the ACTIVATED flags agree with the list, if and only if it is not the case that the timeout function of a periodic timer made that timer one-shot without starting or stopping it. |
| TimerModel.FlagAfterCall | infrared_module/rt-thread/src/timer.c:315-520 | Outside a check no call makes a flag disagree with the list. |
| SkipList.InsertStacked | infrared_module/rt-thread/src/timer.c:357-406 | For any number of rows and any height: after an insertion every row is a subsequence of the row below, and the bottom row is what plain sorted insertion, ties last, makes of it. |
| SkipList.RemoveStacked | infrared_module/rt-thread/src/timer.c:136-144 | A removal keeps the rows nested and takes exactly that timer out of the bottom row. |
| SysTimer.LaterTick | infrared_module/rt-thread/src/timer.c:371-381 | The comparison of 32-bit ticks orders two due times less than 2^31 ticks apart as unbounded time does. |
| SysTimer.TickReached | infrared_module/rt-thread/src/timer.c:548-552 | The 32-bit comparison of the check tells exactly whether a timer due less than 2^31 ticks ahead has been reached. |
| SysTimer.TimerList.constructor | infrared_module/rt-thread/src/timer.c:724-732 | Empty rows and timers that have been initialised but not started. |
| SysTimer.TimerList.FindPlaces | infrared_module/rt-thread/src/timer.c:357-385 | The search down the rows, from each row's last node to the same timer's node in the next, ends in every row at the place where sorted insertion puts the timer. |
| SysTimer.TimerList.InsertNodes | infrared_module/rt-thread/src/timer.c:391-406 | The random counter's bits decide how many upper rows get the timer, and the rows become those of the specification. |
| SysTimer.TimerList.RemoveNode | infrared_module/rt-thread/src/timer.c:136-144 | The timer's nodes are taken out of all rows, and out of the temporary list. |
| SysTimer.TimerList.Start | infrared_module/rt-thread/src/timer.c:315-428 | rt_timer_start on rows and wrapping ticks is the start of the model on unbounded time. |
| SysTimer.TimerList.Stop | infrared_module/rt-thread/src/timer.c:438-462 | rt_timer_stop is the stop of the model, and fails exactly when the timer was not ACTIVATED. |
| SysTimer.TimerList.TimerCheck | infrared_module/rt-thread/src/timer.c:529-594 | rt_timer_check with arbitrary timeout functions, which may start, stop and change any timer, the firing one included, is the check of the model. |
| SysTimer.TimerList.TickIncrease | infrared_module/rt-thread/src/clock.c:62-89 | The timer part of rt_tick_increase: counting rt_tick, across its wrap, and the check are one tick of the model. |
| SchedModel.QueuesAgree | infrared_module/rt-thread/src/scheduler.c:409-826 | In every run of scheduler and thread operations: bit p is set exactly when queue p has threads; a thread is in queue p exactly when it is READY with priority p, once; the current thread is in no queue and no other thread is RUNNING. |
| SchedModel.SStepKeeps | infrared_module/rt-thread/src/thread.c:105-880 | Every single operation keeps that agreement. |
| SchedModel.HighestRuns | infrared_module/rt-thread/src/scheduler.c:409-529 | After rt_schedule with the scheduler unlocked and a thread ready, the current thread is RUNNING and no READY thread outranks it. |
| SchedModel.ScheduleQueues | infrared_module/rt-thread/src/scheduler.c:419-475 | What rt_schedule does to each queue: the first of the highest queue leaves it for the processor, and a thread that loses the processor while RUNNING goes to the end of its own queue; or nothing moves. |
| SchedModel.LockHolds | infrared_module/rt-thread/src/scheduler.c:872-961 | While the scheduler is locked rt_schedule does nothing, and leaving the last critical section catches up on it. |
| SchedModel.YieldRotates | infrared_module/rt-thread/src/thread.c:508-521 | A yield sends the current thread behind all its peers, runs the first of them, and leaves every other queue alone. |
| SchedModel.RoundRobin | infrared_module/rt-thread/src/thread.c:508-521 | n yields among n peers run each of them once before any runs again, and end in the same order with the same thread running. |
| SchedModel.ClosedForGood | infrared_module/rt-thread/src/thread.c:358-497 | A thread that was deleted, detached or has exited stays closed through every operation and never gets the processor again. |
| SchedEffects.DeleteCloses | infrared_module/rt-thread/src/thread.c:358-497 | A thread that is deleted or detached, whatever it was doing, is CLOSED and in no queue; every other thread is unchanged and every queue is the old one without it, in the same order. |
| SchedEffects.ExitGivesWay | infrared_module/rt-thread/src/thread.c:105-141 | A thread that exits is CLOSED; with the scheduler unlocked and a thread ready it is no longer the current one, and the first of the highest ready threads runs. |
| SchedEffects.ScheduleThreads | infrared_module/rt-thread/src/scheduler.c:409-529 | rt_schedule changes no priority, and no state but those of the thread that gets the processor, from READY to RUNNING, and of the one that loses it while running, from RUNNING to READY. |
| SchedEffects.IdleIsReplaced | infrared_module/rt-thread/src/scheduler.c:419-475 | A current thread that does not run any more is replaced by the first of the highest ready threads. |
| SchedEffects.BeginRuns | infrared_module/rt-thread/src/scheduler.c:237-262 | The scheduler starts with the first of the highest ready threads, which leaves its queue and runs. |
| SchedEffects.SuspendSets | infrared_module/rt-thread/src/thread.c:766-805 | A ready or running thread that is suspended is in no queue, and nothing else changes; any other is refused without effect. |
| SchedEffects.ResumeSets | infrared_module/rt-thread/src/thread.c:815-850 | A suspended thread that is resumed is READY behind all others of its priority, and nothing else changes; any other is refused without effect. |
| SchedEffects.PrioritySets | infrared_module/rt-thread/src/thread.c:673-713 | A change of priority gives the thread the new number and nothing else, and puts a ready thread last in the queue of the new priority. |
| SchedEffects.StartupSets | infrared_module/rt-thread/src/thread.c:315-349 | A thread that is started has the priority it was initialised with and is READY behind all others of it; a scheduling follows. |
| SchedEffects.TimeoutRuns | infrared_module/rt-thread/src/thread.c:858-880 | A thread whose time runs out runs at once if it outranks the current thread and all that are ready. |
| SchedEffects.EnterLeave | infrared_module/rt-thread/src/scheduler.c:872-961 | Entering and leaving a critical section changes nothing, except that leaving the outermost one schedules. |
| Scheduler.SystemScheduler.constructor | infrared_module/rt-thread/src/scheduler.c:182-230 | Empty queues, an empty bitmap, no current thread. |
| Scheduler.SystemScheduler.GetHighestPriorityThread | infrared_module/rt-thread/src/scheduler.c:153-175 | The search by the bitmap finds the first thread of the highest non-empty queue. |
| Scheduler.SystemScheduler.InsertThread | infrared_module/rt-thread/src/scheduler.c:699-733 | The current thread becomes RUNNING and stays out of the queues; any other becomes READY and last in the queue of its priority, whose bit is set. |
| Scheduler.SystemScheduler.RemoveThread | infrared_module/rt-thread/src/scheduler.c:796-826 | The thread leaves its queue, and the bit is cleared if the queue is empty now. |
| Scheduler.SystemScheduler.DoSchedule | infrared_module/rt-thread/src/scheduler.c:409-529 | rt_schedule on the table, bitmap and states is the schedule step of the model. |
| Scheduler.SystemScheduler.Start | infrared_module/rt-thread/src/scheduler.c:237-261 | The first switch. |
| Scheduler.SystemScheduler.Startup | infrared_module/rt-thread/src/thread.c:315-347 | rt_thread_startup is the model's step. |
| Scheduler.SystemScheduler.SuspendThread | infrared_module/rt-thread/src/thread.c:766-805 | rt_thread_suspend is the model's step, refused unless the thread is READY or RUNNING. |
| Scheduler.SystemScheduler.ResumeThread | infrared_module/rt-thread/src/thread.c:815-849 | rt_thread_resume is the model's step, refused unless the thread is suspended. |
| Scheduler.SystemScheduler.ThreadTimeout | infrared_module/rt-thread/src/thread.c:858-880 | rt_thread_timeout makes the thread ready and schedules. |
| Scheduler.SystemScheduler.YieldNow | infrared_module/rt-thread/src/thread.c:508-521 | rt_thread_yield is the model's step. |
| Scheduler.SystemScheduler.ChangePriority | infrared_module/rt-thread/src/thread.c:673-714 | A READY thread moves to the queue of its new priority; any other thread only gets the new number. |
| Scheduler.SystemScheduler.DeleteThread | infrared_module/rt-thread/src/thread.c:358-497 | rt_thread_delete and rt_thread_detach take the thread out of its queue and close it. |
| Scheduler.SystemScheduler.ExitThread | infrared_module/rt-thread/src/thread.c:105-141 | rt_thread_exit closes the current thread and schedules another. |
| Scheduler.SystemScheduler.EnterCritical | infrared_module/rt-thread/src/scheduler.c:872-887 | The nesting level grows by one; nothing else changes. |
| Scheduler.SystemScheduler.ExitCritical | infrared_module/rt-thread/src/scheduler.c:936-961 | The nesting level falls, and the last exit schedules. |
| TimeSlice.SlicesInTurn | infrared_module/rt-thread/src/clock.c:73-85 | Round robin by time: among n peers the j-th has the processor once those in front of it have used up what was left of their slices, to the tick; they then have full slices again, and after all n the order is as before. |
| Slices.EndOfSlice | infrared_module/rt-thread/src/clock.c:73-85 | The current thread goes on for all but the last tick of its slice, and with that one yields and gets a full slice for its next turn. |
| TimeSlice.SlicedScheduler.constructor | infrared_module/rt-thread/src/thread.c:186-187 | Every thread begins with a full slice. |
| TimeSlice.SlicedScheduler.TickIncrease | infrared_module/rt-thread/src/clock.c:73-85 | The slice part of rt_tick_increase, the wrap of remaining_tick included, is the tick of the model. |
| TimeSlice.SlicedScheduler.YieldTurn | infrared_module/rt-thread/src/thread.c:508-521 | rt_thread_yield also fills up the slice. |
| Dispatch.WakeDecides | infrared_module/rt-thread/src/scheduler.c:419-475 | When a thread is resumed and rt_schedule runs, with the scheduler unlocked and nobody ready above the running thread: the woken thread has the processor if it outranks the running one, and otherwise that one goes on unless it has yielded to its equals; either way neither is lost. |
| Dispatch.CarryTies | infrared_module/rt-thread/src/thread.c:766-849 | Suspending the caller, resuming waiters or timing one out, each with rt_schedule, keep waiters suspended and woken threads ready or running. |
| MailboxDispatch.WokenIsReady | infrared_module/rt-thread/src/ipc.c:1541-1787 | In every run of mailbox and scheduler together, each section run by the thread that has the processor: a waiting thread is suspended; a woken one is in the ready queue of its priority, or runs; and while a receiver waits and a mail is stored there is such a woken receiver, which gets the oldest mail. |
| MailboxDispatch.SendHandsOver | infrared_module/rt-thread/src/ipc.c:1603-1632 | A send while receivers wait wakes the first: from a settled scheduler it has the processor when the call returns if it outranks the sender, and its next section gets the oldest mail; otherwise the sender goes on, unless it has yielded. |
| QueueDispatch.WokenIsReady | infrared_module/rt-thread/src/ipc.c:2098-2476 | The same in every run of a message queue and the scheduler together, where calls may also be preempted while they copy. |
| QueueDispatch.LinkHandsOver | infrared_module/rt-thread/src/ipc.c:2171-2208 | Linking a message while receivers wait hands the processor to the first of them if and only if it outranks the sender (a sender that has not yielded), and its next section takes the head. |
| PoolDispatch.WokenIsReady | infrared_module/rt-thread/src/mempool.c:319-449 | The same in every run of a memory pool and the scheduler together. |
| PoolDispatch.FreeHandsOver | infrared_module/rt-thread/src/mempool.c:415-449 | A free while threads wait hands the processor to the one woken if it outranks the running thread, which otherwise goes on. |
| PageRuns.SamePagesSameRuns | infrared_module/rt-thread/src/slab.c:272-322 | Two address-sorted, fully coalesced run lists with the same free pages are the same list. |
| PageRuns.AllocIsLowest | infrared_module/rt-thread/src/slab.c:236-270 | rt_page_alloc takes the lowest stretch of n free pages and exactly those pages, keeps the list sorted and coalesced, and fails exactly when there is no such stretch. |
| PageRuns.FreeAdds | infrared_module/rt-thread/src/slab.c:272-322 | rt_page_free adds exactly the named pages and keeps the list sorted, disjoint and coalesced. |
| PageRuns.AllocFreeRestores | infrared_module/rt-thread/src/slab.c:236-322 | Freeing what was just allocated restores the identical list. |
| PageRuns.FreesCommute | infrared_module/rt-thread/src/slab.c:272-322 | Two disjoint stretches may be freed in either order with the same list. |
| PageLedger.HeldDetermines | infrared_module/rt-thread/src/slab.c:236-322 | The page list is determined by the blocks that are handed out. |
| PageLedger.RunShares | infrared_module/rt-thread/src/slab.c:236-322 | In every run that frees only what it was given, each page is free or in exactly one block handed out. |
| PageLedger.RunsWithSameBlocks | infrared_module/rt-thread/src/slab.c:236-322 | Two runs that leave the same blocks handed out leave the identical page list, whatever the order of calls. |
| PageLedger.FreshHeap | infrared_module/rt-thread/src/slab.c:327-334 | rt_page_init, which frees all pages into an empty list, makes one run of them. |
| Pages.PageAllocator.constructor | infrared_module/rt-thread/src/slab.c:327-334 | The linked list after rt_page_init spells that one run. |
| Pages.PageAllocator.FindSlot | infrared_module/rt-thread/src/slab.c:286-313 | The walk of rt_page_free ends at the slot that the specification names. |
| Pages.PageAllocator.PageAlloc | infrared_module/rt-thread/src/slab.c:236-270 | On page headers and links: rt_page_alloc for every count, 0 included, is the allocation of the specification. |
| Pages.PageAllocator.PageFree | infrared_module/rt-thread/src/slab.c:272-322 | On page headers and links: rt_page_free, in each of its merging cases, is the free of the specification. |
| ZoneModel.SmallestChunk | infrared_module/rt-thread/src/slab.c:401-459 | Every request from 1 to 16383 bytes gets the smallest chunk size that holds it, and the index of that size. |
| ZoneModel.LittleIsLost | infrared_module/rt-thread/src/slab.c:401-459 | At most 7 bytes, or less than an eighth of the request, is lost to rounding. |
| ZoneModel.RoundedStays | infrared_module/rt-thread/src/slab.c:716-725 | A rounded request keeps its index and size when it is rounded again, if and only if it was at most 15360 bytes. |
| ZoneModel.SmearTest | infrared_module/rt-thread/src/slab.c:635-638 | The test on the chunk size singles out exactly the powers of two. |
| ZoneModel.NewZoneFits | infrared_module/rt-thread/src/slab.c:625-648 | A new zone holds at least three chunks, all behind its header and inside its pages. |
| ZoneModel.NewZoneIsFull | infrared_module/rt-thread/src/slab.c:635-655 | One chunk more would not fit the zone, neither behind the last one nor, at the alignment, in front of the first; and the first chunk is live. |
| ZoneModel.FreeOrLive | infrared_module/rt-thread/src/slab.c:543-568 | Free and live chunks of a zone add up to all of them, and a zone with free chunks always has one to hand out where the code looks for it. |
| ZoneModel.TakeKeepsBooks | infrared_module/rt-thread/src/slab.c:543-568 | Taking a chunk, never used or from the free chunks, keeps the zone's books, and the chunk was not live. |
| ZoneModel.PutKeepsBooks | infrared_module/rt-thread/src/slab.c:825-842 | So does putting a live chunk back. |
| ZoneModel.PowerAligned | infrared_module/rt-thread/src/slab.c:631-638 | Chunks of a power-of-two size are aligned to their size if and only if the zone is. |
| ZoneModel.LargeChunkMisaligned | infrared_module/rt-thread/src/slab.c:152-153 | With the heap start aligned to 8192, no 8192-byte chunk of a zone at the second page is aligned to 8192. |
| SlabModel.RunKeepsBooks | infrared_module/rt-thread/src/slab.c:478-904 | After every run each zone's z_nfree is its never-used chunks plus its free-chunk list, free and live chunks are all chunks, the zone is on the list of its size class exactly when it has a free chunk, and a retired zone holds nothing live. |
| SlabModel.MallocKeeps | infrared_module/rt-thread/src/slab.c:478-667 | A malloc keeps the books and adds exactly one live allocation of at least the size asked for; it fails exactly when the size is 0, or no chunk is ready and no stretch of pages is free, and then nothing changes. |
| SlabModel.FreedKeeps | infrared_module/rt-thread/src/slab.c:771-904 | A free recovers the right zone or page count from the page map, ends exactly the named allocation, keeps the books, and leaves no more than the threshold of retired zones. |
| SlabEffects.SmallServes | infrared_module/rt-thread/src/slab.c:535-672 | A small request is served from the first listed zone of its class; with none listed from the zone retired last; and only with none retired from new pages; it gets exactly its chunk size. |
| SlabEffects.LargeServes | infrared_module/rt-thread/src/slab.c:493-517 | A large request gets whole pages and leaves all zones alone. |
| SlabEffects.FreeRetires | infrared_module/rt-thread/src/slab.c:854-901 | A zone is retired if and only if the freed chunk was its last live one and another zone of its class has chunks to hand out; with two zones retired already its pages go back instead. |
| SlabEffects.FreePages | infrared_module/rt-thread/src/slab.c:797-819 | The pages of a large allocation go back, and no zone changes. |
| SlabModel.LiveApart | infrared_module/rt-thread/src/slab.c:478-667 | Live allocations, chunks and large ones alike, do not overlap. |
| SlabModel.LiveAligned | infrared_module/rt-thread/src/slab.c:478-667 | Live allocations are aligned to 8 bytes. |
| SlabModel.TakeFails | infrared_module/rt-thread/src/slab.c:236-270 | The page allocator fails exactly when nowhere are so many pages free in a row. |
| SlabModel.TopIsPeak | infrared_module/rt-thread/src/slab.c:515-519 | After every run max_mem is the largest used_mem there has been. |
| SlabModel.PageMapFits | infrared_module/rt-thread/src/slab.c:388-391 | The page map of any heap within 32 bits is found at the first page of the heap. |
| Slab.SlabHeap.constructor | infrared_module/rt-thread/src/slab.c:344-395 | The zone size is the power of two the code computes from the heap size, and nothing is live. |
| Slab.SlabHeap.Malloc | infrared_module/rt-thread/src/slab.c:478-667 | rt_malloc on page lists, zone headers, chunk lists and page map is the malloc of the model, in all branches. |
| Slab.SlabHeap.Free | infrared_module/rt-thread/src/slab.c:771-904 | rt_free of a live allocation is the free of the model, the retiring and releasing of zones included. |
| MemHeapModel.RunKeepsPool | infrared_module/rt-thread/src/memheap.c:138-595 | After every run: blocks lie one behind the other with matching links, the free list holds exactly the unused blocks, no two unused blocks are neighbours, available_size is the sum of their data, and headers and data are the whole pool. |
| MemHeapModel.AllocKeeps | infrared_module/rt-thread/src/memheap.c:138-281 | An allocation keeps the pool in order and hands out a block not used before, of at least the aligned size and not much more; NULL means that the aligned size is not below what is available, or no unused block is large enough, and changes nothing. |
| MemHeapModel.AllocCovers | infrared_module/rt-thread/src/memheap.c:147-150 | The block handed out holds the size asked for if and only if RT_ALIGN does not wrap, which it does for the three largest sizes. |
| MemHeapModel.FreeKeeps | infrared_module/rt-thread/src/memheap.c:495-595 | A free merges with unused neighbours on both sides and takes exactly that block out of use; every other used block stays as it is. |
| MemHeapModel.ReallocKeeps | infrared_module/rt-thread/src/memheap.c:284-492 | A reallocation whose test decides rightly keeps the pool in order, yields a block of at least the aligned new size in place or elsewhere, or NULL and no change, and touches no other used block. |
| MemHeapModel.ReallocAsRun | infrared_module/rt-thread/src/memheap.c:284-492 | A reallocation has the effect of a resize in place, of an allocation followed by a free, or of nothing, according to its result. |
| MemHeapEffects.AllocIsFirstFit | infrared_module/rt-thread/src/memheap.c:163-183 | An allocation gets the first block of the free list that is large enough. |
| MemHeapEffects.ReallocIsTight | infrared_module/rt-thread/src/memheap.c:314-480 | A reallocation never leaves a block with more than a header and the smallest block above the aligned size: larger ones are cut, smaller ones enlarged or moved. |
| MemHeapEffects.ReallocMovesWhen | infrared_module/rt-thread/src/memheap.c:314-415 | The block stays where it is if and only if it is large enough or the unused block behind it gives enough; otherwise it goes where an allocation would, or nowhere if that is refused. |
| MemHeapEffects.ReallocEnds | infrared_module/rt-thread/src/memheap.c:294-307 | A reallocation to size 0 frees exactly that block, and one of NULL is an allocation. |
| MemHeapModel.ResizeIsExact | infrared_module/rt-thread/src/memheap.c:350-392 | With the address of the new header computed in 32 bits, a resize keeps the pool in order if and only if the sum in the test for growing does not wrap, or the next block is used, or the room in both blocks is at most the wrapped sum. |
| MemHeapModel.GrowTestIsRight | infrared_module/rt-thread/src/memheap.c:350 | The test for growing agrees with the comparison of unbounded numbers if and only if its sum does not wrap or the room is at most the wrapped sum. |
| MemHeapModel.FitsYetRefused | infrared_module/rt-thread/src/memheap.c:155 | Where some unused block is large enough, a request is refused exactly if it is for all that is available. |
| MemHeapModel.FreshRefusesAll | infrared_module/rt-thread/src/memheap.c:155 | A pool from which nothing was taken refuses a request for the whole of its one block. |
| MemHeapModel.TopIsPeak | infrared_module/rt-thread/src/memheap.c:231-242 | After every run max_used_size is the running maximum of the pool size less available_size. |
| MemHeapModel.UsedApart | infrared_module/rt-thread/src/memheap.c:138-281 | The data of used blocks does not overlap. |
| MemHeapModel.HeadersOutsideData | infrared_module/rt-thread/src/memheap.c:138-281 | No header lies in the data of a block. |
| MemHeapModel.FreshInv | infrared_module/rt-thread/src/memheap.c:50-121 | The initialised pool, one unused block and the tail, is in order. |
| MemHeap.Heap.constructor | infrared_module/rt-thread/src/memheap.c:50-121 | rt_memheap_init builds that pool on the size aligned down. |
| MemHeap.Heap.Alloc | infrared_module/rt-thread/src/memheap.c:138-281 | rt_memheap_alloc on the links of both lists is the allocation of the model. |
| MemHeap.Heap.Free | infrared_module/rt-thread/src/memheap.c:495-595 | rt_memheap_free, of a used block or NULL, is the free of the model. |
| MemHeap.Heap.Realloc | infrared_module/rt-thread/src/memheap.c:284-492 | rt_memheap_realloc, of NULL or a used block, growing or shrinking in place or moving, is the reallocation of the model, which allocates for NULL and frees for size 0; the first min(old, new) bytes are in the block returned, and the data of other used blocks is unchanged. |
| MemHeap.Heap.CopyBytes | infrared_module/rt-thread/src/kservice.c:210-280 | The copy carries every byte over and changes nothing outside the destination. |
| Beginnings.MailboxIsEmpty | infrared_module/rt-thread/src/ipc.c:1362-1390 | A new mailbox has nothing to receive and room for a mail if it has slots at all. |
| Beginnings.QueueIsEmpty | infrared_module/rt-thread/src/ipc.c:1862-1912 | A new queue has nothing to receive and every node to be had. |
| Beginnings.PoolIsFull | infrared_module/rt-thread/src/mempool.c:77-124 | A new pool has every block free and hands out the first of them first. |
| Beginnings.NoEventIsSet | infrared_module/rt-thread/src/ipc.c:967-985 | A new event set meets no receive. |
| Beginnings.NobodyIsReady | infrared_module/rt-thread/src/scheduler.c:182-229 | No thread is ready at first, and the first that is started is alone in its queue. |
| Beginnings.HeapServes | infrared_module/rt-thread/src/memheap.c:50-115 | A new memory heap has all but two headers available and serves exactly the requests that are smaller. |
| Beginnings.SlabIsUnused | infrared_module/rt-thread/src/slab.c:344-399 | A new slab heap has nothing in use but the pages of its page map. |
| Wcs.ResultIsExact | infrared_module/rt-thread/tools/WCS.py:245-299 | For every function with a result: it is unbounded exactly when the function can reach recursion or a call through a pointer; otherwise the number is the largest sum of local stacks over its call paths, and the unresolved names are those of all functions it can reach. |
| Wcs.OrderDoesNotMatter | infrared_module/rt-thread/tools/WCS.py:245-299 | Two analyses of graphs that differ only in the order of the call lists, visited in any order, agree on every function. |
| Wcs.DeepestPath | infrared_module/rt-thread/tools/WCS.py:283-290 | Some call path attains the number. |
| CallGraph.ChainCloses | infrared_module/rt-thread/tools/WCS.py:264-267 | A call to a function on the chain of callers closes a cycle. |
| Wcs.Analysis.constructor | infrared_module/rt-thread/tools/WCS.py:223-242 | The graph after resolve_all_calls, with the functions of manual files already given their results. |
| Wcs.Analysis.CalcWcs | infrared_module/rt-thread/tools/WCS.py:246-290 | The recursive search ends on every finite call graph, gives its function a result, keeps all earlier results, and gives a caller on the chain a result only if caller and function are both unbounded. |
| Wcs.Analysis.CalcAll | infrared_module/rt-thread/tools/WCS.py:245-299 | After the analysis, over the functions in any order, every function has the exact result. |
| ModbusCrc.AcceptedIffZero | infrared_module/applications/Uart/Uart.c:98-101 | A frame passes the check exactly when the CRC over all of it, trailer included, is 0. |
| ModbusCrc.BuiltFramePasses | infrared_module/applications/Uart/module.c:48-49 | Any body followed by the low and the high byte of its CRC passes the check. |
| ModbusDivision.CrcIsRemainder | infrared_module/applications/main.c:65-85 | The CRC of a message of any length is the remainder of the message times x^16, with its first 16 bits complemented, on division by x^16 + x^15 + x^2 + 1. |
| ModbusDivision.CrcByDivision | infrared_module/applications/main.c:65-85 | A value is the CRC of a message if and only if the message, changed so, differs from it by a multiple of the polynomial. |
| ModbusDivision.ZerosAreRefused | infrared_module/applications/main.c:68 | No frame of zero bytes passes, whatever its length: the register does not start at 0. |
| ModbusDivision.CrcOfCommand | infrared_module/applications/main.c:65-85 | The CRC of the bytes 02 07 is 0x1241. |
| ModbusDivision.CrcOfDigits | infrared_module/applications/main.c:65-85 | The CRC of the digits 1 to 9 is 0x4B37. |
| PolyDivision.RemainderIs | infrared_module/applications/main.c:65-85 | The remainder of a long division is the one polynomial of lower degree than the divisor that differs from the dividend by a multiple of the divisor. |
| PolyDivision.RegisterDivides | infrared_module/applications/main.c:70-83 | A register that shifts, and takes the polynomial away when the bit that leaves differs from the one that comes in, ends with that remainder, for any initial value and any bits. |
| ModbusErrors.BurstsFound | infrared_module/applications/Uart/Uart.c:98-101 | Any change within 16 successive bits of a passing frame of any length, also one spread over three bytes, the trailer included, makes it fail. |
| ModbusErrors.AdjacentErrorsFound | infrared_module/applications/Uart/Uart.c:98-101 | So does any change within two adjacent bytes. |
| ModbusErrors.OddErrorsFound | infrared_module/applications/Uart/Uart.c:98-101 | Any odd number of wrong bits in a passing frame of any length, wherever they are, makes it fail. |
| ModbusErrors.PassesIfEven | infrared_module/applications/main.c:65-85 | Every passing frame, trailer included, has an even number of set bits. |
| BitStream.FeedIsTakeBits | infrared_module/applications/main.c:65-85 | Taking in a frame byte by byte, as the code does, is taking in its bits one by one, the lowest of each byte first. |
| ModbusCrc.TrailerClears | infrared_module/applications/main.c:65-85 | Two more bytes bring the register to 0 exactly when they are its low and its high byte. |
| ModbusCrc.ComputeCrc | infrared_module/applications/main.c:65-85 | The nested loops compute the CRC of the bytes: the shift register with the reversed polynomial 0xA001 started at all ones. |
| ModbusCrc.CheckFrame | infrared_module/applications/Uart/Uart.c:87-109 | Uart1_input accepts exactly the frames of at least two bytes that begin with the registration code or the address of the module and whose trailer is their CRC. |
| ModbusCrc.AppendCrc | infrared_module/applications/Uart/module.c:200-201 | The two trailer writes leave the body alone and make the frame pass. |
| ModbusCrc.RegisterFrame | infrared_module/applications/Uart/module.c:28-51 | The registration frame has the code, address, type and number of the module in their places, and passes. |
| ModbusCrc.ReplyFrame | infrared_module/applications/Uart/module.c:187-220 | Each reply has its head and data in their places and passes, in any buffer with room for what it writes. |
| HeapRuns.ReplyFits | infrared_module/applications/Uart/module.c:191-215 | The block rt_malloc promises for a reply holds the reply to a single write, one byte longer, if and only if the request is below MIN_SIZE or not a multiple of 4. |
| Crc32.TableIsEightSteps | infrared_module/applications/crc_32.c:13-46 | Each of the 256 entries is what eight single steps with polynomial 0xEDB88320 make of its index. |
| Crc32.LookUpIsByte | infrared_module/applications/crc_32.c:57-58 | One table look-up does the eight steps of a byte, for every register and byte. |
| Crc32.Chaining | infrared_module/applications/crc_32.c:48-62 | Chained calls over the parts of an input give what one call over the whole gives. |
| Crc32.CycleCal | infrared_module/applications/crc_32.c:48-62 | For every initial value and input the table-driven loop computes the bit-by-bit reflected CRC. |
| Crc32.Cal | infrared_module/applications/crc_32.c:64-67 | The one-pass call is the CRC-32 of section 8 of RFC 1952. |
| Crc32Division.CycleIsRemainder | infrared_module/applications/crc_32.c:48-62 | For any initial value the table-driven loop leaves the remainder of the input times x^32, with the initial value added to its first 32 bits, on division by the polynomial of CRC-32. |
| Crc32Division.CrcIsRemainder | infrared_module/applications/crc_32.c:64-67 | crc32_cal complements the first 32 bits of the input and the remainder. |
| Crc32Division.CrcOfDigits | infrared_module/applications/crc_32.c:64-67 | The CRC of the digits 1 to 9 is 0xCBF43926. |

## Findings

Properties that the code, or its own documentation, would lead one to expect, and that it does not have. Each has a
concrete input and the exact condition.

- **An exact fit at the end of the small heap is refused** (`HeapRuns.RefusalIsExact`, `HeapRuns.FreshHeapRefusesItsSize`;
  infrared_module/rt-thread/src/mem.c:305-307). The scan stops at `ptr < mem_size_aligned - size`, so a free block whose
  data is the last `size` bytes is never looked at. Input: a fresh heap and a request for its whole size. `rt_malloc`
  refuses an aligned request no larger than the heap if and only if every free block that fits is such a block.
- **`rt_malloc` never returns on a heap smaller than `MIN_SIZE`** (`HeapRuns.TinyHeapScanNeverEnds`; mem.c:299-307). The
  request is raised to 12 bytes and the bound of the scan wraps. Input: `mem_size_aligned` 4 and a request for 1 byte; or
  `mem_size_aligned` 0 and a request for 0xFFFFFFFD bytes, which is aligned to 0. `SmallHeap.Heap.Malloc` shows that the
  call ends in all other cases: it requires that the heap has at least 12 bytes, or the size is 0, or the aligned size
  exceeds the heap.
- **Three sizes wrap in `RT_ALIGN`** (`HeapRuns.AlignedRequestCoversSize`; mem.c:289). Input: 0xFFFFFFFD. The aligned
  size is 0 and a block of 12 bytes is handed out. The request is met if and only if it is at most 0xFFFFFFFC.
- **The reply to a single write is one byte longer than the block asked for** (`HeapRuns.ReplyFits`;
  infrared_module/applications/Uart/module.c:191-215). The buffer of `len + 5` bytes is filled with `len + 6`. The block
  that `rt_malloc` gives holds the frame if and only if `len + 5` is below 12 or no multiple of 4. Input for which it does
  not: `len` 7. The only caller passes 2.
- **A stale ACTIVATED flag** (`TimerModel.FlagAfterFiring`; infrared_module/rt-thread/src/timer.c:558-585). When the timeout
  function of a periodic timer makes that timer one-shot with `rt_timer_control`, and neither starts nor stops it, the
  flag stays set although the timer is in no list. That is the only way: outside a check no call does it
  (`TimerModel.FlagAfterCall`).
- **Priority inheritance outlives the waiter** (`MutexModel.TimeoutFits`, `MutexModel.TimeoutKeepsRaise`;
  infrared_module/rt-thread/src/thread.c:858-880). A timeout does not lower the owner. Input: the only waiter of a mutex,
  of higher priority than its owner, times out; the owner keeps the priority lent to it until its full release. From a
  state in which the owner's priority is the highest of its own and its waiters', it still is after a timeout if and
  only if the waiter's priority is not above the owner's own, or another waiter's is as high. `MutexModel.FitsWhenMatched`
  gives the condition for any state of a run, and `MutexModel.OwnerIsRaisedByContenders` what the priority is instead:
  the highest of the owner's own and those of all that have waited since it became owner.
- **The rest of a timeout can wrap** (`MailboxModel.RemainingIs`; infrared_module/rt-thread/src/ipc.c:1742-1749, and the same
  lines in the queue and the pool). The ticks slept are subtracted in 32 bits and the result is cut off at 0 only if it
  is negative. Input: a timeout of 1 and 0x80000002 ticks between blocking and running again: 0x7FFFFFFF ticks are left.
  The rest is right if and only if at most 2^31 ticks beyond the timeout have passed.
- **Power-of-two allocations are not always aligned** (`ZoneModel.PowerAligned`, `ZoneModel.LargeChunkMisaligned`;
  infrared_module/rt-thread/src/slab.c:152-153 says that they are). Zones are aligned to pages only. Chunks of a power-of-two
  size are aligned to it if and only if their zone is. Input: a heap that begins at a multiple of 8192, a zone at its
  second page, chunks of 8192 bytes.
- **A size of 0 gets NULL from the slab heap** (`SlabModel.MallocKeeps`), where slab.c:154 lists as a requirement that it
  does not; slab.c:486 is explicit, and the model follows it.
- **Rounding twice is not rounding once** (`ZoneModel.RoundedStays`; slab.c:716-725). `rt_realloc` passes the rounded size on
  to `rt_malloc`, which rounds it again. That is the same chunk size if and only if the request was at most 15360
  bytes; beyond, the rounded size is 16384, which no zone serves.
- **A memory heap refuses a request for all it has** (`MemHeapModel.FitsYetRefused`, `MemHeapModel.FreshRefusesAll`;
  infrared_module/rt-thread/src/memheap.c:155). Where an unused block is large enough, a request is refused if and only if
  it is for exactly `available_size`.
- **Three sizes wrap in `RT_ALIGN` of a memory heap, too** (`MemHeapModel.AllocCovers`; memheap.c:147). Input: 0xFFFFFFFD.
  The block handed out, of 12 bytes or a little more, holds the request if and only if that is at most 0xFFFFFFFC.
- **The test for growing in place can wrap** (`MemHeapModel.GrowTestIsRight`, `MemHeapModel.ResizeIsExact`; memheap.c:350).
  `newsize + RT_MEMHEAP_MINIALLOC` is a 32-bit sum. Input: a used block with an unused block behind it and
  `newsize` 0xFFFFFFF4: the sum is 0 and the test passes; the address of the new header wraps as well, and it is
  written 12 bytes in front of the data, over the block's own header (`MemHeapModel.GrowsIntoHeader`). A resize keeps
  the pool in order if and only if the sum does not wrap, or the next block is used, or the room in both blocks is at
  most the wrapped sum.

## Left out

- Semaphores: a counter and a wait list, with only easy members beside the mailbox and the memory pool.
- Deleting and detaching IPC objects, pools, timers and heaps, object names and registry, hooks, logging, `list_*` and `memcheck` commands.
- Mutexes nested in each other and inheritance under a FIFO mutex, for which the code promises nothing; one PRIO mutex is modelled, among threads whose own priorities do not change meanwhile.
- Foreign calls on a blocked thread (suspend, resume or delete by another thread while it waits in an IPC object).
- Soft timers and their thread, SMP, signals, context-switch assembly, stack checks, `rt_tick_set`, `rt_tick_from_millisecond` and `rt_thread_delay`.
- Timer delays are 1 up to less than half the tick range, with a check on every tick: `rt_timer_start` asserts the upper bound, and a periodic timer with a delay of 0 would never let the check end.
- Timeout functions are arbitrary finite scripts of start, stop and control calls on any timers; what else they do is not modelled.
- IPC event flags and the ready bitmap are sets of bit numbers: the code only combines them bit by bit. Mails and messages are whole values, copied in one step outside the lock.
- The time a blocked call has left is a parameter of the step in which it runs again: any number of ticks may have passed.
- Calls in the heaps are atomic, under the heap's semaphore. In the expanding branch of `rt_realloc` (small heap) and in `rt_memheap_realloc`, which take it more than once, no other thread's call comes in between.
- `rt_calloc`, `rt_realloc` of the slab heap, `memtrace`, and the `rt_malloc` built on memory heaps with its fallback to other heaps.
- The slab heap's addresses count from the heap start; chunk data and zone headers are fields, not bytes.
- MemHeap.Heap: the data bytes are in an array beside those of the headers; `MemHeapModel.HeadersOutsideData` shows that headers and data never overlap.
- MemHeap.Heap.Realloc: requires the exact condition of `MemHeapModel.ResizeIsExact`, since otherwise the code writes a header over the fields of another, which are not bytes here.
- MemPool.MemoryPool.constructor: requires room for one block at least, as the code's last link does.
- SysTimer.TimerList.TickIncrease: is the timer part only; the slice part is `TimeSlice.SlicedScheduler.TickIncrease`.
- SysTimer.TimerList.TimerCheck: the rows are sequences, not linked nodes; `RtList` proves the linked lists that they stand for.
- Mailbox.MessageBox.SendWait: wait lists are sequences of threads in all IPC classes, for the same reason.
- Scheduler.SystemScheduler.DoSchedule: the ready queues are sequences of threads, for the same reason.
- Reading object files and symbol tables in `WCS.py`, and resolving names to functions: the call graph is given, with the names that could not be resolved.
- MailboxDispatch.WokenIsReady: one IPC object with the scheduler at a time, likewise for the queue and the pool; events and the mutex are not put together with it, and sections run in interrupts are only timeouts, resets and frees.
- Drivers, display, buttons, infrared codes, the rest of the UART protocol, and the transport of frames.
