# A Dafny model of the RT-Thread kernel on the UC8088 board

This project models the uniprocessor RT-Thread 4.0.3 kernel of this board port, and the
arithmetic of its RTC driver, and proves what they promise. It consists of Dafny modules
only; `dafny verify dfyconfig.toml` checks all of them.

Where the source updates objects in place, two things stand side by side: a value with one
function for each operation or critical region, about which the theorems are proved, and a
class whose methods go through the source's fields, arrays and loops, each proved to compute
that function. Message chains, mailbox rings, block headers, free rings, the bytes of the two
heaps, page descriptors, timer ticks and the ready bitmap are arrays there. Waiting lists,
ready queues, timer rows, zone lists and the page list are sequences that the methods
reassign. `RtList` has the pointer operations of rt_list_t by themselves.

- **IPC.** `MessageQueue`, `Mailbox`, `Mutex` and `Event` model the objects, one step for
  each stretch of code with interrupts disabled. `MqProtocol` and `MailboxProtocol` put any
  number of threads on them: calls stop between regions, copies happen outside them, timers
  expire and resets strike anywhere. The theorems hold after every interleaving. `MqLinks`
  follows the links of the queue through the same interleavings. `MqCalls` and `MailboxCalls`
  tell from the run what each caller asked for, and that it is done. `Ipc` has what they share,
  above all the account of sleeping and woken threads from which it follows that no wake-up
  is lost.
- **Heaps.** `SmallHeap` and `MemHeap` are runs of blocks that tile a pool (`Tiling`), seen
  from outside as a set of live blocks. `SmallHeapObject` keeps them in headers with next,
  prev and used (`HeapLinks`), `MemHeapObject` on two rings (`Circle`); both track every byte
  of the pool (`HeapBytes`). `Slab` has zones (`SlabZones`) over a page list (`SlabPages`),
  `SlabUsage` the page descriptors, `SlabLaws` what each call answers; `SlabObject` performs
  the operations. Pointers are offsets.
- **Timers and scheduler.** `Timer` and `TimerCheck` work on a plain list with true,
  unbounded time; `TimerRuns` says when a timer fires; `TimerList` has the
  skip list with any number of rows and ticks that wrap.
  `Scheduler` has ready queues without a bitmap, `SchedulerLaws` what each call does to every
  thread; `SchedulerObject` adds the bitmap, and `Ffs`
  the table-driven search in it; `SchedulerLock` has the nested locking.
- **RTC.** `RtcTrim` and `RtcCalendar`.
- **Bits.** `EventBits`, `Masks` and `SlabMasks` connect masks with sets and arithmetic.

Numbers are unbounded in Dafny; 32-bit arithmetic is written out wherever a request or a
tick can wrap. RT_ASSERT is compiled out in this configuration, so what it demands of
callers appears as a precondition.

## Main results

- Message queue, every interleaving: `MqProtocol.ReachableInv`, `NoWakeUpLost`,
  `SlotsConserved`, `ActsAsDeque`, `NoDeadlock`, `MqCalls.DoneAsAsked`, `DeliversAsAsked`, and
  `MqLinks.LinksFollow` for its links.
- Mailbox, every interleaving: `MailboxProtocol.ReachableInv`, `NoDeadlock`,
  `MailboxCalls.DoneAsAsked`.
- Mutex: `Mutex.ReachableInv`, `MutualExclusion`, `NoInversion`, `FreeIsGranted`, `OthersWait`,
  `ReleaseHandsOver`.
- Event: `Event.AlwaysQuiet` and its exact condition `QuietExactly`, `ScanTurns`,
  `SendConserves`, `DeliveredOnce`.
- Small heap: `SmallHeap.AlwaysGood`, `MallocFirstFit`, `ReallocTrades`, `FreeAllRestores`;
  on headers and bytes `SmallHeapObject.HeapObject.Malloc`, `Free`, `Realloc`.
- Memheap: `MemHeap.AlwaysGood`, `AllocExact`, `ReallocGood`, `ReallocTrades`,
  `FreeAllRestores`; on rings and bytes `MemHeapObject.PoolObject.Alloc`, `Free`, `Realloc`.
- Slab heap: `Slab.AlwaysInv`, `MallocFresh`, `LiveApart`, `SlabLaws.MallocExact`,
  `FreeRetires`, `SlabUsage.AlwaysLocated`; on
  lists and descriptors `SlabObject.SlabHeap.MallocBytes`, `FreePtr`.
- Timers: `TimerCheck.CheckFires`, `FiresInOrder`, `CheckSettles`, `TimerRuns.FiresAfter`; on the
  skip list `TimerList.TimerRows.Start`, `CheckTimers`.
- Scheduler: `Scheduler.Exec`, `ScheduleChooses`, `NoNeedlessSwitch`, `RoundRobin`,
  `SchedulerLaws.ScheduleLaw`, `SuspendLaw`, `SchedulerLock.LockExact`; with the bitmap
  `SchedulerObject.SchedulerState.Reschedule`, `Ffs.FirstSetIs`.
- RTC: `RtcTrim.Trim`, `RtcCalendar.Clock.AddInterval`, `RtcCalendar.GregorianExact`.

Some promises fail at the edges, and the model keeps the code's behaviour there:

- A heap smaller than the least block makes `rt_malloc` loop for ever
  (`SmallHeap.TooSmallHangs`, `TooSmallHappens`); all other statements about it exclude
  exactly that call.
- Sizes in the last three of a word round up to 0: `rt_malloc` then grants a least block
  (`SmallHeap.MallocGrants`, `WrapGrants`) and `rt_realloc` frees the block
  (`SmallHeap.ReallocTrades`, `WrapFrees`). The memheap calls then work with a least block
  (`MemHeap.AllocGrants`, `MemHeap.ReallocTrades`).
- `rt_memheap_init` does not check that two headers fit (`MemHeap.InitExact`).
- `rt_memheap_realloc` takes a request within 12 bytes of a word for a small one when the
  next block is free (`MemHeap.OverrunsExactly`, `OverrunHappens`). It keeps the pool in order
  iff the request is not such a one (`MemHeap.ReallocGood`, `ReallocTrades`).
- A receive with neither AND nor OR blocks later waiters (`Event.BadOptionStarves`), and
  nothing else does (`Event.QuietExactly`).
- The comment in `rt_enter_critical` allows 0xffff nested sections; the counter is a signed
  16-bit number, and at a depth of 0x8001 leaving one section unlocks the scheduler
  (`SchedulerLock.LockExact`).
- The driver's calendar has a 29 February 2100 (`RtcCalendar.NoLeapDay2100`,
  `RtcCalendar.GregorianExact`); its comment restricts it to 2000-2099, but an interval can
  lead out of that range.

## Model

| member | source | states |
|---|---|---|
| MqProtocol.ReachableInv | rt-thread/src/ipc.c:2167-2656 | every interleaving of sends, urgent sends, receives, timer expiries and resets keeps slot conservation, fairness of both waiting lists, intact payloads and the log |
| MqProtocol.NoWakeUpLost | rt-thread/src/ipc.c:2167-2656 | in every run, while receivers are suspended `entry` is at most the number of resumed receivers yet to re-test, and while senders are suspended so are the free slots bounded by resumed senders |
| MqProtocol.SlotsConserved | rt-thread/src/ipc.c:2271-2306 | with copies in flight outside the critical regions, free list, message list and slots held by copying threads partition the pool, `entry` is the queue length, and a slot in flight has one holder |
| MqProtocol.ActsAsDeque | rt-thread/src/ipc.c:2284-2306 | in every run the logged links and unlinks replay as one double-ended queue, and a receiver that has copied out holds the bytes of the message it unlinked, cut to its buffer; that the log is what callers asked for is DoneAsAsked |
| MqProtocol.NoDeadlock | rt-thread/src/ipc.c:2167-2595 | once every thread is idle or asleep, the two waiting lists are never both occupied; sleeping receivers mean an empty queue with every slot free, sleeping senders a full one |
| MqCalls.DoneAsAsked | rt-thread/src/ipc.c:2167-2656 | in every run each thread is in the call it last began, with the message, urgency, size and remaining timeout it was called with, and the log is the story those calls tell |
| MqCalls.DeliversAsAsked | rt-thread/src/ipc.c:2167-2595 | in every run the contents are what the calls add up to, and a receiver gets as many bytes as it asked for and a slot holds, those of the message in front when it took it |
| MqCalls.LinkedWasSent | rt-thread/src/ipc.c:2274-2306 | every message ever linked is that of a send in the run, and was put first iff that send was urgent |
| MqCalls.CallsBegin | rt-thread/src/ipc.c:2167-2192 | an idle thread begins a call unless its message is larger than a slot; nothing else changes |
| MqCalls.SendDecides | rt-thread/src/ipc.c:2197-2272 | with a free slot a send takes the first one; without, it fails iff it has no time left and otherwise sleeps at its place |
| MqCalls.RecvDecides | rt-thread/src/ipc.c:2471-2563 | with a message a receive takes the first one; without, it fails iff it has no time left and otherwise sleeps at its place |
| MqCalls.CopiesMoveOn | rt-thread/src/ipc.c:2277-2283 | a thread in mid-copy can finish its copy |
| MqCalls.LinkEnds | rt-thread/src/ipc.c:2284-2322 | the second region ends the send, puts its slot last or first and wakes the first receiver |
| MqCalls.ReleaseEnds | rt-thread/src/ipc.c:2568-2592 | the second region ends the receive, puts its slot first on the free list and wakes the first sender |
| MqCalls.ExpiryEnds | rt-thread/src/thread.c:859-881 | a timeout ends the call of a sleeper with a limit and takes it off its list; nobody else is touched |
| MqCalls.ResetEnds | rt-thread/src/ipc.c:2617-2652 | a reset leaves no message and nobody asleep; the queued slots are free in reverse order |
| MqCalls.RemainingAdds | rt-thread/src/ipc.c:2262-2268 | sleeping twice uses up as much of a timeout as sleeping once for as long, and nothing is left iff all of it has been slept |
| MqLinks.LinksFollow | rt-thread/src/ipc.c:2167-2656 | in every run, with links cleared outside the critical regions, both chains and `tail` spell out the two lists, and a non-urgent thread about to link its slot finds its link NULL |
| MqLinks.LinksNext | rt-thread/src/ipc.c:2271-2652 | each step of the protocol, with what it writes to the links, keeps that agreement |
| MqProtocol.FillIntact | rt-thread/src/ipc.c:2277-2283 | copying a payload in outside the critical region disturbs no queued message and no other thread's copy |
| MessageQueue.InitialFreeAll | rt-thread/src/ipc.c:2008-2014 | the free list built by initialisation holds every slot exactly once, the last slot first |
| MessageQueue.SpellAppend | rt-thread/src/ipc.c:2284-2296 | the writes of a send to `next`, `head` and `tail` append the slot to the list they spell out |
| MessageQueue.SpellPrepend | rt-thread/src/ipc.c:2397-2403 | the writes of an urgent send prepend it |
| MessageQueue.SpellFlush | rt-thread/src/ipc.c:2626-2642 | the loop of a reset moves the whole chain to the free list |
| MessageQueue.Mq.constructor | rt-thread/src/ipc.c:1973-2023 | initialisation threads all slots onto the free list and leaves the message list empty |
| MessageQueue.Mq.SendTest | rt-thread/src/ipc.c:2197-2272 | the first region of a send takes the head of the free list, refuses on timeout 0, or suspends at the place the flag demands, FIFO or PRIO; no link is written |
| MessageQueue.Mq.ClearLink | rt-thread/src/ipc.c:2277-2278 | clearing the link of a slot in flight changes neither list and no other link |
| MessageQueue.Mq.LinkTail | rt-thread/src/ipc.c:2283-2322 | the second region of a send appends the slot, keeps `head`, `tail` and `entry` in step, wakes the first receiver, cannot reach the entry-overflow branch, and leaves the links of other slots in flight alone |
| MessageQueue.Mq.LinkHead | rt-thread/src/ipc.c:2394-2430 | an urgent send prepends the slot, with the same agreement of `head`, `tail` and `entry`, and leaves the links of other slots in flight alone |
| MessageQueue.Mq.RecvTest | rt-thread/src/ipc.c:2471-2563 | the first region of a receive unlinks the head slot, refuses on timeout 0, or suspends at the place the flag demands, FIFO or PRIO; no link is written |
| MessageQueue.Mq.Unlink | rt-thread/src/ipc.c:2547-2560 | unlinking the head leaves the rest linked in order, with `tail` cleared when the list empties |
| MessageQueue.Mq.Release | rt-thread/src/ipc.c:2568-2592 | the second region of a receive gives the slot back and wakes the first sender; links of other slots in flight stay |
| MessageQueue.Mq.Reset | rt-thread/src/ipc.c:2617-2652 | reset wakes everybody and moves every queued slot back to the free list, losing none and touching no link of a slot in flight |
| MailboxProtocol.ReachableInv | rt-thread/src/ipc.c:1557-1950 | every interleaving of sends, urgent sends, receives, expiries and resets loses no wake-up on either side, and the mails are those of a bounded double-ended queue replayed from the log |
| MailboxProtocol.NoDeadlock | rt-thread/src/ipc.c:1557-1906 | once every thread is idle or asleep, receivers sleep only on an empty mailbox and senders only on a full one, never both |
| MailboxCalls.DoneAsAsked | rt-thread/src/ipc.c:1557-1950 | in every run each thread is in the call it last began, with its mail and remaining timeout, and the mails are what the calls add up to |
| MailboxCalls.CallsBegin | rt-thread/src/ipc.c:1557-1577 | an idle thread begins a call; nothing else changes |
| MailboxCalls.SendDecides | rt-thread/src/ipc.c:1577-1684 | with room a send puts its mail last and wakes the first receiver; without, it fails iff it has no time left and otherwise sleeps at its place |
| MailboxCalls.UrgentDecides | rt-thread/src/ipc.c:1713-1765 | with room an urgent send puts its mail first and wakes the first receiver; without, nothing changes |
| MailboxCalls.RecvDecides | rt-thread/src/ipc.c:1799-1906 | with a mail a receive takes the first and wakes the first sender; without, it fails iff it has no time left and otherwise sleeps at its place |
| MailboxCalls.OthersEnd | rt-thread/src/ipc.c:1918-1950 | a timeout ends the call of one sleeper with a limit; a reset ends those of all sleepers and empties the box |
| Mailbox.SlotIsModulo | rt-thread/src/ipc.c:1649-1665 | the offset arithmetic of the ring is addition modulo its size |
| Mailbox.MailboxRing.constructor | rt-thread/src/ipc.c:1409-1437 | an initialised mailbox is empty |
| Mailbox.MailboxRing.Send | rt-thread/src/ipc.c:1577-1684 | send appends, refuses, or suspends at the place the flag demands; `in_offset` stays `out_offset + entry` modulo the size and the overflow branch is dead |
| Mailbox.MailboxRing.Urgent | rt-thread/src/ipc.c:1713-1765 | an urgent send prepends by stepping `out_offset` back |
| Mailbox.MailboxRing.Recv | rt-thread/src/ipc.c:1799-1906 | receive returns the front mail, refuses, or suspends at the place the flag demands, and wakes the first sender |
| Mailbox.MailboxRing.Reset | rt-thread/src/ipc.c:1918-1950 | reset wakes everybody and empties the ring |
| Ipc.SuspendPosition | rt-thread/src/ipc.c:85-131 | FIFO suspends at the end of the list, PRIO behind every thread at least as urgent, keeping the list most urgent first |
| Ipc.HighestPriority | rt-thread/src/ipc.c:203-218 | the result is the most urgent priority of the list, or the least urgent of all for an empty one |
| Ipc.GiveFair | rt-thread/src/ipc.c:142-155 | one more unit and one wake-up keep the account of sleepers and woken threads |
| Ipc.TakeFair | rt-thread/src/ipc.c:1636-1665 | a thread that takes a unit, woken or barging, keeps the account |
| Ipc.SleepFair | rt-thread/src/ipc.c:85-131 | a thread that finds nothing and sleeps keeps the account |
| Ipc.ExpireFair | rt-thread/src/thread.c:859-881 | a sleeper that times out keeps the account |
| Mutex.ReachableInv | rt-thread/src/ipc.c:697-980 | in every reachable state `value == 1` iff there is no owner iff `hold == 0`; waiters imply an owner; every other thread runs at its own priority, and the owner at least as urgently as itself and every waiter |
| Mutex.MutualExclusion | rt-thread/src/ipc.c:697-980 | two threads with a granted, unreleased take are the same thread, and `hold` counts its takes |
| Mutex.NoInversion | rt-thread/src/ipc.c:782-794 | whoever waits, the owner runs at least as urgently, under FIFO and PRIO lists |
| Mutex.FreeIsGranted | rt-thread/src/ipc.c:746-765 | a free mutex is granted: the caller owns it once, with its own priority noted, and nothing else changes |
| Mutex.OwnerNests | rt-thread/src/ipc.c:724-741 | the owner's take succeeds below the maximum, changing the count only, and fails at it, changing nothing |
| Mutex.OthersWait | rt-thread/src/ipc.c:766-845 | a mutex owned by another thread is refused iff there is no time to wait; otherwise the caller waits at its place and the owner becomes as urgent as the caller unless it is more so |
| Mutex.ReleaseFrees | rt-thread/src/ipc.c:885-969 | only the owner releases; before the last time only the count changes; then, without waiters, the mutex is free and everybody at their own priority |
| Mutex.ReleaseHandsOver | rt-thread/src/ipc.c:895-952 | the last release with waiters makes the first one the owner, as urgent as the most urgent of them; everybody else is at their own priority |
| Mutex.ExpiryLeaves | rt-thread/src/thread.c:859-881 | a waiter that times out leaves the list, the others stay in order |
| Mutex.TakeKeeps | rt-thread/src/ipc.c:724-845 | a take in any branch keeps the invariant; what each branch does is FreeIsGranted, OwnerNests and OthersWait |
| Mutex.HandOverKeeps | rt-thread/src/ipc.c:909-952 | passing the mutex to the first waiter restores the old owner and lets the new one inherit from those still waiting |
| Mutex.ReleaseKeeps | rt-thread/src/ipc.c:885-980 | a release in any branch keeps the invariant |
| Mutex.ExpireKeeps | rt-thread/src/thread.c:859-881 | a waiter that times out leaves ownership and inheritance intact |
| Mutex.MutexObject.constructor | rt-thread/src/ipc.c:573-593 | an initialised mutex is free |
| Mutex.MutexObject.Take | rt-thread/src/ipc.c:697-845 | the object does what the state machine does in each branch; the owner's take fails exactly at the hold maximum, and a first take never |
| Mutex.MutexObject.Wait | rt-thread/src/ipc.c:782-794 | the owner is raised exactly if the caller is more urgent, and the caller is suspended in list order |
| Mutex.MutexObject.Release | rt-thread/src/ipc.c:856-980 | the object does what the state machine does, and only the owner can release |
| Mutex.MutexObject.LetGoOf | rt-thread/src/ipc.c:895-969 | the last release puts the old priority back and passes the mutex on or frees it; the value overflow branch is dead |
| Mutex.MutexObject.HandOver | rt-thread/src/ipc.c:909-952 | the first waiter becomes owner with its saved priority; the hold overflow branch is dead |
| Mutex.MutexObject.Expire | rt-thread/src/thread.c:859-881 | a waiter leaves the list |
| Event.AlwaysQuiet | rt-thread/src/ipc.c:1128-1392 | after every step of every run from a quiet state whose receives ask for AND or OR, no suspended thread is satisfied by the event set |
| Event.BadOptionStarves | rt-thread/src/ipc.c:1182-1188 | in any state, a receive with neither AND nor OR that is suspended lets some run of proper calls leave a satisfied thread asleep |
| Event.QuietExactly | rt-thread/src/ipc.c:1182-1188 | from any quiet state, every run of proper calls that follows a receive stays quiet iff the receive asks for AND or OR, or for no flags, or does not wait |
| Event.ScanTo | rt-thread/src/ipc.c:1148-1207 | a send that meets a waiter without a mode leaves it and all behind it; flags it consumed before went to threads it woke |
| Event.ScanQuiet | rt-thread/src/ipc.c:1148-1207 | a send only clears flags, completes exactly if every waiter has a mode, and then leaves nobody satisfied |
| Event.ScanWakes | rt-thread/src/ipc.c:1157-1206 | every thread woken by a send met its condition at that moment and received exactly its share of the flags |
| Event.ScanCounts | rt-thread/src/ipc.c:1148-1207 | a send loses no waiter and wakes none twice |
| Event.MetIs | rt-thread/src/ipc.c:1163-1181 | AND is met iff all wanted flags are set, OR iff some wanted flag is, neither never |
| Event.SendConserves | rt-thread/src/ipc.c:1128-1217 | the flags left after a send together with those consumed are exactly those set before and those sent; woken threads receive part of them |
| Event.ScanConserves | rt-thread/src/ipc.c:1148-1207 | the loop neither loses nor makes up a flag |
| Event.ScanTurns | rt-thread/src/ipc.c:1148-1207 | the loop tests the waiters one after the other against the flags left by those before, wakes those whose test succeeds and leaves the others in order |
| Event.RecvDecides | rt-thread/src/ipc.c:1233-1352 | a receive of no flags is refused; one whose flags are there gets them; otherwise it fails iff it does not wait and else joins the list at its place |
| Event.ExpireAt | rt-thread/src/thread.c:859-881 | a timeout takes the thread's entry off the list, the others stay in order |
| Event.OthersEnd | rt-thread/src/ipc.c:1356-1392 | a timeout leaves the flags and all other threads; a reset leaves no flag and nobody |
| Event.DeliveredOnce | rt-thread/src/ipc.c:1193-1198 | flags consumed by one woken thread reach no thread woken after it and do not stay in the event |
| Event.RecvLikeSend | rt-thread/src/ipc.c:1264-1314 | a receive that finds its flags gets and clears what it would have been woken with |
| Event.RecvKeeps | rt-thread/src/ipc.c:1233-1352 | a receive keeps quiescence |
| Event.ExpireKeeps | rt-thread/src/thread.c:859-881 | an expiry keeps quiescence |
| EventBits.ClearsAgree | rt-thread/src/ipc.c:1196-1198 | clearing the received flags on the send path equals clearing all requested flags on the receive path |
| Event.EventObject.constructor | rt-thread/src/ipc.c:1014-1032 | an initialised event is empty |
| Event.EventObject.Offer | rt-thread/src/ipc.c:1162-1198 | one waiter is tested; satisfied, its event_set becomes what it received and a consuming one clears that |
| Event.EventObject.Visit | rt-thread/src/ipc.c:1157-1206 | one turn of the loop removes the waiter from the list exactly if it is satisfied |
| Event.EventObject.ScanAll | rt-thread/src/ipc.c:1148-1207 | the loop wakes and leaves exactly those the scan does |
| Event.EventObject.Send | rt-thread/src/ipc.c:1128-1217 | the object does what the state machine does: the flags are added to those set, and an empty set is refused |
| Event.EventObject.Recv | rt-thread/src/ipc.c:1233-1352 | the object does what the state machine does in every branch: error, flags, timeout, suspension at the place the flag demands |
| SmallHeap.AlwaysGood | rt-thread/src/mem.c:275-618 | after every run of malloc, realloc and free the blocks tile the heap exactly, aligned, with no two free neighbours |
| SmallHeap.FreeAllRestores | rt-thread/src/mem.c:555-618 | freeing every live block in any order leaves the heap as initialised |
| SmallHeap.AlignRounds | rt-thread/src/mem.c:284-296 | rounding up to 4 wraps to 0 exactly for the last three sizes of a word |
| SmallHeap.MallocGood | rt-thread/src/mem.c:308-390 | an allocation keeps the invariant |
| SmallHeap.MallocGrants | rt-thread/src/mem.c:308-405 | a successful malloc adds one live block, changes no other, is aligned and inside the heap, and holds the bytes asked for iff rounding does not wrap |
| SmallHeap.WrapGrants | rt-thread/src/mem.c:284-296 | a request of 2^32 - 1 bytes is granted 24 |
| SmallHeap.MallocFirstFit | rt-thread/src/mem.c:308-412 | malloc takes the lowest free block that fits and fails iff none fits other than a last one filled up to heap_end |
| SmallHeap.TooSmallHangs | rt-thread/src/mem.c:308-311 | in a heap below the least block size the search loop, from the lowest free block on, never ends, since its unsigned bound lies ahead at every turn |
| SmallHeap.TooSmallHappens | rt-thread/src/mem.c:308-311 | such a heap and request exist |
| SmallHeap.FreeGood | rt-thread/src/mem.c:599-616 | a release keeps the invariant |
| SmallHeap.FreeReturns | rt-thread/src/mem.c:599-616 | free takes away exactly the block given back |
| SmallHeap.ShrinkGood | rt-thread/src/mem.c:474-507 | shrinking in place keeps the invariant |
| SmallHeap.MoveLive | rt-thread/src/mem.c:510-518 | growing trades the block for a new one and fails with the heap unchanged iff the allocation fails |
| SmallHeap.ReallocGood | rt-thread/src/mem.c:424-519 | realloc in any branch keeps the invariant |
| SmallHeap.ReallocTrades | rt-thread/src/mem.c:424-519 | on success the block is traded for one that holds n bytes and less than a least block more, and nothing else changes; on failure the heap is untouched iff n is not 0 and does not round to 0 |
| SmallHeap.WrapFrees | rt-thread/src/mem.c:435-452 | a resize to 2^32 - 1 bytes frees the block |
| SmallHeap.ReallocStays | rt-thread/src/mem.c:462-519 | the block stays where it is iff it has the rounded size or enough more for the rest to be a block; any other result is elsewhere |
| SmallHeap.ReallocOther | rt-thread/src/mem.c:435-470 | without a block realloc is malloc, except for sizes that round to 0; a pointer outside the heap comes back unless the size does not fit or is 0 |
| Tiling.LiveDisjoint | rt-thread/src/mem.c:93-105 | two live blocks are the same block or do not overlap |
| HeapLinks.PayloadKept | rt-thread/src/mem.c:93-105 | writing headers only leaves every payload as it was |
| HeapBytes.CopyKeeps | rt-thread/src/mem.c:510-518 | between two steps that keep live payloads, copying a block to a fresh one carries its bytes over and changes no other payload |
| SmallHeapObject.PoolSizeLargest | rt-thread/src/mem.c:207-232 | the heap chosen between two addresses fits between them and none larger does |
| SmallHeapObject.HeapObject.constructor | rt-thread/src/mem.c:234-260 | initialisation makes one free block and a used heap_end |
| SmallHeapObject.HeapObject.MergeNext | rt-thread/src/mem.c:170-196 | joining a block with the next keeps next/prev mirrored, lfree lowest and used_mem exact, and writes header bytes only |
| SmallHeapObject.HeapObject.PlugHoles | rt-thread/src/mem.c:159-197 | plug_holes joins exactly the free neighbours, forward then backward |
| SmallHeapObject.HeapObject.SplitBlock | rt-thread/src/mem.c:332-351 | splitting links the remainder in with both neighbours |
| SmallHeapObject.HeapObject.Search | rt-thread/src/mem.c:308-315 | starting at lfree finds the same block as starting at the front |
| SmallHeapObject.HeapObject.Take | rt-thread/src/mem.c:319-375 | the block is taken whole or split, and used_mem grows by its extent |
| SmallHeapObject.HeapObject.Advance | rt-thread/src/mem.c:383-390 | lfree moves on to the lowest free block or heap_end |
| SmallHeapObject.HeapObject.Malloc | rt-thread/src/mem.c:275-413 | on the headers, malloc does what the model heap does and leaves every live payload's bytes unchanged |
| SmallHeapObject.HeapObject.Free | rt-thread/src/mem.c:555-618 | on the headers, free does what the model heap does, with lfree lowest and used_mem exact, and leaves every remaining payload unchanged |
| SmallHeapObject.HeapObject.ShrinkBlock | rt-thread/src/mem.c:474-507 | shrinking writes headers only |
| SmallHeapObject.HeapObject.Relocate | rt-thread/src/mem.c:510-518 | the first min(old, new) bytes arrive at the new place and no other live payload changes; on failure none does |
| SmallHeapObject.HeapObject.ResizeBlock | rt-thread/src/mem.c:462-519 | in every branch the first min(old, new) bytes are carried over and other payloads stay; on failure all do |
| SmallHeapObject.HeapObject.Realloc | rt-thread/src/mem.c:424-519 | realloc does what the model heap does, carries the bytes over, and leaves every other live payload unchanged; on failure of a request that does not round to 0, every live payload |
| MemHeap.AlwaysGood | rt-thread/src/memheap.c:193-680 | in every run the free ring holds exactly the free blocks, each once, no two neighbours are free, and available_size is the sum of the free payloads |
| MemHeap.FreeAllRestores | rt-thread/src/memheap.c:569-680 | freeing every live block in any order leaves the pool as initialised, both rings included |
| MemHeap.InitExact | rt-thread/src/memheap.c:113-163 | initialisation, in 32-bit arithmetic, leaves the pool in order iff it has room for two headers |
| MemHeap.AllocGood | rt-thread/src/memheap.c:193-347 | an allocation keeps the two rings in agreement |
| MemHeap.AllocGrants | rt-thread/src/memheap.c:193-347 | a successful allocation adds one live block, aligned and in the pool, less than a least block larger than needed, that holds the request iff rounding does not wrap |
| MemHeap.AllocExact | rt-thread/src/memheap.c:210-241 | an allocation fails iff the request is not below available_size or no free block fits, and otherwise takes the first in ring order |
| MemHeap.FreeGood | rt-thread/src/memheap.c:616-672 | a release with left and right joining keeps the two rings in agreement and the count exact |
| MemHeap.FreeReturns | rt-thread/src/memheap.c:569-680 | free takes away exactly the block given back |
| MemHeap.ExtendGood | rt-thread/src/memheap.c:400-472 | growing in place keeps the two rings in agreement and the count exact |
| MemHeap.ShrinkGood | rt-thread/src/memheap.c:502-559 | shrinking in place keeps the two rings in agreement and the count exact |
| MemHeap.ReallocGood | rt-thread/src/memheap.c:350-566 | for every request on a live block, realloc keeps the invariant iff the request does not overrun |
| MemHeap.ReallocTrades | rt-thread/src/memheap.c:350-566 | a successful realloc trades the block for one with room for the rounded request and changes nothing else iff the request does not overrun, and for one with room for the request itself iff moreover rounding does not wrap; on failure nothing changes |
| MemHeap.ReallocStays | rt-thread/src/memheap.c:380-490 | the block stays where it is iff it is large enough, or together with a free block after it more than large enough, or the request overruns |
| MemHeap.ReallocOther | rt-thread/src/memheap.c:350-374 | without a block realloc is alloc, to size 0 it is free |
| MemHeap.FreeThenAlloc | rt-thread/src/memheap.c:663-667 | a freed block that joins none before it is handed out by the next request it can hold |
| MemHeap.AllocThenAlloc | rt-thread/src/memheap.c:242-300 | so is the rest an allocation cuts off |
| MemHeap.ResizeThenAlloc | rt-thread/src/memheap.c:417-559 | so is the free block behind a block resized in place |
| MemHeap.OverrunsExactly | rt-thread/src/memheap.c:400-417 | with a free block next, the growth test lets through a request the two blocks cannot hold iff its 32-bit sum wraps |
| MemHeap.OverrunBreaks | rt-thread/src/memheap.c:400-472 | an overrunning request is answered with the same pointer, and the border to the next block lands before the block's payload |
| MemHeap.OverrunHappens | rt-thread/src/memheap.c:400-417 | such a request on a good pool exists |
| MemHeapObject.PoolObject.constructor | rt-thread/src/memheap.c:101-176 | initialisation makes one free block on the free ring and a used tailer |
| MemHeapObject.PoolObject.PushFree | rt-thread/src/memheap.c:663-667 | a block becomes the first of the free ring |
| MemHeapObject.PoolObject.DropFree | rt-thread/src/memheap.c:656-658 | a block leaves the free ring, the others keep their order |
| MemHeapObject.PoolObject.SplitBlock | rt-thread/src/memheap.c:268-272 | a new block is linked into the block ring in address order |
| MemHeapObject.PoolObject.JoinNext | rt-thread/src/memheap.c:630-654 | unlinking a block makes its neighbour reach as far |
| MemHeapObject.PoolObject.SearchFree | rt-thread/src/memheap.c:224-235 | the loop stops at the first block of the ring that fits, if any |
| MemHeapObject.PoolObject.Take | rt-thread/src/memheap.c:242-317 | the block leaves the free ring and is split if the rest can stand alone |
| MemHeapObject.PoolObject.Alloc | rt-thread/src/memheap.c:193-347 | on the rings, alloc does what the model pool does and leaves every live payload unchanged |
| MemHeapObject.PoolObject.Free | rt-thread/src/memheap.c:569-680 | on the rings, free does what the model pool does, joining left before right, and leaves every live payload unchanged |
| MemHeapObject.PoolObject.ExtendBlock | rt-thread/src/memheap.c:417-472 | the border to the next free block moves up on both rings and no live payload changes |
| MemHeapObject.PoolObject.ShrinkBlock | rt-thread/src/memheap.c:502-559 | the cut-off rest joins a free right neighbour on both rings; what is kept of the block and all other payloads stay |
| MemHeapObject.PoolObject.Relocate | rt-thread/src/memheap.c:478-486 | the first min(old, new) bytes arrive at the new place and no other live payload changes; on failure none does |
| MemHeapObject.PoolObject.Realloc | rt-thread/src/memheap.c:350-566 | on the rings, realloc does what the model pool does, carries the first min(old, new) bytes over and leaves every other live payload unchanged; on failure of a request above 0, every live payload |
| Circle.InsertLinks | rt-thread/include/rtservice.h:58-65 | four link writes put a cell into a circular list at its place |
| Circle.RemoveLinks | rt-thread/include/rtservice.h:86-92 | two link writes take a cell out of a circular list |
| RtList.Node.constructor | rt-thread/include/rtservice.h:47-50 | an initialised list is a ring of one |
| RtList.InsertAfter | rt-thread/include/rtservice.h:58-65 | the node is in the ring right behind the given one, all else in order, forwards and backwards |
| RtList.InsertBefore | rt-thread/include/rtservice.h:73-80 | the node is in the ring right before the given one; before the head means at the end |
| RtList.Remove | rt-thread/include/rtservice.h:86-92 | the node leaves the ring, which closes, and is a ring of its own |
| RtList.IsEmpty | rt-thread/include/rtservice.h:98-101 | true iff the ring has no node but the head |
| SlabPages.AllocFirstFit | rt-thread/src/slab.c:236-270 | pages come from the front of the first run long enough, and the allocation fails iff there is none |
| SlabPages.AllocTakes | rt-thread/src/slab.c:236-270 | what is allocated was free and is exactly what leaves the free pages |
| SlabPages.AllocOrderly | rt-thread/src/slab.c:236-270 | allocation keeps the runs sorted, disjoint and maximally joined |
| SlabPages.FreeGives | rt-thread/src/slab.c:272-322 | the free pages after a free are the old ones and the returned run |
| SlabPages.FreeOrderly | rt-thread/src/slab.c:272-322 | freeing pages keeps the runs sorted, disjoint and maximally joined |
| SlabPages.PageList.AllocPages | rt-thread/src/slab.c:236-270 | the list walk does what the model list does |
| SlabPages.PageList.FreePages | rt-thread/src/slab.c:272-322 | the list walk does what the model list does |
| SlabZones.IndexRight | rt-thread/src/slab.c:401-459 | the index is below NZONES, determines the chunk size, and the chunk holds the request |
| SlabZones.IndexExact | rt-thread/src/slab.c:401-459 | two sizes share a zone index iff they round to the same chunk size |
| SlabZones.ZoneHolds | rt-thread/src/slab.c:628-646 | every zone holds at least two chunks behind its header, inside the zone |
| SlabZones.LimitIs | rt-thread/src/slab.c:379-381 | requests up to a quarter of a zone, and at most the largest chunk size, are served from zones |
| SlabMasks.ChunkMask | rt-thread/src/slab.c:401-459 | the masks of zoneindex give the chunk size |
| SlabMasks.OffsetMask | rt-thread/src/slab.c:625-638 | the power-of-two test and the masks give the offset of a zone's chunks |
| Masks.PowerTest | rt-thread/src/slab.c:635-635 | (v | v - 1) + 1 equals 2v iff v is a power of two |
| Masks.OrIs | libraries/UC8088_HAL_Driver/src/uc_rtc.c:201-201 | bit q of a | b is set iff bit q of a or of b is |
| Masks.AndNotIs | libraries/UC8088_HAL_Driver/src/uc_rtc.c:176-176 | bit q of v & ~m is set iff bit q of v is and that of m is not |
| Masks.OneBit | libraries/UC8088_HAL_Driver/src/uc_rtc.c:176-201 | on an odd multiple of 2^k clearing bit k subtracts 2^k, on an even one setting it adds 2^k |
| Masks.AndNotLow | rt-thread/src/slab.c:636-638 | clearing the low k bits rounds down to a multiple of 2^k |
| SlabZones.ChooseZoneSize | rt-thread/src/slab.c:374-377 | the zone size is one of the three allowed and the largest the heap size permits |
| Slab.AlwaysInv | rt-thread/src/slab.c:478-904 | in every run each zone's z_nfree is its never-used chunks plus its free list, a zone is linked iff z_nfree > 0, and page runs in use are disjoint and with the free pages make up all pages |
| Slab.MallocInv | rt-thread/src/slab.c:478-667 | an allocation keeps the invariant |
| Slab.FreeInv | rt-thread/src/slab.c:771-904 | a release keeps the invariant, through retiring and releasing zones |
| Slab.MallocFresh | rt-thread/src/slab.c:478-667 | malloc hands out something not in use, which then is; nothing else changes hands; a refusal changes nothing |
| Slab.FreeExact | rt-thread/src/slab.c:771-904 | free of a zone's chunk or of a run of pages takes back exactly that |
| Slab.LiveApart | rt-thread/src/slab.c:478-667 | no two live blocks share a byte |
| Slab.Enclosed | rt-thread/src/slab.c:628-648 | a live block lies inside its pages, a chunk behind its zone's header |
| Slab.MallocHolds | rt-thread/src/slab.c:478-667 | what malloc hands out holds the bytes asked for |
| SlabLaws.MallocExact | rt-thread/src/slab.c:478-667 | malloc fails exactly for no bytes, for a large request that wraps or finds no run of pages, and for a small one when no zone of its size has a chunk, none is spare and no run makes a zone |
| SlabLaws.MallocSize | rt-thread/src/slab.c:478-667 | what malloc hands out has exactly the chunk size of the request, or the pages it needs |
| SlabLaws.ServedBy | rt-thread/src/slab.c:539-659 | a small request is served by the first zone of its list, else by the zone retired last, else by a zone made of the first run large enough |
| SlabLaws.GiveOrder | rt-thread/src/slab.c:556-568 | chunks never used are given first, in order, then the one given back last |
| SlabLaws.FreeRetires | rt-thread/src/slab.c:826-904 | a chunk goes back to its zone, which stays unless it has no chunk in use and another of its size has one to give; then it becomes spare or, if there are enough, its pages are free |
| SlabLaws.FreeReturnsPages | rt-thread/src/slab.c:798-818 | the pages of a large block are free again, and no others |
| SlabUsage.AlwaysLocated | rt-thread/src/slab.c:795-827 | in every run, whatever memusage held at first, the descriptor of a live block's page gives its kind and zone, and its address the chunk |
| SlabUsage.AlwaysDescribes | rt-thread/src/slab.c:478-904 | in every run the descriptors of every zone's pages, in use or spare, give their offsets, and that of a large block its size, stale entries notwithstanding |
| SlabUsage.MallocDescribes | rt-thread/src/slab.c:493-623 | an allocation writes the descriptors of the pages it takes and no other block's |
| SlabUsage.FreeDescribes | rt-thread/src/slab.c:795-893 | a release disturbs no other block's descriptors |
| SlabUsage.MallocMarks | rt-thread/src/slab.c:502-623 | an allocation describes the run it takes and no other page |
| SlabUsage.FreeMarks | rt-thread/src/slab.c:795-891 | a freed large block leaves an entry of size 0, the pages of a released zone are marked free, and no other entry changes |
| SlabUsage.Located | rt-thread/src/slab.c:795-827 | right descriptors lead from a live block's address to the block |
| SlabObject.SlabHeap.constructor | rt-thread/src/slab.c:344-395 | initialisation has no zone and all pages free, whatever memusage holds |
| SlabObject.SlabHeap.AllocChunk | rt-thread/src/slab.c:539-577 | a chunk from the head zone, which leaves its list with its last chunk |
| SlabObject.SlabHeap.AllocZone | rt-thread/src/slab.c:587-659 | a spare zone or one of fresh pages, whose descriptors are then set, is opened and gives its first chunk |
| SlabObject.SlabHeap.MarkZone | rt-thread/src/slab.c:616-622 | the loop describes exactly the pages of the zone |
| SlabObject.SlabHeap.UnmarkZone | rt-thread/src/slab.c:886-891 | the loop describes exactly the pages of the zone as free |
| SlabObject.SlabHeap.AllocLarge | rt-thread/src/slab.c:493-521 | a large request takes whole pages and describes the first |
| SlabObject.SlabHeap.MallocBytes | rt-thread/src/slab.c:478-667 | malloc does what the model heap does, memusage included |
| SlabObject.SlabHeap.Unlink | rt-thread/src/slab.c:862-865 | the walk takes exactly the given zone out of its list |
| SlabObject.SlabHeap.Retire | rt-thread/src/slab.c:854-900 | an empty zone becomes spare or, beyond the threshold, has its descriptors cleared and gives its pages back |
| SlabObject.SlabHeap.FreePtr | rt-thread/src/slab.c:771-904 | free, given the address of a live block only, does what the model heap does to that block, memusage included |
| SlabObject.SlabHeap.Find | rt-thread/src/slab.c:795-827 | reading memusage and the zone header at an address finds the block |
| SlabObject.SlabHeap.FreeChunk | rt-thread/src/slab.c:822-904 | a chunk goes back to its zone, which is retired with its last one |
| TimerCheck.CheckFires | rt-thread/src/timer.c:529-597 | the check fires exactly the due timers that no earlier callback has stopped or restarted, and leaves no timer due |
| TimerCheck.FiresInOrder | rt-thread/src/timer.c:529-597 | timers fire in deadline order, ties in start order, each at most once |
| TimerCheck.ExpectedIs | rt-thread/src/timer.c:573-577 | what fires was due at the start; what was due and did not fire was stopped or restarted by the callback of a timer fired before |
| TimerCheck.CheckSettles | rt-thread/src/timer.c:556-585 | over a whole check a timer no callback touches fires iff it is due; then it runs again from now if periodic, else is inactive; otherwise nothing changes for it |
| TimerCheck.FireDues | rt-thread/src/timer.c:543-591 | each turn fires the first due timer and makes no other due, which is why the loop ends |
| TimerCheck.FiresAtItsTick | rt-thread/src/timer.c:529-597 | in every run of starts with any times, stops and ticks, a timer fires at its tick; one started with no delay, and no other, may fire one tick later |
| TimerRuns.FiresAfter | rt-thread/src/timer.c:315-597 | a timer started with n > 0 ticks and left alone fires at the n-th tick and at none before, whatever else happens in the run; then it runs again from that tick if periodic, else it has stopped |
| TimerRuns.StartSets | rt-thread/src/timer.c:315-428 | a started timer runs and is due after exactly the ticks asked for, behind those due at the same tick; nothing changes for any other |
| TimerRuns.StopClears | rt-thread/src/timer.c:438-462 | a stopped timer does not run; nothing changes for any other |
| TimerRuns.StaysStopped | rt-thread/src/timer.c:438-597 | a timer stopped and left alone never fires |
| TimerRuns.CallbackCounts | rt-thread/src/timer.c:543-591 | after the turn that fires a timer, every timer its callback names, itself included, is as the last operation on it says |
| Timer.PlacedSorted | rt-thread/src/timer.c:357-395 | inserting behind equal deadlines keeps the list sorted by deadline with ties in start order |
| Timer.StartInv | rt-thread/src/timer.c:315-428 | a start keeps the running timers sorted, active and within half the tick range; the deadline it sets is StartSets |
| Timer.StopInv | rt-thread/src/timer.c:438-462 | a stop keeps the invariant |
| TimerList.BehindExact | rt-thread/src/timer.c:374-381 | the wrapped comparison of two deadlines is right iff the one is less than half the range ahead or at most half and two behind |
| TimerList.DueTest | rt-thread/src/timer.c:548-552 | the wrapped test of the check tells whether a timer near the present is due |
| TimerList.RungSubsequence | rt-thread/src/timer.c:357-406 | each row of the skip list is a subsequence of the row below |
| TimerList.RaisedLadder | rt-thread/src/timer.c:394-406 | inserting into the rows reached keeps every row sorted and inside the next |
| TimerList.ReachPower | rt-thread/src/timer.c:391-406 | a start reaches j rows above the last iff 4^j divides the start count |
| TimerList.TimerRows.constructor | rt-thread/src/timer.c:730-738 | no timer runs at first |
| TimerList.TimerRows.Advance | rt-thread/src/clock.c:62-71 | the tick wraps while true time goes on |
| TimerList.TimerRows.Detach | rt-thread/src/timer.c:136-144 | the timer is in no row any more |
| TimerList.TimerRows.FindPlaces | rt-thread/src/timer.c:357-385 | in every row the search ends behind exactly the timers due no later |
| TimerList.TimerRows.Raise | rt-thread/src/timer.c:391-406 | the timer is inserted at its place in exactly the rows its start count reaches |
| TimerList.TimerRows.Start | rt-thread/src/timer.c:315-428 | with wrapped ticks and any number of rows, the last row and the deadline change as in the model, by StartSets |
| TimerList.TimerRows.SetTime | rt-thread/src/timer.c:489-491 | the time is set and nothing else changes |
| TimerList.TimerRows.LinkIn | rt-thread/src/timer.c:357-406 | the timer is put at its place in every row its start count reaches |
| TimerList.TimerRows.Stop | rt-thread/src/timer.c:438-462 | stop does what the model does and reports an inactive timer |
| TimerList.TimerRows.Callback | rt-thread/src/timer.c:564-565 | a callback that starts and stops timers does what the model does |
| TimerList.TimerRows.FireOne | rt-thread/src/timer.c:552-586 | one turn does what the model does, temporary list included |
| TimerList.TimerRows.CheckTimers | rt-thread/src/timer.c:529-597 | the check on the skip list fires what the model fires and terminates |
| Scheduler.Exec | rt-thread/src/scheduler.c:409-826 | in every run every ready thread is in exactly the queue of its priority, once, and the current thread in none |
| Scheduler.ScheduleChooses | rt-thread/src/scheduler.c:409-529 | unlocked and with a thread ready, the thread left running is at least as urgent as every ready one |
| Scheduler.NoNeedlessSwitch | rt-thread/src/scheduler.c:430-445 | a running thread that has not yielded loses the processor iff a more urgent one is ready; otherwise nothing changes |
| Scheduler.LockedStays | rt-thread/src/scheduler.c:418-424 | with the scheduler locked, or nothing ready, nothing changes |
| SchedulerLaws.ScheduleLaw | rt-thread/src/scheduler.c:409-529 | priorities never change; a thread not running hands over to the first of the most urgent queue; a running one drops its wish to yield and, if it has to go, becomes ready, last of its priority; nobody else is touched |
| SchedulerLaws.ScheduleServes | rt-thread/src/scheduler.c:409-529 | rt_schedule makes nobody able or unable to run, and unless locked leaves the processor with the right thread |
| SchedulerLaws.CallsServe | rt-thread/src/thread.c:316-881 | yield, timeout and startup make exactly their thread able to run and then leave the processor with the right thread, unless locked |
| SchedulerLaws.SuspendLaw | rt-thread/src/thread.c:767-806 | suspend refuses exactly a thread neither ready nor running, changing nothing; otherwise the thread is suspended and in no queue, and nothing else changes |
| SchedulerLaws.ResumeLaw | rt-thread/src/thread.c:816-850 | resume refuses exactly a thread not suspended, changing nothing; otherwise it becomes ready, last of its priority, and nothing else changes |
| SchedulerLaws.ChangeLaw | rt-thread/src/thread.c:664-707 | a change of priority changes that only and moves a ready thread to the end of its new queue |
| SchedulerLaws.LaunchLaw | rt-thread/src/thread.c:316-348 | startup gives the thread its priority and makes it ready, last of that priority |
| SchedulerLock.LockExact | rt-thread/src/scheduler.c:872-961 | in all runs that open at most d critical sections at a time, the scheduler is locked exactly while one is open, iff d is at most 0x8000 |
| SchedulerLock.NestIs | rt-thread/src/scheduler.c:883-946 | up to that depth the 16-bit counter is the number of open sections, wrapped at the last |
| Scheduler.YieldRotates | rt-thread/src/thread.c:496-509 | a yield at the most urgent priority passes the processor to the next thread of that priority and puts the caller last |
| Scheduler.RoundRobin | rt-thread/src/thread.c:496-509 | successive yields run the threads of that priority in queue order, each once in a round |
| Scheduler.ScheduleInv | rt-thread/src/scheduler.c:409-529 | rt_schedule keeps the invariant in every branch |
| Scheduler.ChangeInv | rt-thread/src/thread.c:664-707 | changing the priority of a thread in any state keeps the invariant |
| Scheduler.SuspendInv | rt-thread/src/thread.c:767-806 | suspending keeps the invariant; what it does is SuspendLaw |
| Scheduler.ResumeInv | rt-thread/src/thread.c:816-850 | resuming keeps the invariant |
| Scheduler.LaunchInv | rt-thread/src/thread.c:316-348 | starting a thread keeps the invariant |
| Ffs.FirstSetIs | rt-thread/src/kservice.c:1408-1425 | the result is one more than the number of the lowest bit set, and 0 exactly for 0 |
| Ffs.TableRight | rt-thread/src/kservice.c:1378-1396 | every table entry but the first is the lowest bit set in its index |
| SchedulerObject.TopByBits | rt-thread/src/scheduler.c:153-175 | the bitmap is 0 iff no queue has a thread, and its first set bit is the most urgent queue |
| SchedulerObject.SchedulerState.constructor | rt-thread/src/scheduler.c:187-230 | with no thread ready the bitmap is 0 |
| SchedulerObject.SchedulerState.Insert | rt-thread/src/scheduler.c:699-733 | bit p stays set iff queue p is not empty |
| SchedulerObject.SchedulerState.Remove | rt-thread/src/scheduler.c:796-826 | bit p stays set iff queue p is not empty |
| SchedulerObject.SchedulerState.SwitchTo | rt-thread/src/scheduler.c:447-462 | the new thread leaves its queue and runs; a still running old one goes to the end of its own |
| SchedulerObject.SchedulerState.Reschedule | rt-thread/src/scheduler.c:409-529 | with the bitmap, rt_schedule chooses as the model without it does |
| SchedulerObject.SchedulerState.EnterCritical | rt-thread/src/scheduler.c:872-887 | the nest counter steps up in 16 bits and no thread is touched |
| SchedulerObject.SchedulerState.ExitCritical | rt-thread/src/scheduler.c:936-961 | the nest counter steps down; at 0 or below it is 0 and the processor goes to the most urgent thread |
| SchedulerObject.SchedulerState.YieldThread | rt-thread/src/thread.c:496-509 | yield does what the model does |
| SchedulerObject.SchedulerState.SuspendThread | rt-thread/src/thread.c:767-806 | suspend does what the model does, by SuspendLaw, and refuses a thread neither ready nor running |
| SchedulerObject.SchedulerState.ResumeThread | rt-thread/src/thread.c:816-850 | resume does what the model does and refuses a thread not suspended |
| SchedulerObject.SchedulerState.TimeoutThread | rt-thread/src/thread.c:859-881 | a timeout does what the model does |
| SchedulerObject.SchedulerState.ChangePriority | rt-thread/src/thread.c:664-707 | the queue, the priority and the remembered bit change together |
| SchedulerObject.SchedulerState.StartThread | rt-thread/src/thread.c:316-348 | startup does what the model does |
| RtcTrim.Trim | libraries/UC8088_HAL_Driver/src/uc_rtc.c:151-279 | for a non-decreasing measurement the code left programmed is inside the band or nearest to the reference of all codes, is inside whenever any code is, and the returned count is its count |
| RtcCalendar.Clock.AddInterval | libraries/UC8088_HAL_Driver/src/uc_rtc.c:584-649 | the date moves on by exactly the interval, stays normalised, and its weekday moves by the same number of days |
| RtcCalendar.Clock.MonthSeconds | libraries/UC8088_HAL_Driver/src/uc_rtc.c:592-595 | the loop sums the months before the current one |
| RtcCalendar.Clock.SkipYears | libraries/UC8088_HAL_Driver/src/uc_rtc.c:606-618 | whole years are taken out without changing the instant |
| RtcCalendar.Clock.SkipMonths | libraries/UC8088_HAL_Driver/src/uc_rtc.c:620-632 | whole months are taken out without changing the instant |
| RtcCalendar.Clock.SpreadOut | libraries/UC8088_HAL_Driver/src/uc_rtc.c:634-641 | the rest is spread over days, hours, minutes and seconds |
| RtcCalendar.GregorianExact | libraries/UC8088_HAL_Driver/src/uc_rtc.c:561-569 | from a date in 2000-2099 the result is the Gregorian date iff it lies before 1 March 2100 |
| RtcCalendar.NoLeapDay2100 | libraries/UC8088_HAL_Driver/src/uc_rtc.c:561-569 | 60 days after 31 December 2099 the driver arrives at 29 February 2100, which does not exist |
| RtcCalendar.InstantTells | libraries/UC8088_HAL_Driver/src/uc_rtc.c:584-649 | two normal times with the same instant are the same date and time of day, so the instant determines the result of adding an interval |
| RtcCalendar.MonthFormula | libraries/UC8088_HAL_Driver/src/uc_rtc.c:571-582 | the days before each month, in closed form |
| RtcCalendar.YearFormula | libraries/UC8088_HAL_Driver/src/uc_rtc.c:561-569 | the days before each year, in closed form, for the driver's calendar and the Gregorian one |

## Left out

- SMP, signals, hooks, debug output, object names and types, the idle thread: not configured, or bookkeeping with easy invariants.
- Semaphores, memory pools and C++ wrappers: smaller relatives of the objects modelled; the heap semaphores are taken to make allocator calls sequential.
- Nested mutexes, outside changes of priority while a mutex is held, and deletion of threads or objects with sleepers: the theorems are about one mutex and about threads that live.
- Devices, drivers, boot code, finsh, printf: hardware registers or formatting.
- rt_calloc, which is rt_malloc and a memset; the max_mem and max_used_size marks, which record maxima for reports; rt_realloc of the slab heap, which returns the same chunk for the same chunk size and otherwise allocates, copies and frees.
- Detaching and deleting timers, changing a timer's mode, soft timers: left out; callbacks set the time of, start and stop timers only, and no time passes during a check because interrupts stay disabled.
- Time slices, detaching and closing threads.
- rc32k_autoset, which nests the two searches, and the hardware behind a measurement: the measurement is any non-decreasing function.
- MemHeapObject.PoolObject.Realloc: excludes the overrunning request; MemHeap.ReallocGood and OverrunBreaks say what it does to the blocks, but the headers it then overwrites no longer spell out a ring.
- MemHeapObject.PoolObject.constructor: excludes pools below two headers, for which the source computes a negative size without a check; MemHeap.InitExact says that exactly those are not in order.
- TimerList.TimerRows.Detach: takes the timer out of rows that are sequences; the pointer operation on one row is RtList.Remove.
- SlabObject.SlabHeap.FreePtr: excludes addresses that are not those of live blocks, as the source leaves them to an assertion.
