# Models and proofs of the firmware's kernel objects, reciprocals, soft I2C and number text

Every task of the firmware works on the kernel objects of FreeRTOS V10.0.1. This project models these
objects and three pieces of self-contained code, and proves what each is for:

- **Queues, semaphores and mutexes** (`QueueControl`, `QueueProtocol`, `QueueCalls`, `QueueStranded`,
  `QueueStorage`, `QueueObject`).
  `QueueControl` has one function for the control part of each critical section. `QueueProtocol`
  interleaves them: any number of tasks run the retry loops, ISRs post and receive at any point, blocked
  tasks time out. The result is that no wake-up is lost, with the exact conditions under which a reset or
  an overflowing lock count loses one; `QueueStranded` has runs in which they do. `QueueCalls` has the
  other direction: no wake-up for nothing, and no call that fails without a reason. `QueueObject` is the
  object with its byte array and pointers; each method is proved equal to its function in `QueueControl`
  and, for the data, to an operation on a double-ended sequence of items.
- **Queue sets** (`QueueSets`): each message of a member is accounted for once, in the set, behind the
  lock, or in the hands of a task that has selected it; and members are selected in the order in which
  they were announced.
- **Recursive mutexes** (`RecursiveMutex`): the unprotected test of the holder and the unprotected
  counting are safe under every interleaving, and the mutex is held exactly while takes outnumber gives.
- **Lists** (`RingList`, `RoundRobin`, `EventLists`, `ServingOrder`): the intrusive ring with its links, against a
  sequence; the order in which pxIndex visits items over any history; the order in which an event
  list serves its tasks, over every run of the blocking protocol.
- **Event groups** (`EventBits`, `EventGroup`, `EventProtocol`, `EventCalls`, `Barrier`): the walk that unlinks items
  while walking is proved equal to a function on values, over every run nobody is left waiting for
  bits that are set, and `xEventGroupSync` is a barrier, also beside other tasks that use
  other bits of the group.
- **Stream and message buffers** (`StreamProtocol`, `MessageProtocol`, `StreamWakeUp`, `StreamBuffer`):
  the ring without locks, one step per byte copied and per index published, under one writer and
  one reader; the framing of messages on top of it, and when putting a too long message back loses bytes;
  the wake-ups of both sides; and the buffer object, one call at a time.
- **Fixed-point reciprocals** (`Reciprocal`, `NegativeQ15`): the error of each Newton step, and of the
  whole with the shipped tables, for every input that can be normalised.
- **Soft I2C** (`SoftI2c`, `SoftI2cDevice`): what a listener on the two lines decodes, by sections 3.1.3
  to 3.1.6 of UM10204, is what the master meant to send; and a device with registers gives back to
  `i2c_read` what `i2c_write` has stored in it, retries and bus resets included.
- **Number text** (`NumberText`, `NumberSyntax`): what `xatoi` makes of every text; and it reads back every list of 32-bit numbers that `xvprintf` has printed
  with spaces for padding, and of a binary number the sixteen digits that are printed.

`Bytes` and `Powers` hold what several modules share. `dafny verify dfyconfig.toml` checks all of it.

## How to read it

A protocol is a state, a set of steps with their guards, and a function `Next`; one step is what no
other party can divide: a critical section, the code run with the scheduler suspended as far as ISRs
cannot see it, one unprotected read or write, or one byte copied. `StepKeeps` is the invariant, and the
theorems speak of every sequence of enabled steps from an initial state. An object that the source
updates in place is a class; its methods are tied to functions on its abstract value.

Functions of `tasks.c` appear as what they do to an event list: `xTaskRemoveFromEventList` takes the
head, `vTaskPlaceOnEventList` inserts by `configMAX_PRIORITIES` (8) minus the priority, and suspending
the scheduler stops other tasks but not ISRs. Queue sets, mutexes and recursive mutexes are configured
in. A `size_t` and an `unsigned long` have 32 bits.

## Where code and documentation differ

- `xQueueRemoveFromSet` tests the queue before its critical section (FreeRTOS/FreeRTOS/queue.c:2794-2808);
  `QueueSets.DetachLeavesHandleIff` says exactly when the section leaves a stale handle.
- `xMessageBufferReceive` is documented to leave a message that does not fit the room provided in the
  buffer (FreeRTOS/include/message_buffer.h:453-454). While it has taken the header a sender may use the
  four bytes, and putting the message back then loses a storage area (`MessageProtocol.RollbackLosesBytes`).
- `I2C2_ResetBus` is said to clock until SDA goes high; it always gives nine clocks and never looks
  at SDA (src/soft_i2c.c:126-132).
- `xatoi` takes the characters `:` to `?`, which follow `9`, for the hexadecimal digits 10 to 15
  (src/xprintf.c:377-384); `NumberSyntax.Worth` says so.
- `arm_recip_q31` and `arm_recip_q15` have a branch for negative inputs, but the unsigned arithmetic of
  the loop does not suit them. In Q31 every negative input gives the largest positive value
  (`Reciprocal.RecipIsAccurate`). In Q15 the sign is right on three ranges of the normalised input, and
  the accuracy that of a positive one for six inputs and no others (`NegativeQ15.NegativeResults`).

## Model

| member | source | states |
|---|---|---|
| `RingList.List.constructor` | FreeRTOS/FreeRTOS/list.c:37-59 | a new list is a ring of its end marker alone, with the largest value and pxIndex on the marker |
| `RingList.InsertPosition` | FreeRTOS/FreeRTOS/list.c:114-155 | the place of a value in a list: every earlier value is no larger and the next one is larger, so equal values keep their order; portMAX_DELAY goes last |
| `RingList.List.InsertionPoint` | FreeRTOS/FreeRTOS/list.c:122-155 | the pointer walk stops, and stands on the item after which the value belongs |
| `RingList.List.Insert` | FreeRTOS/FreeRTOS/list.c:103-167 | the item is hooked in at its sorted place, links of neighbours stay mutually inverse, the count is the ring size, pxIndex stays on its item and no value changes |
| `RingList.List.InsertEnd` | FreeRTOS/FreeRTOS/list.c:74-100 | the item is hooked in just before pxIndex and nothing else moves |
| `RingList.List.Remove` | FreeRTOS/FreeRTOS/list.c:170-196 | exactly that item leaves, the links close up, pxIndex steps back when it stood on it, and the number left is returned; what a user sees is the removal from the sequence |
| `RingList.SpliceIn` | FreeRTOS/FreeRTOS/list.c:87-94 | the four pointer writes of an insertion turn one well linked ring into the ring with the item in place |
| `RingList.SpliceOut` | FreeRTOS/FreeRTOS/list.c:176-177 | the two pointer writes of a removal turn one well linked ring into the ring without the item |
| `RingList.List.Advance` | FreeRTOS/include/private/list.h:276-287 | pxIndex moves to the next item, over the end marker, and that item is returned |
| `RoundRobin.AdvanceRotates` | FreeRTOS/include/private/list.h:276-287 | an advance returns the first item of the rotation and moves it to the end of the rotation |
| `RoundRobin.InsertEndRotation` | FreeRTOS/FreeRTOS/list.c:74-100 | a new item is met after every older one except the one pxIndex stands on |
| `RoundRobin.RemoveRotation` | FreeRTOS/FreeRTOS/list.c:170-196 | a removal, even of the item pxIndex stands on, leaves the order in which the others are met alone |
| `RoundRobin.VisitsTakeTurns` | FreeRTOS/FreeRTOS/list.c:74-196 | over every history of insertions, removals and advances, two items that stay on the list are visited strictly in turn |
| `RoundRobin.FullRotation` | FreeRTOS/include/private/list.h:276-287 | as many advances as there are items return every item once |
| `EventLists.ApplyIsQueueStep` | FreeRTOS/FreeRTOS/tasks.c:2981-3120 | joining, waking the head and timing out are what the functions of a queue do to its event lists, so the order proved here is the order there |
| `EventLists.ApplyKeepsOrder` | FreeRTOS/FreeRTOS/tasks.c:2981-3120 | a task joining, being woken or timing out keeps an event list in serving order: priority first, then how long a task has waited |
| `EventLists.HeadServedFirst` | FreeRTOS/FreeRTOS/tasks.c:2981-3120 | after every history the head, which the next event wakes, is the longest-waiting task of the highest waiting priority |
| `EventLists.InsertKeepsSorted` | FreeRTOS/FreeRTOS/list.c:103-167 | a sorted insertion keeps the values of a list sorted |
| `EventLists.RemoveKeepsSorted` | FreeRTOS/FreeRTOS/list.c:170-196 | a removal keeps the values of a list sorted |
| `ServingOrder.StepIsListOps` | FreeRTOS/FreeRTOS/queue.c:725-921 | every step of the blocking protocol changes an event list by joins, wake-ups of the head and time-outs only |
| `ServingOrder.ListsInServingOrder` | FreeRTOS/FreeRTOS/queue.c:725-921 | in every reachable state of the blocking protocol both event lists are ordered by priority and, among equals, by when the tasks joined |
| `EventLists.DisinheritPriority` | FreeRTOS/FreeRTOS/queue.c:2015-2035 | the priority returned is the highest one waiting for the mutex, or the idle priority when nobody waits |
| `QueueProtocol.StepKeeps` | FreeRTOS/FreeRTOS/queue.c:725-921 | every critical section of the send, receive, take and peek loops, every ISR post or receive, every time-out and reset keeps the state consistent, and keeps each side's guarantee as long as that side's own counter does not wrap |
| `QueueProtocol.NoLostReceiverWakeUp` | FreeRTOS/FreeRTOS/queue.c:1239-1379 | in every interleaving in which at most 127 ISR posts fall under one lock, while receivers wait there are no more messages than receivers already woken plus posts counted by the lock |
| `QueueProtocol.NoLostSenderWakeUp` | FreeRTOS/FreeRTOS/queue.c:725-921 | the dual for free slots and senders, with at most 127 ISR receives under one lock and no reset while several senders wait |
| `QueueProtocol.BlockedForAReason` | FreeRTOS/FreeRTOS/queue.c:725-921 | when no task can go on, tasks blocked on a receive find the queue empty and tasks blocked on a send find it full, each under its own side's condition only |
| `QueueProtocol.RestMeansNobodyPending` | FreeRTOS/FreeRTOS/queue.c:2137-2253 | when no task can go on, the scheduler runs, nobody who was woken is still to retry, and the queue is unlocked |
| `QueueProtocol.PlaceKeeps` | FreeRTOS/FreeRTOS/queue.c:1327-1346 | a task that saw the queue empty and is placed on the list outside a critical section is not overlooked: what arrived since is in the lock count |
| `QueueProtocol.UnlockKeeps` | FreeRTOS/FreeRTOS/queue.c:2137-2253 | each half of an unlock turns its lock count into woken tasks without losing one |
| `QueueProtocol.ResetServesSenders` | FreeRTOS/FreeRTOS/queue.c:247-304 | a reset keeps the sender guarantee if and only if at most one sender waits or those already woken cover the other slots |
| `QueueProtocol.PostServesReceivers` | FreeRTOS/FreeRTOS/queue.c:1053-1058 | a post from an ISR keeps the receiver guarantee if and only if its lock count still fits eight bits, or nobody waits, or the receivers already woken cover all messages |
| `QueueProtocol.ReceiveServesSenders` | FreeRTOS/FreeRTOS/queue.c:1820-1825 | a receive from an ISR keeps the sender guarantee if and only if its lock count still fits eight bits, or nobody waits, or the senders already woken cover all free slots |
| `QueueStranded.Blocks` | FreeRTOS/FreeRTOS/queue.c:870-902 | the call of a task that has to wait, run to the end without interruption, leaves it blocked in its place on the list and the queue unlocked |
| `QueueStranded.ResetStrandsSender` | FreeRTOS/FreeRTOS/queue.c:269-284 | from every initial full queue of at least two items a run with one reset leads to rest with a sender blocked beside free slots |
| `QueueStranded.PostsStrandReceiver` | FreeRTOS/FreeRTOS/queue.c:1053-1058 | from every initial empty queue of at least 128 items a run with 128 posts under one lock leads to rest with a receiver blocked beside 128 messages |
| `QueueStranded.ReceivesStrandSender` | FreeRTOS/FreeRTOS/queue.c:1820-1825 | from every initial full queue of at least 128 items a run with 128 receives under one lock leads to rest with a sender blocked beside 128 free slots |
| `QueueCalls.StepReadies` | FreeRTOS/FreeRTOS/queue.c:2137-2253 | no step makes more tasks ready, on either side, than it has posted, taken, reset or peeked at, or than its lock had counted |
| `QueueCalls.NoWakeUpForNothing` | FreeRTOS/FreeRTOS/queue.c:725-921 | in every run no more receivers are made ready than messages were posted or peeked at, and no more senders than messages were taken and resets made, those still counted by a lock included |
| `QueueCalls.FailsForAReason` | FreeRTOS/FreeRTOS/queue.c:830-921 | in every run a call ends with its own critical section, or its time is up, or it had none, and the queue had nothing for it when it last looked; a receive finds it empty at that very moment |
| `QueueCalls.ExpiredCallEnds` | FreeRTOS/FreeRTOS/queue.c:851-921 | a call that finds its time is up does not wait any more |
| `QueueCalls.ZeroCallReturns` | FreeRTOS/FreeRTOS/queue.c:830-842 | a call without block time is over after one look at the queue |
| `QueueCalls.SucceedsIfItCan` | FreeRTOS/FreeRTOS/queue.c:740-827 | a call succeeds whenever it finds a message, or room, when it looks |
| `QueueCalls.CountMoves` | FreeRTOS/FreeRTOS/queue.c:2040-2117 | every send and receive that succeeds changes the message count by one, an overwrite leaves one, a reset none, and nothing else changes it |
| `QueueStorage.MemcpyStores` | FreeRTOS/FreeRTOS/queue.c:2067-2084 | a copy of one item to the beginning of a slot replaces that slot and no other, for any item size and length |
| `QueueStorage.OffsetSteps` | FreeRTOS/FreeRTOS/queue.c:2070-2092 | the byte comparisons at pcHead and pcTail move a pointer to the neighbouring slot, around the ends |
| `QueueStorage.WriteSlotIsModular` | FreeRTOS/FreeRTOS/queue.c:255-258 | the slot pcWriteTo names is one plus the messages waiting after the slot pcReadFrom names, modulo the length |
| `QueueStorage.SlotsMove` | FreeRTOS/FreeRTOS/queue.c:2040-2134 | that relation survives a send to the back, a send to the front and a receive |
| `QueueStorage.PlacedBack` | FreeRTOS/FreeRTOS/queue.c:2066-2078 | a send to the back appends the item to the sequence of items |
| `QueueStorage.PlacedFront` | FreeRTOS/FreeRTOS/queue.c:2079-2091 | a send to the front puts the item before all others |
| `QueueStorage.PlacedOverwrite` | FreeRTOS/FreeRTOS/queue.c:2092-2113 | an overwrite leaves exactly the new item, whether the slot was used or not |
| `QueueObject.Queue_t.constructor` | FreeRTOS/FreeRTOS/queue.c:408-447 | a new queue is empty, unlocked, with nobody waiting |
| `QueueObject.Queue_t.CopyDataToQueue` | FreeRTOS/FreeRTOS/queue.c:2040-2117 | the bytes copied and the pointers moved place the item at the back, at the front or over the only one; with item size 0 the union with the recursive call count is not touched, and an overwrite of a full queue counts past its length |
| `QueueObject.Queue_t.CopyDataFromQueue` | FreeRTOS/FreeRTOS/queue.c:2119-2134 | the item copied out is the one in the slot after the last read; with item size 0 nothing moves |
| `QueueObject.Queue_t.Send` | FreeRTOS/FreeRTOS/queue.c:740-827 | an item is accepted exactly when there is room or it overwrites; then it is placed and the first waiting receiver leaves its list; the count passes the length exactly when an item without bytes overwrites a full queue |
| `QueueObject.Queue_t.SendFromISR` | FreeRTOS/FreeRTOS/queue.c:923-1072 | the same from an ISR, except that on a locked queue the post is counted instead of waking anybody |
| `QueueObject.Queue_t.Receive` | FreeRTOS/FreeRTOS/queue.c:1262-1302 | the head item is returned and removed, the rest stays in order, and the first waiting sender leaves its list |
| `QueueObject.Queue_t.ReceiveFromISR` | FreeRTOS/FreeRTOS/queue.c:1750-1839 | the same from an ISR, except that on a locked queue the receive is counted, and an empty queue is left as it is |
| `QueueObject.Queue_t.Peek` | FreeRTOS/FreeRTOS/queue.c:1634-1667 | the head item is returned, the sequence of items and the read pointer are as before, and the next receiver leaves its list |
| `QueueObject.Queue_t.LockQueue` | FreeRTOS/FreeRTOS/queue.c:232-244 | a counter of an unlocked queue becomes zero, one of a locked queue stays, and nothing else changes |
| `QueueObject.Queue_t.UnlockTx` | FreeRTOS/FreeRTOS/queue.c:2145-2223 | the loop makes ready the first receivers in the list, as many as posts were counted or all if there are fewer, and unlocks |
| `QueueObject.Queue_t.UnlockRx` | FreeRTOS/FreeRTOS/queue.c:2226-2252 | the same for senders and receives |
| `QueueObject.Queue_t.Reset` | FreeRTOS/FreeRTOS/queue.c:247-304 | the queue is empty and unlocked afterwards and one sender leaves its list |
| `QueueSets.StepKeeps` | FreeRTOS/FreeRTOS/queue.c:2748-2898 | every post, selection, receive, lock, unlock, addition and removal keeps the accounting of the set |
| `QueueSets.EveryMessageAnnounced` | FreeRTOS/FreeRTOS/queue.c:2846-2898 | in every run each message of a member is announced in the set, waits behind the member's lock, or has been selected; with a set as long as its members at the time no post ever finds it full and no selected member is empty |
| `QueueSets.RoomForHandle` | FreeRTOS/FreeRTOS/queue.c:2853-2856 | a member that is not fully announced leaves room in a set as long as its members together |
| `QueueSets.NotifyAnnounces` | FreeRTOS/FreeRTOS/queue.c:2846-2898 | a notification adds one handle of the member and none of another; QueueSets.HandlesInOrder says where |
| `QueueSets.HandlesInOrder` | FreeRTOS/FreeRTOS/queue.c:2846-2898 | a post to the back goes behind the handles in the set, one to the front before them, an unlock puts the counted ones behind them, and a selection takes the first |
| `QueueSets.SelectedInOrder` | FreeRTOS/FreeRTOS/queue.c:2813-2898 | in every run with posts to the back the members selected, followed by the handles in the set, are the announcements in order |
| `QueueSets.CountIsBalance` | FreeRTOS/FreeRTOS/queue.c:2748-2898 | in every run a queue holds what was posted to it less what was received |
| `QueueSets.StepCounts` | FreeRTOS/FreeRTOS/queue.c:2748-2810 | a queue joins a set only while it is empty and no member yet, and leaves it only while it is empty |
| `QueueSets.LocksInTurn` | FreeRTOS/FreeRTOS/queue.c:2137-2253 | a lock begins at zero and an unlock ends it, with the counters of all members unlocked |
| `QueueSets.UnlockKeeps` | FreeRTOS/FreeRTOS/queue.c:2150-2171 | the unlock of a member announces every post it counted |
| `QueueSets.ReceiveKeeps` | FreeRTOS/FreeRTOS/queue.c:2813-2841 | a selected member has a message to receive |
| `QueueSets.RemovalLeavesNoHandle` | FreeRTOS/FreeRTOS/queue.c:2783-2813 | a removal that succeeds without being interrupted leaves no handle of the queue in the set and no selection of it unused |
| `QueueSets.DetachLeavesHandleIff` | FreeRTOS/FreeRTOS/queue.c:2803-2808 | the critical section of a removal alone leaves a stale handle if and only if the queue holds a message by then |
| `QueueSets.RemovalRace` | FreeRTOS/FreeRTOS/queue.c:2794-2808 | a run in which an ISR posts between the test and the critical section and a stale handle remains |
| `RecursiveMutex.StepKeeps` | FreeRTOS/FreeRTOS/queue.c:574-664 | every unprotected read or write and every critical section of any task keeps the invariant of the mutex |
| `RecursiveMutex.OneHolder` | FreeRTOS/FreeRTOS/queue.c:1420-1441 | in every run the mutex is available exactly when it has no holder, two tasks are never inside, and between calls the call count is the holder's nesting depth |
| `RecursiveMutex.HeldWhileNested` | FreeRTOS/FreeRTOS/queue.c:574-664 | in every run a task between two calls holds the mutex exactly if its takes that succeeded outnumber its gives that succeeded, counted over the run, and uxRecursiveCallCount is by how many |
| `RecursiveMutex.TakeAlone` | FreeRTOS/FreeRTOS/queue.c:628-664 | an uninterrupted take of a mutex that is free or held by the caller counts one more and returns holding it |
| `RecursiveMutex.GiveAlone` | FreeRTOS/FreeRTOS/queue.c:574-622 | an uninterrupted give of the holder counts one less and frees the mutex exactly if it was the last |
| `RecursiveMutex.NotTheHolder` | FreeRTOS/FreeRTOS/queue.c:581-617 | a give of another task changes nothing, and a take of another task waits |
| `RecursiveMutex.FailedTake` | FreeRTOS/FreeRTOS/queue.c:648-660 | a take that times out leaves no trace, however long it has waited |
| `RecursiveMutex.TestIsExact` | FreeRTOS/FreeRTOS/queue.c:581-587 | the unprotected test of the holder passes for the task that is inside and for no other |
| `RecursiveMutex.ReleasedAtOutermostGive` | FreeRTOS/FreeRTOS/queue.c:596-604 | the mutex becomes free exactly in the give that matches the outermost take |
| `RecursiveMutex.NoLostUpdate` | FreeRTOS/FreeRTOS/queue.c:591-596 | the call count a task has read is still there when it writes, although nothing protects it |
| `EventBits.NumberRoundTrip` | FreeRTOS/FreeRTOS/tasks.c:3009-3016 | a word kept as the value of a list item is read back bit for bit |
| `EventBits.ConditionMeans` | FreeRTOS/FreeRTOS/event_groups.c:656-688 | a condition is met if all bits of the mask are set, or one of them is |
| `EventBits.EncodeRoundTrip` | FreeRTOS/FreeRTOS/event_groups.c:346-372 | the walk reads back the bits, the mode and the clear request of a blocked task, and the task can tell a release and its bits from a time-out |
| `EventBits.FewerBits` | FreeRTOS/FreeRTOS/event_groups.c:588-590 | clearing bits never satisfies a waiter |
| `EventBits.KeptExactly` | FreeRTOS/FreeRTOS/event_groups.c:530-586 | every waiter is released or stays by its own condition alone, none twice |
| `EventBits.ClearedExactly` | FreeRTOS/FreeRTOS/event_groups.c:562-590 | a bit is cleared exactly when a released waiter that clears on exit waited for it |
| `EventBits.OrderDoesNotMatter` | FreeRTOS/FreeRTOS/event_groups.c:529-590 | who is released and which bits remain do not depend on the order of the wait list |
| `EventGroup.Examine` | FreeRTOS/FreeRTOS/event_groups.c:536-572 | the branches of one turn decide the waiter's own condition and its bits to clear |
| `EventGroup.Release` | FreeRTOS/FreeRTOS/tasks.c:3123-3154 | the item leaves the list and holds the bits that released it |
| `EventGroup.EventGroup_t.Visit` | FreeRTOS/FreeRTOS/event_groups.c:530-586 | one turn of the walk: the item leaves the ring exactly when its condition is met, and the next item is the old neighbour either way |
| `EventGroup.EventGroup_t.Walk` | FreeRTOS/FreeRTOS/event_groups.c:524-586 | the walk over a ring that it changes ends, meets every item it found once, and collects the union of the bits to clear |
| `EventGroup.EventGroup_t.SetBits` | FreeRTOS/FreeRTOS/event_groups.c:520-591 | exactly the waiters met by the old bits and the new leave, all with the same value, the others keep their order, and the bits cleared are the union of what the released ones asked for |
| `EventGroup.EventGroup_t.ClearBits` | FreeRTOS/FreeRTOS/event_groups.c:446-470 | the bits are cleared, the value before is returned and nobody moves |
| `EventGroup.EventGroup_t.Block` | FreeRTOS/FreeRTOS/tasks.c:2998-3019 | the task joins the end of the wait list with what it waits for |
| `EventGroup.EventGroup_t.WaitBits` | FreeRTOS/FreeRTOS/event_groups.c:314-381 | if the condition is met the bits waited for are cleared exactly if that was asked, and the earlier bits are returned; otherwise the caller joins the end of the list, or without block time nothing changes |
| `EventGroup.EventGroup_t.Sync` | FreeRTOS/FreeRTOS/event_groups.c:191-233 | the bits are set with the whole walk; the caller returns all bits and clears the mask, joins the list, or without block time returns what is left |
| `EventGroup.EventGroup_t.AfterTimeOut` | FreeRTOS/FreeRTOS/event_groups.c:403-427 | a caller that timed out returns the bits, and clears those it waited for exactly if they are met by then and it asked for that |
| `EventProtocol.StepKeeps` | FreeRTOS/FreeRTOS/event_groups.c:176-595 | every call, release, time-out and resumption keeps the invariant of the event group |
| `EventProtocol.SetBitsSettles` | FreeRTOS/FreeRTOS/event_groups.c:524-590 | after the walk and the clearing nobody on the list has a condition that is met |
| `EventProtocol.NobodyOverlooked` | FreeRTOS/FreeRTOS/event_groups.c:176-595 | in every run no listed task has its condition met and the event bits hold no control bits |
| `EventProtocol.NobodySleepsOn` | FreeRTOS/FreeRTOS/event_groups.c:295-447 | in every run no blocked task has its own condition met |
| `EventProtocol.SetReturnsUnclaimedBits` | FreeRTOS/FreeRTOS/event_groups.c:503-595 | uninterrupted, xEventGroupSetBits returns exactly the bits set before or by the call that no task it released had asked to be cleared |
| `EventProtocol.SetReturnsCurrentBits` | FreeRTOS/FreeRTOS/event_groups.c:592-594 | if other tasks run first, xEventGroupSetBits returns the bits as they are when it reads them: no control bits, and nobody left waiting for them |
| `EventProtocol.ReleasedReturnsItsBits` | FreeRTOS/FreeRTOS/event_groups.c:399-436 | a task released by bits returns bits that meet its own condition, without control bits, whatever happened in between |
| `EventCalls.WaitExactly` | FreeRTOS/FreeRTOS/event_groups.c:314-381 | what xEventGroupWaitBits does to bits, list and tasks, and what it returns, in each of its cases |
| `EventCalls.SetExactly` | FreeRTOS/FreeRTOS/event_groups.c:503-591 | xEventGroupSetBits leaves exactly the bits nobody it released had asked to be cleared, and releases exactly the blocked tasks whose condition is met, with all the bits as their result |
| `EventCalls.SyncExactly` | FreeRTOS/FreeRTOS/event_groups.c:176-233 | the same for xEventGroupSync, with what the caller itself gets: all bits, a place in the list, or what is left |
| `EventCalls.ClearExactly` | FreeRTOS/FreeRTOS/event_groups.c:449-471 | xEventGroupClearBits clears these bits, returns the earlier ones and changes nothing else |
| `EventCalls.TimeOutExactly` | FreeRTOS/FreeRTOS/event_groups.c:399-403 | a time-out takes the task off the list, not released, and changes nothing else |
| `EventCalls.ResumeExactly` | FreeRTOS/FreeRTOS/event_groups.c:399-440 | a released task returns the bits that released it and leaves the group alone; one that timed out returns the present bits and clears its own exactly if they are met and it asked for that |
| `Barrier.CompleteIff` | FreeRTOS/FreeRTOS/event_groups.c:197-200 | an arrival completes the rendezvous exactly when every other task is blocked in it |
| `Barrier.StepKeeps` | FreeRTOS/FreeRTOS/event_groups.c:176-293 | every arrival, resumption and step of another task keeps each task in its round |
| `Barrier.OthersKeep` | FreeRTOS/FreeRTOS/event_groups.c:176-595 | other tasks that set, clear, wait for and time out on other bits of the group leave the rendezvous as it was |
| `Barrier.NobodyLeavesEarly` | FreeRTOS/FreeRTOS/event_groups.c:176-293 | over any number of rounds no task has more calls returned than any other task has made, whatever other tasks do with other bits of the group, waiting for them included |
| `Barrier.LastArrivalReleasesAll` | FreeRTOS/FreeRTOS/event_groups.c:191-204 | the last arrival returns, releases all tasks blocked in the rendezvous to return the same bits, and leaves its bits clear |
| `Barrier.ReturnsAllBits` | FreeRTOS/FreeRTOS/event_groups.c:251-284 | however a call returns, its value holds the bits of all tasks |
| `Barrier.BitsTellWhoIsBlocked` | FreeRTOS/FreeRTOS/event_groups.c:191-234 | the bit of a task is set exactly while it is blocked, even when a fast task re-enters before slower ones resume |
| `Barrier.CallsCounted` | FreeRTOS/FreeRTOS/event_groups.c:176-293 | what is compared are the calls of the run and those of them that have returned |
| `Barrier.ReturnsWhatReleasedIt` | FreeRTOS/FreeRTOS/event_groups.c:251-284 | what a released task returns is settled when it is released, whatever others do until it runs |
| `StreamProtocol.BytesInBuffer` | FreeRTOS/FreeRTOS/stream_buffer.c:1121-1138 | the number of bytes is the distance from xTail forward to xHead |
| `StreamProtocol.SpacesAvailable` | FreeRTOS/FreeRTOS/stream_buffer.c:451-472 | the free space is what is left, less the one byte that tells full from empty |
| `StreamProtocol.StepKeeps` | FreeRTOS/FreeRTOS/stream_buffer.c:1020-1118 | every byte copied and every index published by either side keeps the invariant of the ring |
| `StreamProtocol.UnreadIsRest` | FreeRTOS/FreeRTOS/stream_buffer.c:1066-1118 | the bytes between the indices are exactly what has been published and not taken |
| `StreamProtocol.ReadsWhatWasWritten` | FreeRTOS/FreeRTOS/stream_buffer.c:513-562 | under every interleaving of one writer and one reader, going back to xOriginalTail included whenever it is safe, the bytes taken followed by the bytes in the buffer are the bytes published, and an old xSpace or xBytesAvailable is still a lower bound |
| `StreamProtocol.BytesGoThrough` | FreeRTOS/FreeRTOS/stream_buffer.c:1020-1118 | under every interleaving in which the reader does not go back, what the reads returned, what is in the buffer and what is being written are together, in order, what the writes were given |
| `StreamProtocol.RestoreKeepsIff` | FreeRTOS/FreeRTOS/stream_buffer.c:866-881 | going back to xOriginalTail keeps the invariant if and only if what was published since and what the writer may still write fit the storage area |
| `StreamProtocol.RestoreGivesBackIff` | FreeRTOS/FreeRTOS/stream_buffer.c:866-881 | with no write under way, going back gives the reader all bytes from the mark on again if and only if less than a storage area was published since |
| `StreamProtocol.MarksItsPlace` | FreeRTOS/FreeRTOS/stream_buffer.c:862-866 | xOriginalTail is where the reader stands when it is saved |
| `StreamWakeUp.StepKeeps` | FreeRTOS/FreeRTOS/stream_buffer.c:487-585 | every step of either side keeps the wake-up invariant, a change of the trigger level when nobody waits or the data does not reach the new level |
| `StreamWakeUp.NoLostWakeUp` | FreeRTOS/FreeRTOS/stream_buffer.c:720-753 | in every run a receiver that sleeps with no notification under way has less than the trigger level or no message to read, and a sleeping sender has less space than it needs |
| `StreamWakeUp.NoDeadlock` | FreeRTOS/FreeRTOS/stream_buffer.c:507-541 | both sides sleep for good only if the trigger level and the space asked for do not fit the storage area together |
| `StreamWakeUp.NotifiedForAReason` | FreeRTOS/FreeRTOS/stream_buffer.c:564-585 | a receiver is notified only by a send after which the trigger level was reached, a sender only by a receive that took something, and only while registered |
| `StreamWakeUp.BlocksForAReason` | FreeRTOS/FreeRTOS/stream_buffer.c:720-753 | a side goes to sleep exactly if it finds too little, wakes by a notification or its time-out, and uses the notification up |
| `StreamWakeUp.SetTriggerServes` | FreeRTOS/FreeRTOS/stream_buffer.c:422-448 | a change of the trigger level keeps the guarantee if and only if the receiver is not asleep, a notification is still to come, or the data there does not reach the new level |
| `StreamWakeUp.LoweringLosesWakeUp` | FreeRTOS/FreeRTOS/stream_buffer.c:422-448 | for every stream buffer of at least two bytes and every level above one a run leads to a state where lowering the level leaves the receiver asleep beside the byte it waits for |
| `MessageProtocol.HeaderRoundTrip` | FreeRTOS/FreeRTOS/stream_buffer.c:662-680 | the length read from a header is the length written |
| `MessageProtocol.StepKeeps` | FreeRTOS/FreeRTOS/stream_buffer.c:639-689 | every step of sender and receiver keeps the framing invariant, also between header and payload, when a message is put back only if that is safe |
| `MessageProtocol.MoreThanHeaderMeansMessage` | FreeRTOS/FreeRTOS/stream_buffer.c:770-772 | more bytes than a header means that a whole message is there, although the two are published separately |
| `MessageProtocol.MessagesArriveWhole` | FreeRTOS/FreeRTOS/stream_buffer.c:639-900 | in every run in which a too long message is put back only when that is safe, what the receives return is the first of what the sends were given, whole and in order |
| `MessageProtocol.DecisionIsNeverPartial` | FreeRTOS/FreeRTOS/stream_buffer.c:852-899 | a receiver that has read a header finds the whole payload there |
| `MessageProtocol.RollbackSafeIff` | FreeRTOS/FreeRTOS/stream_buffer.c:866-881 | putting a message back is safe if and only if the writer could still write its old xSpace and the four bytes of the header |
| `MessageProtocol.DecideKeepsIff` | FreeRTOS/FreeRTOS/stream_buffer.c:862-889 | deciding on a message whose header has been taken keeps the framing invariant if and only if the message fits the room or putting it back is safe |
| `MessageProtocol.RollbackGivesBackIff` | FreeRTOS/FreeRTOS/stream_buffer.c:866-881 | with no write under way, putting a message back gives the receiver all bytes from its header on again if and only if a header still fits the buffer |
| `MessageProtocol.RollbackLosesBytes` | FreeRTOS/FreeRTOS/stream_buffer.c:866-881 | for all messages and sizes in its range a run from the beginning: a receive with too little room takes the header of the first message, a second one is sent into the space, and putting the first back loses a whole storage area of accepted bytes |
| `StreamBuffer.StreamBuffer_t.constructor` | FreeRTOS/FreeRTOS/stream_buffer.c:219-264 | a new buffer is empty and holds as many bytes as were asked for |
| `StreamBuffer.StreamBuffer_t.WriteBytes` | FreeRTOS/FreeRTOS/stream_buffer.c:1020-1063 | the two copies around the end of the storage area append the bytes to what is unread |
| `StreamBuffer.StreamBuffer_t.ReadBytes` | FreeRTOS/FreeRTOS/stream_buffer.c:1066-1118 | the two copies take the first unread bytes, as many as wanted and available |
| `StreamBuffer.StreamBuffer_t.WriteMessage` | FreeRTOS/FreeRTOS/stream_buffer.c:639-689 | a message goes in whole or not at all, a stream as far as it fits |
| `StreamBuffer.StreamBuffer_t.ReadMessage` | FreeRTOS/FreeRTOS/stream_buffer.c:852-899 | a message is taken whole, and a room too small returns nothing and leaves the buffer as it was |
| `StreamBuffer.StreamBuffer_t.Send` | FreeRTOS/FreeRTOS/stream_buffer.c:487-562 | what a send without block time accepts and what the buffer holds afterwards |
| `StreamBuffer.StreamBuffer_t.Receive` | FreeRTOS/FreeRTOS/stream_buffer.c:691-792 | a receive without block time gives back the next message whole, keeps one that the room does not take, and a stream's first bytes |
| `Reciprocal.ClipSaturates` | Drivers/arm_math.h:484-489 | the clip saturates to 32 bits for every 64-bit value |
| `Reciprocal.NewtonIdentity` | Drivers/arm_math.h:594-601 | the exact effect of one pass with both roundings on the error of the approximation |
| `Reciprocal.NewtonStep` | Drivers/arm_math.h:594-601 | for every normalised input and approximation, no cast changes a value, the clip never fires, the result stays below the true reciprocal, and the error becomes its square plus less than 3 * 2^-30 |
| `Reciprocal.EntryIsGood` | Drivers/DSP_Lib/Source/CommonTables/arm_common_tables.c:21210-21222 | every entry of the shipped table is within 2^-7 for its whole range of inputs |
| `Reciprocal.FirstGuess` | Drivers/arm_math.h:585-590 | the index is in range and the entry found has an error below 2^-7 |
| `Reciprocal.AccurateQ31` | Drivers/arm_math.h:592-601 | with the shipped table two passes end below the true reciprocal and within 2^-27 of it |
| `Reciprocal.NegativeSaturates` | Drivers/arm_math.h:594-601 | for a negative input every pass saturates at the largest positive value |
| `Reciprocal.CountLeadingZeros` | Drivers/arm_math.h:543-556 | the count shifts the top bit of any non-zero word to the top |
| `Reciprocal.Recip31` | Drivers/arm_math.h:563-608 | the function normalises its input, passes the table entry twice through the step and returns the shift |
| `Reciprocal.RecipIsAccurate` | Drivers/arm_math.h:563-608 | the Q31 result is the reciprocal within 2^-27 if and only if the input is positive; for a negative input it is the largest positive value |
| `Reciprocal.NewtonStep15` | Drivers/arm_math.h:645-652 | the same for Q15, with 3 * 2^-14 and a cast to 16 bits that never loses anything |
| `Reciprocal.AccurateQ15` | Drivers/arm_math.h:614-659 | for a positive input and the shipped table the Q15 result is below the true reciprocal and within 2^-12 of it |
| `Reciprocal.FirstGuess15` | Drivers/DSP_Lib/Source/CommonTables/arm_common_tables.c:21193-21205 | the index is in range and the entry found has an error below 2^-7 + 2^-14 |
| `Reciprocal.Recip15` | Drivers/arm_math.h:614-659 | the Q15 function normalises its input, passes the table entry twice through the step and returns the shift |
| `NegativeQ15.StepClosed` | Drivers/arm_math.h:647-650 | a Q15 pass without its casts to 32 bits: they change nothing for any input |
| `NegativeQ15.NegativeResults` | Drivers/arm_math.h:614-659 | for every normalised negative input, the exact ranges on which the Q15 result has the right sign, and the exact six inputs for which it is within 2^-12 |
| `NegativeQ15.RecipIsAccurate` | Drivers/arm_math.h:614-659 | the Q15 result is the reciprocal within 2^-12 if and only if the input is positive or normalises to one of those six |
| `SoftI2c.SentIsHeard` | src/soft_i2c.c:145-161 | eight bits put on SDA by testing and shifting are heard as the byte they came from |
| `SoftI2c.Bus.Start` | src/soft_i2c.c:91-101 | a listener hears one start condition, also in the middle of a transfer |
| `SoftI2c.Bus.Stop` | src/soft_i2c.c:106-116 | a listener hears one stop condition and the bus is left idle |
| `SoftI2c.Bus.ResetBus` | src/soft_i2c.c:119-135 | a listener hears a start, nine clocks with SDA released, and a start |
| `SoftI2c.Bus.WriteByte` | src/soft_i2c.c:140-178 | the slave hears the wired AND of the byte and of what it pulls low itself, with no other condition on the bus, and the result is whether it acknowledged |
| `SoftI2c.Bus.ReadByte` | src/soft_i2c.c:183-212 | the byte returned is the one the slave put on the line, followed by the acknowledge bit asked for |
| `SoftI2c.Bus.WriteAttempt` | src/soft_i2c.c:218-229 | for every hwAddress one attempt is start, address, register, the data last byte first, stop, as this slave hears and acknowledges them after what it has heard |
| `SoftI2c.Bus.Write` | src/soft_i2c.c:214-243 | for every hwAddress at most three such attempts with a bus reset after each failed one; the result is true exactly when the last one was fully acknowledged |
| `SoftI2c.Bus.ReadBytes` | src/soft_i2c.c:257-261 | the array is filled from its end with the bytes the slave sends, all but the last acknowledged |
| `SoftI2c.Bus.Read` | src/soft_i2c.c:245-276 | at most three attempts of addressing, repeated start and reading, each as this slave hears and answers it after what it has heard; the array holds what it sent in the last one, and the result tells whether its addressing was acknowledged |
| `SoftI2c.DecodedAsWrittenIff` | src/soft_i2c.c:214-229 | the slave decodes a write as sent if and only if hwAddress is even, or it does not answer, or it pulls none of the one bits of the register low; and every write reported as successful is decoded as sent |
| `SoftI2cDevice.WriteStores` | src/soft_i2c.c:218-239 | an attempt to write stores its data in a device if it was acknowledged as a whole and addressed to it, and nothing otherwise |
| `SoftI2cDevice.ReadKeeps` | src/soft_i2c.c:249-262 | an attempt to read changes nothing that is stored, whether it succeeds or not |
| `SoftI2cDevice.ReadReturns` | src/soft_i2c.c:249-262 | an acknowledged attempt to read returns the block of the register, from its first byte on |
| `SoftI2cDevice.DeviceReplays` | src/soft_i2c.c:214-276 | at every even address but the reserved one there is a well-behaved device that sends back what it has stored |
| `SoftI2cDevice.DeviceServes` | src/soft_i2c.c:214-276 | with that device every call reports success at its first attempt |
| `SoftI2cDevice.WriteThenRead` | src/soft_i2c.c:214-276 | i2c_write and then i2c_read of as many bytes from a device that replays: if both report success the array holds what was written, whatever had to be repeated, and with the device above both do |
| `NumberText.Reader.Xatoi` | src/xprintf.c:339-392 | the loops over the text compute the value, the failure and the place where the pointer stops, for every text |
| `NumberSyntax.AtoiExactly` | src/xprintf.c:339-392 | for every text: where the pointer stops, success exactly if a blank or the end follows the digits and a decimal number has one, the value of the digits with their sign modulo 2^32, and 0 on failure |
| `NumberSyntax.AcceptedIff` | src/xprintf.c:339-392 | success exactly on spaces, an optional minus, a radix prefix or a decimal digit, and digits of that radix up to a blank or the end |
| `NumberText.DigitLoop` | src/xprintf.c:148-153 | the buffer ends up with the last sixteen digits of the numeral, last digit first |
| `NumberText.PutNumber` | src/xprintf.c:141-158 | sign, digits and padding of a conversion come out in order, for every flag, width and argument |
| `NumberText.Justify` | src/xprintf.c:155-158 | the two padding loops share one counter, and pad on one side only |
| `NumberText.NumeralReads` | src/xprintf.c:376-387 | reading the digits that were printed accumulates the value, in any radix and case |
| `NumberText.BinaryReads` | src/xprintf.c:148-153 | of a binary number the sixteen digits in the buffer are read back as the value modulo 2^16 |
| `NumberText.ItemReads` | src/xprintf.c:339-392 | one printed number is read back, with the pointer left just behind its digits |
| `NumberText.PrintedListReadsBack` | src/xprintf.c:328-337 | for every list of 32-bit values in any mix of formats, successive calls return what was printed, in order, and then fail with 0 |
| `NumberText.ReadBackValue` | src/xprintf.c:141-153 | what is read back is the value printed, modulo 2^32 and with its sign, if and only if it is not a binary number of more than sixteen digits |
| `NumberText.FieldWidth` | src/xprintf.c:155-158 | a field is as wide as asked, or as its sign and digits if they need more |
| `NumberText.FieldCharacters` | src/xprintf.c:155-158 | every character of a field: sign and digits first with spaces behind, or last with spaces before, or zeros if asked for |
| `NumberText.NumeralCharacters` | src/xprintf.c:148-153 | all digits are digits of the radix, in the case asked for |
| `NumberText.DigitCharacters` | src/xprintf.c:149-150 | the character of each digit in either case |

## Left out

Stated weaker than the code, or under a condition of its own:

- QueueProtocol.NoLostReceiverWakeUp: at most 127 posts from ISRs under one lock, because the counter is an int8_t; `QueueProtocol.PostServesReceivers` has the exact condition and `QueueStranded.PostsStrandReceiver` the loss. A queue that is a member of a set is modelled in `QueueSets` instead, and an overwrite is of items with bytes.
- QueueProtocol.NoLostSenderWakeUp: at most 127 receives from ISRs under one lock, and no reset while several senders wait; `QueueProtocol.ReceiveServesSenders` and `QueueProtocol.ResetServesSenders` have the exact conditions, `QueueStranded` the losses.
- QueueObject.Queue_t.Send: the container of a queue set is not a field of this class. Event lists are sequences here; the pointers of a list are in `RingList`.
- QueueObject.Queue_t.Reset: on a mutex the write to pcReadFrom destroys the recursive call count; resets of mutexes are not modelled.
- QueueSets.EveryMessageAnnounced: members of at most 127 items, posts to the back and front only, receives only after a selection, and a set as long as its members at the time. Waking the tasks that wait on the set is what `QueueProtocol` shows for any queue.
- RecursiveMutex.OneHolder: fewer than 2^32 nested takes, no reset, and no direct give of a recursive mutex by a task that does not hold it.
- EventLists.DisinheritPriority: the list is sorted, as insertions and removals keep it.
- EventBits.NumberRoundTrip: 32-bit words are sets of bit positions; only values kept in list items are numbers.
- QueueSets.SelectedInOrder: posts to the front are excluded; `QueueSets.HandlesInOrder` says where each of them goes.
- StreamProtocol.BytesGoThrough: the reader does not go back; `MessageProtocol.MessagesArriveWhole` covers runs in which it does so safely.
- Barrier.NobodyLeavesEarly: waits without time limit, tasks with disjoint bits, and other tasks that keep to other bits.
- StreamProtocol.ReadsWhatWasWritten: the reader goes back to an earlier xTail only when that is safe; `StreamProtocol.RestoreKeepsIff` has the exact condition.
- MessageProtocol.MessagesArriveWhole: runs in which the receiver puts a too long message back when that is not safe are excluded, by the hypothesis `AllSafe`; `MessageProtocol.DecideKeepsIff` and `MessageProtocol.RollbackGivesBackIff` have the exact conditions and `MessageProtocol.RollbackLosesBytes` the loss.
- MessageProtocol.DecisionIsNeverPartial: the same runs are excluded.
- StreamWakeUp.NoLostWakeUp: the reader goes back only when that is safe, and the trigger level changes only when no receiver is blocked or the data does not reach the new level; `StreamWakeUp.SetTriggerServes` has the exact condition and `StreamWakeUp.LoweringLosesWakeUp` the loss.
- StreamBuffer.StreamBuffer_t.Send: lengths below 2^31 and messages of at least one byte, as the assertion in prvWriteBytesToBuffer demands; blocking is in `StreamWakeUp`.
- Reciprocal.Recip31: the input 0 is excluded, because its leading zeros are undefined (Drivers/cmsis_gcc.h:554) or never counted to an end (Drivers/arm_math.h:549-553), and so is -2^31, whose negation overflows.
- Reciprocal.RecipIsAccurate: the same two inputs are excluded.
- Reciprocal.Recip15: the input 0 is excluded in the same way, and so is -2^15, for which the shift count is negative.
- SoftI2c.Bus.Write: slaves that change SDA only after SCL has fallen, do not hold SDA when they are not sending, and do not answer to the reserved address 0xff of the reset.
- SoftI2cDevice.WriteThenRead: an even hwAddress; with the direction bit set in it, `SoftI2c.DecodedAsWrittenIff` says what the slave decodes.
- NumberText.PrintedListReadsBack: no zero padding, because leading zeros are read as octal.

Not modelled:

- The scheduler, ready lists, ticks, heap and port code behind the functions of `tasks.c`; a time-out is a step that may happen at any time.
- Priority inheritance beyond the priority returned after a time-out; priority changes, suspension and deletion of waiting tasks.
- Deletion of queues, event groups and stream buffers, the queue registry, co-routines, trace hooks and static allocation.
- `vQueueWaitForMessageRestricted`, `xQueuePeekFromISR`, and the counting and holder queries: they add no new state change.
- The detour of `xEventGroupSetBitsFromISR` and `xEventGroupClearBitsFromISR` through the timer task.
- `xStreamBufferReset`, `xStreamBufferIsEmpty` and `xStreamBufferIsFull`.
- Unsigned wrap of sizes above half the `size_t` range.
- Electrics and timing of the I2C pins; the two lines are distinct wired-AND lines, although the default macros name one pin as a placeholder. `i2c_init`, `check_i2c` and the byte, word and double-word wrappers.
- The scanning of format strings by `xvprintf`, `%s` and `%c`, output redirection, `xgets` and `put_dump`.
- Floating-point signal processing, register headers, clock setup, drivers, console, SNMP, Telnet and lwIP glue.
