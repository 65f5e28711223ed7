/**
  The control part of a queue (FreeRTOS/FreeRTOS/queue.c): the message count, the two
  lock counters and the two event lists, with one function per critical section.
  The storage area is left to module QueueObject, whose methods are proved against these
  functions; module QueueProtocol interleaves them.
 */
module QueueControl {
  import opened RingList

  // queueUNLOCKED and queueLOCKED_UNMODIFIED
  const UNLOCKED: int := -1
  const LOCKED_UNMODIFIED: int := 0
  // The lock counters are int8_t.
  const LOCK_MAX: int := 127

  type Task = nat

  // An entry of an event list: `key` is configMAX_PRIORITIES minus the task's priority.
  datatype Waiter = Waiter(task: Task, key: Tick)

  datatype Control = Control(
    count: nat,            // uxMessagesWaiting
    length: nat,           // uxLength
    itemSize: nat,         // uxItemSize
    rxLock: int,           // cRxLock
    txLock: int,           // cTxLock
    toReceive: seq<Waiter>, // xTasksWaitingToReceive
    toSend: seq<Waiter>    // xTasksWaitingToSend
  )

  // What a critical section leaves behind: the new control state and the tasks it made ready, in order.
  datatype Effect = Effect(ctl: Control, woken: seq<Waiter>)

  // ( int8_t )( c + 1 )
  function Int8Increment(c: int): int {
    if c == LOCK_MAX then -128 else c + 1
  }

  function Keys(ws: seq<Waiter>): (ks: seq<Tick>)
    ensures |ks| == |ws| && forall i :: 0 <= i < |ks| ==> ks[i] == ws[i].key
  {
    seq(|ws|, i requires 0 <= i < |ws| => ws[i].key)
  }

  // vTaskPlaceOnEventList, by vListInsert
  function Place(ws: seq<Waiter>, w: Waiter): seq<Waiter> {
    InsertAt(ws, InsertPosition(Keys(ws), w.key), w)
  }

  // How many entries leave a list when up to n are made ready.
  function Taken(ws: seq<Waiter>, n: int): nat {
    if n <= 0 then 0 else if n < |ws| then n else |ws|
  }

  // The first n waiters of a list, or all if there are fewer, have been made ready, in order.
  predicate MadeReady(before: seq<Waiter>, after: seq<Waiter>, woken: seq<Waiter>, n: int) {
    && woken + after == before
    && |woken| == if n <= 0 then 0 else if n <= |before| then n else |before|
  }

  // xTaskRemoveFromEventList on xTasksWaitingToReceive, up to n times and while it is not empty.
  function WakeReceivers(c: Control, n: int): Effect {
    var k := Taken(c.toReceive, n);
    Effect(c.(toReceive := c.toReceive[k..]), c.toReceive[..k])
  }

  function WakeSenders(c: Control, n: int): Effect {
    var k := Taken(c.toSend, n);
    Effect(c.(toSend := c.toSend[k..]), c.toSend[..k])
  }

  // The new message count after prvCopyDataToQueue: overwriting the only item of a queue
  // with a storage area does not add one; a zero-size item always does.
  function CountAfterCopy(c: Control, overwrite: bool): nat {
    if overwrite && c.itemSize > 0 && c.count > 0 then c.count else c.count + 1
  }

  // The sending branch of xQueueGenericSend's critical section (no queue set).
  function Send(c: Control, overwrite: bool): Effect {
    WakeReceivers(c.(count := CountAfterCopy(c, overwrite)), 1)
  }

  // The sending branch of xQueueGenericSendFromISR and xQueueGiveFromISR.
  function SendFromISR(c: Control, overwrite: bool): Effect {
    if c.txLock == UNLOCKED then Send(c, overwrite)
    else Effect(c.(count := CountAfterCopy(c, overwrite), txLock := Int8Increment(c.txLock)), [])
  }

  // The receiving branch of xQueueReceive and xQueueSemaphoreTake.
  function Receive(c: Control): Effect
    requires c.count > 0
  {
    WakeSenders(c.(count := c.count - 1), 1)
  }

  // The branch of xQueuePeek that finds data: it leaves the item and wakes the next receiver.
  function Peek(c: Control): Effect {
    WakeReceivers(c, 1)
  }

  // The receiving branch of xQueueReceiveFromISR.
  function ReceiveFromISR(c: Control): Effect
    requires c.count > 0
  {
    if c.rxLock == UNLOCKED then Receive(c)
    else Effect(c.(count := c.count - 1, rxLock := Int8Increment(c.rxLock)), [])
  }

  // prvLockQueue
  function Lock(c: Control): Control {
    c.(rxLock := if c.rxLock == UNLOCKED then LOCKED_UNMODIFIED else c.rxLock,
       txLock := if c.txLock == UNLOCKED then LOCKED_UNMODIFIED else c.txLock)
  }

  // The first critical section of prvUnlockQueue: one receiver is made ready for each item
  // posted while the queue was locked, as long as there are receivers.
  function UnlockTx(c: Control): Effect {
    WakeReceivers(c.(txLock := UNLOCKED), c.txLock)
  }

  // The second critical section of prvUnlockQueue.
  function UnlockRx(c: Control): Effect {
    WakeSenders(c.(rxLock := UNLOCKED), c.rxLock)
  }

  // xQueueGenericReset on an existing queue: empties it but makes at most one sender ready.
  function Reset(c: Control): Effect {
    WakeSenders(c.(count := 0, rxLock := UNLOCKED, txLock := UNLOCKED), 1)
  }
}
