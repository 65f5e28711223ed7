/**
  The queue object of FreeRTOS/FreeRTOS/queue.c outside a queue set: its storage area, pointers,
  counters and event lists, with one method per critical section. The control part of every
  method is proved equal to its function in QueueControl, the data part to a double-ended
  sequence of items.
 */
module QueueObject {
  import opened Bytes
  import opened QueueStorage
  import opened QueueControl

  // memcpy of an item to slot w
  method StoreItem(storage: array<byte>, to: nat, item: seq<byte>, ghost slots: seq<seq<byte>>, ghost w: nat)
    requires |item| > 0 && Holds(storage[..], |item|, slots) && w < |slots| && to == Offset(w, |item|)
    modifies storage
    ensures Holds(storage[..], |item|, slots[w := item])
  {
    MemcpyStores(storage[..], |item|, slots, w, item);
    Memcpy(storage, to, item);
  }

  // What a lock counter becomes when an ISR posts or receives: an unlocked queue counts nothing, and 127
  // is the most an int8_t can count.
  function Counted(lock: int): int {
    if lock == UNLOCKED then UNLOCKED else if lock == 127 then -128 else lock + 1
  }

  lemma {:induction false} FirstReady(waiting: seq<Waiter>, k: nat, n: int)
    requires k == if n <= 0 then 0 else if n <= |waiting| then n else |waiting|
    ensures MadeReady(waiting, waiting[k..], waiting[..k], n)
  {
  }

  // What a send does to items without bytes, though no slot changes.
  lemma {:induction false} PlacedEmpty(storage: seq<byte>, size: nat, slots: seq<seq<byte>>, read: nat, n: nat,
                                       position: Position)
    requires Holds(storage, size, slots) && size == 0 && read < |slots| && n < |slots|
    requires position.Overwrite? ==> |slots| == 1
    ensures Items(slots, Succ(if position.Front? then Pred(read, |slots|) else read, |slots|), n + 1)
         == Placed(Items(slots, Succ(read, |slots|), n), [], position)
  {
    if position.Front? {
      PlacedFront(slots, read, n, []);
      EmptySlot(storage, size, slots, read);
    } else {
      PlacedBack(slots, read, n, []);
      EmptySlot(storage, size, slots, WriteSlot(read, n, |slots|));
    }
  }

  class Queue_t {
    const uxLength: nat
    const uxItemSize: nat
    const storage: array<byte> // pcHead up to pcTail; pointers into it are offsets from pcHead
    var pcWriteTo: nat
    var pcReadFrom: nat        // u.pcReadFrom, the slot that was read last; a recursive mutex keeps
                               // its call count here, which no operation on items of size 0 touches
    var uxMessagesWaiting: nat
    var cRxLock: int
    var cTxLock: int
    var xTasksWaitingToSend: seq<Waiter>
    var xTasksWaitingToReceive: seq<Waiter>
    ghost var slots: seq<seq<byte>> // the storage area slot by slot
    ghost var read: nat             // the slot pcReadFrom names

    ghost predicate Valid()
      reads this, storage
    {
      && 0 < uxLength == |slots| && Holds(storage[..], uxItemSize, slots)
      && uxMessagesWaiting <= uxLength && read < uxLength
      && (uxItemSize > 0 ==> pcReadFrom == Offset(read, uxItemSize))
      && pcWriteTo == Offset(WriteSlot(read, uxMessagesWaiting, uxLength), uxItemSize)
    }

    ghost function Contents(): (items: seq<seq<byte>>)
      requires Valid()
      reads this, storage
      ensures |items| == uxMessagesWaiting
    {
      Items(slots, Succ(read, uxLength), uxMessagesWaiting)
    }

    ghost function State(): Control
      reads this
    {
      Control(uxMessagesWaiting, uxLength, uxItemSize, cRxLock, cTxLock, xTasksWaitingToReceive, xTasksWaitingToSend)
    }

    // xQueueGenericCreate with xQueueGenericReset on the new queue
    constructor (length: nat, itemSize: nat)
      requires 0 < length
      ensures Valid() && Contents() == [] && State() == Control(0, length, itemSize, UNLOCKED, UNLOCKED, [], [])
      ensures fresh(storage)
    {
      uxLength, uxItemSize := length, itemSize;
      storage := new byte[Offset(length, itemSize)];
      pcWriteTo, pcReadFrom := 0, Offset(length - 1, itemSize);
      uxMessagesWaiting := 0;
      cRxLock, cTxLock := UNLOCKED, UNLOCKED;
      xTasksWaitingToSend, xTasksWaitingToReceive := [], [];
      read := length - 1;
      new;
      slots := Cut(storage[..], itemSize, length);
    }

    // ---------------------------------------------------------------- copying items

    // The branch of prvCopyDataToQueue for queueSEND_TO_BACK, without the count.
    method CopyToBack(item: seq<byte>)
      requires Valid() && |item| == uxItemSize > 0
      modifies this`pcWriteTo, storage
      ensures pcWriteTo == Offset(Succ(WriteSlot(read, uxMessagesWaiting, uxLength), uxLength), uxItemSize)
      ensures Holds(storage[..], uxItemSize, slots[WriteSlot(read, uxMessagesWaiting, uxLength) := item])
    {
      ghost var w := WriteSlot(read, uxMessagesWaiting, uxLength);
      OffsetSteps(w, uxItemSize, uxLength);
      StoreItem(storage, pcWriteTo, item, slots, w);
      pcWriteTo := pcWriteTo + uxItemSize;
      if pcWriteTo >= storage.Length {
        pcWriteTo := 0;
      }
    }

    // The branch for queueSEND_TO_FRONT and queueOVERWRITE.
    method CopyToFront(item: seq<byte>)
      requires Valid() && |item| == uxItemSize > 0
      modifies this`pcReadFrom, storage
      ensures pcReadFrom == Offset(Pred(read, uxLength), uxItemSize)
      ensures Holds(storage[..], uxItemSize, slots[read := item])
    {
      OffsetSteps(read, uxItemSize, uxLength);
      OffsetOrder(0, uxLength, uxItemSize);
      StoreItem(storage, pcReadFrom, item, slots, read);
      if pcReadFrom < uxItemSize { // the pointer would pass pcHead
        pcReadFrom := storage.Length - uxItemSize;
      } else {
        pcReadFrom := pcReadFrom - uxItemSize;
      }
    }

    // prvCopyDataToQueue for queueOVERWRITE: the only slot gets the new item, used or not.
    method CopyOver(item: seq<byte>)
      requires Valid() && |item| == uxItemSize > 0 && uxLength < 2
      modifies this, storage
      ensures Valid() && Contents() == Placed(old(Contents()), item, Overwrite)
      ensures State() == old(State()).(count := CountAfterCopy(old(State()), true))
    {
      var messages := uxMessagesWaiting;
      OneSlot(read, messages, uxLength);
      PlacedOverwrite(slots, read, messages, item);
      CopyToFront(item);
      if messages > 0 {
        messages := messages - 1;
      }
      uxMessagesWaiting := messages + 1;
      slots := slots[read := item];
      OneSlot(read, uxMessagesWaiting, uxLength);
    }

    method AddToBack(item: seq<byte>)
      requires Valid() && |item| == uxItemSize > 0 && uxMessagesWaiting < uxLength
      modifies this, storage
      ensures Valid() && Contents() == Placed(old(Contents()), item, Back)
      ensures State() == old(State()).(count := CountAfterCopy(old(State()), false))
    {
      ghost var n := uxMessagesWaiting;
      PlacedBack(slots, read, n, item);
      SlotsMove(read, n, uxLength);
      CopyToBack(item);
      uxMessagesWaiting := uxMessagesWaiting + 1;
      slots := slots[WriteSlot(read, n, uxLength) := item];
    }

    method AddToFront(item: seq<byte>)
      requires Valid() && |item| == uxItemSize > 0 && uxMessagesWaiting < uxLength
      modifies this, storage
      ensures Valid() && Contents() == Placed(old(Contents()), item, Front)
      ensures State() == old(State()).(count := CountAfterCopy(old(State()), false))
    {
      ghost var n := uxMessagesWaiting;
      PlacedFront(slots, read, n, item);
      SlotsMove(read, n, uxLength);
      CopyToFront(item);
      uxMessagesWaiting := uxMessagesWaiting + 1;
      read, slots := Pred(read, uxLength), slots[read := item];
    }

    // An overwrite of an item without bytes is counted like any other, even when the queue is full.
    predicate Overfills(position: Position)
      reads this
    {
      position.Overwrite? && uxItemSize == 0 && uxMessagesWaiting == uxLength
    }

    // One item without bytes more, when there is room for it.
    method AddEmptyWithRoom(position: Position)
      requires Valid() && uxItemSize == 0 && uxMessagesWaiting < uxLength && (position.Overwrite? ==> uxLength == 1)
      modifies this`uxMessagesWaiting, this`read
      ensures Valid() && Contents() == Placed(old(Contents()), [], position)
      ensures uxMessagesWaiting == old(uxMessagesWaiting) + 1
    {
      ghost var n, r := uxMessagesWaiting, if position.Front? then Pred(read, uxLength) else read;
      ghost var items := Items(slots, Succ(read, uxLength), n);
      PlacedEmpty(storage[..], uxItemSize, slots, read, n, position);
      AllAtStart(WriteSlot(read, n, uxLength), WriteSlot(r, n + 1, uxLength), uxItemSize);
      Renumber(uxMessagesWaiting, r, Placed(items, [], position));
    }

    // The count and the slot that was read last, where the items are the same either way.
    method Renumber(n: nat, ghost r: nat, ghost items: seq<seq<byte>>)
      requires Valid() && uxItemSize == 0 && n < uxLength && r < uxLength
      requires Offset(WriteSlot(r, n + 1, uxLength), uxItemSize) == pcWriteTo
      requires Items(slots, Succ(r, uxLength), n + 1) == items
      modifies this`uxMessagesWaiting, this`read
      ensures Valid() && Contents() == items && uxMessagesWaiting == n + 1
    {
      uxMessagesWaiting := n + 1;
      read := r;
    }

    // The branch for items without bytes, where nothing is copied and no pointer moves.
    method AddEmpty(position: Position)
      requires Valid() && uxItemSize == 0 && MayAdd(position)
      modifies this`uxMessagesWaiting, this`read
      ensures old(Overfills(position)) ==> uxMessagesWaiting == uxLength + 1
      ensures !old(Overfills(position)) ==> Valid() && Contents() == Placed(old(Contents()), [], position)
      ensures uxMessagesWaiting == old(uxMessagesWaiting) + 1
    {
      if Overfills(position) {
        uxMessagesWaiting := uxMessagesWaiting + 1;
      } else {
        AddEmptyWithRoom(position);
      }
    }

    // A caller has checked that there is room, or overwrites; it overwrites only a queue of length one.
    ghost predicate MayAdd(position: Position)
      reads this
    {
      if position.Overwrite? then uxLength == 1 else uxMessagesWaiting < uxLength
    }

    // The branches of prvCopyDataToQueue for items with bytes.
    method CopyBytes(item: seq<byte>, position: Position)
      requires Valid() && |item| == uxItemSize > 0 && MayAdd(position)
      modifies this, storage
      ensures Valid() && Contents() == Placed(old(Contents()), item, position)
      ensures State() == old(State()).(count := CountAfterCopy(old(State()), position.Overwrite?))
    {
      if position.Back? {
        AddToBack(item);
      } else if position.Front? {
        AddToFront(item);
      } else {
        CopyOver(item);
      }
    }

    // prvCopyDataToQueue
    method CopyDataToQueue(item: seq<byte>, position: Position)
      requires Valid() && |item| == uxItemSize && MayAdd(position)
      modifies this, storage
      ensures old(Overfills(position)) ==> uxMessagesWaiting == uxLength + 1
      ensures !old(Overfills(position)) ==> Valid() && Contents() == Placed(old(Contents()), item, position)
      ensures State() == old(State()).(count := CountAfterCopy(old(State()), position.Overwrite?))
      ensures uxItemSize == 0 ==> pcReadFrom == old(pcReadFrom)
    {
      if uxItemSize == 0 {
        AddEmpty(position);
      } else {
        CopyBytes(item, position);
      }
    }

    // prvCopyDataFromQueue. The count is the caller's.
    method CopyDataFromQueue() returns (item: seq<byte>)
      requires Valid() && uxMessagesWaiting > 0
      modifies this`pcReadFrom
      ensures pcReadFrom == if uxItemSize == 0 then old(pcReadFrom) else Offset(Succ(read, uxLength), uxItemSize)
      ensures item == slots[Succ(read, uxLength)]
    {
      item := [];
      ghost var next := Succ(read, uxLength);
      Held(storage[..], uxItemSize, slots, next);
      if uxItemSize != 0 {
        OffsetSteps(read, uxItemSize, uxLength);
        pcReadFrom := pcReadFrom + uxItemSize;
        if pcReadFrom >= storage.Length {
          pcReadFrom := 0;
        }
        item := storage[pcReadFrom..pcReadFrom + uxItemSize];
      }
    }

    // ---------------------------------------------------------------- critical sections

    // xTaskRemoveFromEventList on xTasksWaitingToReceive, if it is not empty
    method WakeReceiver() returns (woken: seq<Waiter>)
      modifies this`xTasksWaitingToReceive
      ensures old(Valid()) ==> Valid() && Contents() == old(Contents())
      ensures Effect(State(), woken) == WakeReceivers(old(State()), 1)
      ensures MadeReady(old(xTasksWaitingToReceive), xTasksWaitingToReceive, woken, 1)
      ensures uxMessagesWaiting == old(uxMessagesWaiting) && pcReadFrom == old(pcReadFrom)
    {
      woken := [];
      if |xTasksWaitingToReceive| > 0 {
        woken := xTasksWaitingToReceive[..1];
        xTasksWaitingToReceive := xTasksWaitingToReceive[1..];
      }
    }

    // A post to a locked queue
    method CountPost(txLock: int)
      modifies this`cTxLock
      ensures old(Valid()) ==> Valid() && Contents() == old(Contents())
      ensures State() == old(State()).(txLock := Int8Increment(txLock))
      ensures uxMessagesWaiting == old(uxMessagesWaiting) && pcReadFrom == old(pcReadFrom)
    {
      cTxLock := Int8Increment(txLock);
    }

    // The end of a post from an ISR.
    method WakeOrCount(txLock: int) returns (woken: seq<Waiter>)
      requires txLock == cTxLock
      modifies this`cTxLock, this`xTasksWaitingToReceive
      ensures old(Valid()) ==> Valid() && Contents() == old(Contents())
      ensures Effect(State(), woken) == if txLock == UNLOCKED then WakeReceivers(old(State()), 1)
                                        else Effect(old(State()).(txLock := Int8Increment(txLock)), [])
      ensures MadeReady(old(xTasksWaitingToReceive), xTasksWaitingToReceive, woken, if txLock == UNLOCKED then 1 else 0)
      ensures cTxLock == Counted(txLock)
      ensures uxMessagesWaiting == old(uxMessagesWaiting) && pcReadFrom == old(pcReadFrom)
    {
      woken := [];
      if txLock == UNLOCKED {
        woken := WakeReceiver();
      } else {
        CountPost(txLock);
      }
    }

    method WakeSender() returns (woken: seq<Waiter>)
      requires Valid()
      modifies this`xTasksWaitingToSend
      ensures Valid() && Effect(State(), woken) == WakeSenders(old(State()), 1)
      ensures MadeReady(old(xTasksWaitingToSend), xTasksWaitingToSend, woken, 1)
    {
      woken := [];
      if |xTasksWaitingToSend| > 0 {
        woken := xTasksWaitingToSend[..1];
        xTasksWaitingToSend := xTasksWaitingToSend[1..];
      }
    }

    ghost predicate MayPlace(item: seq<byte>, position: Position)
      reads this, storage
    {
      Valid() && |item| == uxItemSize && (position.Overwrite? ==> uxLength == 1)
    }

    // The first critical section of xQueueGenericSend. A caller that is refused blocks or gives up.
    method Send(item: seq<byte>, position: Position) returns (sent: bool, woken: seq<Waiter>)
      requires MayPlace(item, position)
      modifies this, storage
      ensures sent == (old(uxMessagesWaiting) < uxLength || position.Overwrite?)
      ensures old(Overfills(position)) ==> uxMessagesWaiting == uxLength + 1
      ensures !old(Overfills(position)) ==>
                Valid() && Contents() == if sent then Placed(old(Contents()), item, position) else old(Contents())
      ensures Effect(State(), woken) == if sent then QueueControl.Send(old(State()), position.Overwrite?)
                                        else Effect(old(State()), [])
      ensures MadeReady(old(xTasksWaitingToReceive), xTasksWaitingToReceive, woken, if sent then 1 else 0)
      ensures sent && position.Back? ==> Contents() == old(Contents()) + [item]
      ensures sent && position.Front? ==> Contents() == [item] + old(Contents())
      ensures position.Overwrite? && !old(Overfills(position)) ==> Contents() == [item]
      ensures xTasksWaitingToSend == old(xTasksWaitingToSend) && cRxLock == old(cRxLock) && cTxLock == old(cTxLock)
      ensures uxItemSize == 0 ==> pcReadFrom == old(pcReadFrom)
    {
      sent, woken := false, [];
      if uxMessagesWaiting < uxLength || position.Overwrite? {
        CopyDataToQueue(item, position);
        woken := WakeReceiver();
        sent := true;
      }
    }

    // The sending branch of xQueueGenericSendFromISR: a locked queue counts the post instead of
    // waking anybody.
    method PostFromISR(item: seq<byte>, position: Position) returns (woken: seq<Waiter>)
      requires MayPlace(item, position) && (uxMessagesWaiting < uxLength || position.Overwrite?)
      modifies this, storage
      ensures old(Overfills(position)) ==> uxMessagesWaiting == uxLength + 1
      ensures !old(Overfills(position)) ==> Valid() && Contents() == Placed(old(Contents()), item, position)
      ensures Effect(State(), woken) == QueueControl.SendFromISR(old(State()), position.Overwrite?)
      ensures MadeReady(old(xTasksWaitingToReceive), xTasksWaitingToReceive, woken,
                        if old(cTxLock) == UNLOCKED then 1 else 0)
      ensures xTasksWaitingToSend == old(xTasksWaitingToSend) && cRxLock == old(cRxLock)
      ensures cTxLock == Counted(old(cTxLock))
      ensures uxItemSize == 0 ==> pcReadFrom == old(pcReadFrom)
    {
      var txLock := cTxLock;
      CopyDataToQueue(item, position);
      woken := WakeOrCount(txLock);
    }

    // xQueueGenericSendFromISR
    method SendFromISR(item: seq<byte>, position: Position) returns (sent: bool, woken: seq<Waiter>)
      requires MayPlace(item, position)
      modifies this, storage
      ensures sent == (old(uxMessagesWaiting) < uxLength || position.Overwrite?)
      ensures old(Overfills(position)) ==> uxMessagesWaiting == uxLength + 1
      ensures !old(Overfills(position)) ==>
                Valid() && Contents() == if sent then Placed(old(Contents()), item, position) else old(Contents())
      ensures Effect(State(), woken) == if sent then QueueControl.SendFromISR(old(State()), position.Overwrite?)
                                        else Effect(old(State()), [])
      ensures MadeReady(old(xTasksWaitingToReceive), xTasksWaitingToReceive, woken,
                        if sent && old(cTxLock) == UNLOCKED then 1 else 0)
      ensures sent && position.Back? ==> Contents() == old(Contents()) + [item]
      ensures sent && position.Front? ==> Contents() == [item] + old(Contents())
      ensures position.Overwrite? && !old(Overfills(position)) ==> Contents() == [item]
      ensures xTasksWaitingToSend == old(xTasksWaitingToSend) && cRxLock == old(cRxLock)
      ensures cTxLock == if sent then Counted(old(cTxLock)) else old(cTxLock)
      ensures uxItemSize == 0 ==> pcReadFrom == old(pcReadFrom)
    {
      sent, woken := false, [];
      if uxMessagesWaiting < uxLength || position.Overwrite? {
        woken := PostFromISR(item, position);
        sent := true;
      }
    }

    // The section of xQueueReceive that finds data; with no bytes to copy it is xQueueSemaphoreTake.
    method Receive() returns (item: seq<byte>, woken: seq<Waiter>)
      requires Valid() && uxMessagesWaiting > 0
      modifies this
      ensures Valid() && [item] + Contents() == old(Contents())
      ensures Effect(State(), woken) == QueueControl.Receive(old(State()))
      ensures MadeReady(old(xTasksWaitingToSend), xTasksWaitingToSend, woken, 1)
      ensures xTasksWaitingToReceive == old(xTasksWaitingToReceive)
      ensures cRxLock == old(cRxLock) && cTxLock == old(cTxLock)
      ensures uxItemSize == 0 ==> pcReadFrom == old(pcReadFrom)
    {
      item := TakeItem();
      woken := WakeSender();
    }

    method TakeItem() returns (item: seq<byte>)
      requires Valid() && uxMessagesWaiting > 0
      modifies this
      ensures Valid() && [item] + Contents() == old(Contents())
      ensures State() == old(State()).(count := old(uxMessagesWaiting) - 1)
      ensures uxItemSize == 0 ==> pcReadFrom == old(pcReadFrom)
    {
      item := CopyDataFromQueue();
      SlotsMove(read, uxMessagesWaiting, uxLength);
      uxMessagesWaiting := uxMessagesWaiting - 1;
      read := Succ(read, uxLength);
    }

    // The receiving branch of xQueueReceiveFromISR: a locked queue counts the receive instead of
    // waking anybody.
    method TakeFromISR() returns (item: seq<byte>, woken: seq<Waiter>)
      requires Valid() && uxMessagesWaiting > 0
      modifies this
      ensures Valid() && [item] + Contents() == old(Contents())
      ensures Effect(State(), woken) == QueueControl.ReceiveFromISR(old(State()))
      ensures MadeReady(old(xTasksWaitingToSend), xTasksWaitingToSend, woken,
                        if old(cRxLock) == UNLOCKED then 1 else 0)
      ensures xTasksWaitingToReceive == old(xTasksWaitingToReceive) && cTxLock == old(cTxLock)
      ensures cRxLock == Counted(old(cRxLock))
      ensures uxItemSize == 0 ==> pcReadFrom == old(pcReadFrom)
    {
      woken := [];
      var rxLock := cRxLock;
      item := TakeItem();
      if rxLock == UNLOCKED {
        woken := WakeSender();
      } else {
        cRxLock := Int8Increment(rxLock);
      }
    }

    // xQueueReceiveFromISR: pdFAIL, and nothing done, when the queue is empty.
    method ReceiveFromISR() returns (received: bool, item: seq<byte>, woken: seq<Waiter>)
      requires Valid()
      modifies this
      ensures received == (old(uxMessagesWaiting) > 0) && Valid()
      ensures received ==> [item] + Contents() == old(Contents())
      ensures received ==> Effect(State(), woken) == QueueControl.ReceiveFromISR(old(State()))
      ensures !received ==> Contents() == old(Contents()) && Effect(State(), woken) == Effect(old(State()), [])
      ensures MadeReady(old(xTasksWaitingToSend), xTasksWaitingToSend, woken,
                        if received && old(cRxLock) == UNLOCKED then 1 else 0)
      ensures xTasksWaitingToReceive == old(xTasksWaitingToReceive) && cTxLock == old(cTxLock)
      ensures cRxLock == if received then Counted(old(cRxLock)) else old(cRxLock)
      ensures uxItemSize == 0 || !received ==> pcReadFrom == old(pcReadFrom)
    {
      received, item, woken := false, [], [];
      if uxMessagesWaiting > 0 {
        item, woken := TakeFromISR();
        received := true;
      }
    }

    // The section of xQueuePeek that finds data: the read pointer is put back.
    method Peek() returns (item: seq<byte>, woken: seq<Waiter>)
      requires Valid() && uxMessagesWaiting > 0
      modifies this
      ensures Valid() && Contents() == old(Contents()) && item == Contents()[0]
      ensures Effect(State(), woken) == QueueControl.Peek(old(State())) && pcReadFrom == old(pcReadFrom)
      ensures MadeReady(old(xTasksWaitingToReceive), xTasksWaitingToReceive, woken, 1)
      ensures xTasksWaitingToSend == old(xTasksWaitingToSend) && cRxLock == old(cRxLock) && cTxLock == old(cTxLock)
    {
      var original := pcReadFrom;
      item := CopyDataFromQueue();
      pcReadFrom := original;
      woken := WakeReceiver();
    }

    // prvLockQueue
    method LockQueue()
      requires Valid()
      modifies this`cRxLock, this`cTxLock
      ensures Valid() && State() == Lock(old(State())) && Contents() == old(Contents())
      ensures cRxLock == if old(cRxLock) == UNLOCKED then LOCKED_UNMODIFIED else old(cRxLock)
      ensures cTxLock == if old(cTxLock) == UNLOCKED then LOCKED_UNMODIFIED else old(cTxLock)
    {
      if cRxLock == UNLOCKED {
        cRxLock := LOCKED_UNMODIFIED;
      }
      if cTxLock == UNLOCKED {
        cTxLock := LOCKED_UNMODIFIED;
      }
    }

    // The first critical section of prvUnlockQueue.
    method UnlockTx() returns (woken: seq<Waiter>)
      requires Valid()
      modifies this`cTxLock, this`xTasksWaitingToReceive
      ensures Valid() && Effect(State(), woken) == QueueControl.UnlockTx(old(State()))
      ensures MadeReady(old(xTasksWaitingToReceive), xTasksWaitingToReceive, woken, old(cTxLock))
      ensures cTxLock == UNLOCKED && Contents() == old(Contents())
    {
      var txLock := cTxLock;
      woken := [];
      ghost var k := 0;
      ghost var waiting := xTasksWaitingToReceive;
      while txLock > LOCKED_UNMODIFIED
        invariant k <= |waiting| && woken == waiting[..k] && xTasksWaitingToReceive == waiting[k..]
        invariant if old(cTxLock) > 0 then txLock >= 0 && k + txLock == old(cTxLock)
                  else k == 0 && txLock == old(cTxLock)
        invariant Valid() && cTxLock == old(cTxLock)
      {
        if |xTasksWaitingToReceive| > 0 {
          woken := woken + xTasksWaitingToReceive[..1];
          xTasksWaitingToReceive := xTasksWaitingToReceive[1..];
          k := k + 1;
        } else {
          break;
        }
        txLock := txLock - 1;
      }
      FirstReady(waiting, k, old(cTxLock));
      cTxLock := UNLOCKED;
    }

    // The second critical section of prvUnlockQueue.
    method UnlockRx() returns (woken: seq<Waiter>)
      requires Valid()
      modifies this`cRxLock, this`xTasksWaitingToSend
      ensures Valid() && Effect(State(), woken) == QueueControl.UnlockRx(old(State()))
      ensures MadeReady(old(xTasksWaitingToSend), xTasksWaitingToSend, woken, old(cRxLock))
      ensures cRxLock == UNLOCKED && Contents() == old(Contents())
    {
      var rxLock := cRxLock;
      woken := [];
      ghost var k := 0;
      ghost var waiting := xTasksWaitingToSend;
      while rxLock > LOCKED_UNMODIFIED
        invariant k <= |waiting| && woken == waiting[..k] && xTasksWaitingToSend == waiting[k..]
        invariant if old(cRxLock) > 0 then rxLock >= 0 && k + rxLock == old(cRxLock)
                  else k == 0 && rxLock == old(cRxLock)
        invariant Valid() && cRxLock == old(cRxLock)
      {
        if |xTasksWaitingToSend| > 0 {
          woken := woken + xTasksWaitingToSend[..1];
          xTasksWaitingToSend := xTasksWaitingToSend[1..];
          k := k + 1;
          rxLock := rxLock - 1;
        } else {
          break;
        }
      }
      FirstReady(waiting, k, old(cRxLock));
      cRxLock := UNLOCKED;
    }

    // xQueueGenericReset on a queue in use
    method Reset() returns (woken: seq<Waiter>)
      requires Valid()
      modifies this
      ensures Valid() && Contents() == [] && Effect(State(), woken) == QueueControl.Reset(old(State()))
      ensures MadeReady(old(xTasksWaitingToSend), xTasksWaitingToSend, woken, 1)
      ensures xTasksWaitingToReceive == old(xTasksWaitingToReceive) && cRxLock == cTxLock == UNLOCKED
    {
      uxMessagesWaiting := 0;
      pcWriteTo, pcReadFrom := 0, Offset(uxLength - 1, uxItemSize);
      read := uxLength - 1;
      cRxLock, cTxLock := UNLOCKED, UNLOCKED;
      woken := WakeSender();
    }
  }

  lemma {:induction false} AllAtStart(j: nat, k: nat, size: nat)
    requires size == 0
    ensures Offset(j, size) == Offset(k, size) == 0
  {
    OffsetIsProduct(j, size);
    OffsetIsProduct(k, size);
  }
}
