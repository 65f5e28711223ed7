/**
  The storage area of a queue (FreeRTOS/FreeRTOS/queue.c): uxLength slots of uxItemSize bytes used
  as a ring, read as a double-ended sequence of items.
 */
module QueueStorage {
  import opened Bytes
  import opened Powers

  datatype Position = Back | Front | Overwrite // queueSEND_TO_BACK, queueSEND_TO_FRONT, queueOVERWRITE

  // Where slot k begins.
  function Offset(k: nat, size: nat): nat {
    if k == 0 then 0 else Offset(k - 1, size) + size
  }

  lemma {:induction false} OffsetIsProduct(k: nat, size: nat)
    ensures Offset(k, size) == k * size
  {
    if k > 0 {
      OffsetIsProduct(k - 1, size);
    }
  }

  lemma {:induction false} OffsetOrder(j: nat, k: nat, size: nat)
    requires j < k
    ensures Offset(j, size) + size <= Offset(k, size)
    decreases k
  {
    if j < k - 1 {
      OffsetOrder(j, k - 1, size);
    }
  }

  function Slot(storage: seq<byte>, size: nat, k: nat): (item: seq<byte>)
    requires Offset(k, size) + size <= |storage|
    ensures |item| == size
  {
    storage[Offset(k, size)..Offset(k, size) + size]
  }

  // The storage area holds these slots.
  ghost predicate Holds(storage: seq<byte>, size: nat, slots: seq<seq<byte>>) {
    && |storage| == Offset(|slots|, size)
    && forall k {:trigger Slot(storage, size, k)} :: 0 <= k < |slots| ==>
         Offset(k, size) + size <= |storage| && slots[k] == Slot(storage, size, k)
  }

  function Cut(storage: seq<byte>, size: nat, length: nat): (slots: seq<seq<byte>>)
    requires |storage| == Offset(length, size)
    ensures |slots| == length && Holds(storage, size, slots)
  {
    AllInside(length, size);
    seq(length, k requires 0 <= k < length && Offset(k, size) + size <= |storage| => Slot(storage, size, k))
  }

  lemma {:induction false} AllInside(length: nat, size: nat)
    ensures forall k :: 0 <= k < length ==> Offset(k, size) + size <= Offset(length, size)
  {
    forall k | 0 <= k < length ensures Offset(k, size) + size <= Offset(length, size) {
      OffsetOrder(k, length, size);
    }
  }

  lemma {:induction false} Patch(before: seq<byte>, o: nat, item: seq<byte>, p: nat)
    requires o + |item| <= |before| && p + |item| <= |before|
    requires p + |item| <= o || p == o || o + |item| <= p
    ensures var after := Overwritten(before, o, item);
      |after| == |before| && after[p..p + |item|] == if p == o then item else before[p..p + |item|]
  {
    var after := Overwritten(before, o, item);
    assert |after| == |before|;
    if p == o {
      assert after[o..o + |item|] == item;
    } else {
      forall i | p <= i < p + |item| ensures after[i] == before[i] {
      }
    }
  }

  lemma {:induction false} PatchedSlot(before: seq<byte>, size: nat, slots: seq<seq<byte>>, w: nat, item: seq<byte>,
                                       k: nat)
    requires Holds(before, size, slots) && w < |slots| && k < |slots| && |item| == size > 0
    requires Offset(w, size) + size <= |before|
    ensures var after := Overwritten(before, Offset(w, size), item);
      Offset(k, size) + size <= |after| && slots[w := item][k] == Slot(after, size, k)
  {
    OffsetOrder(k, |slots|, size);
    if k < w {
      OffsetOrder(k, w, size);
    } else if w < k {
      OffsetOrder(w, k, size);
    }
    Patch(before, Offset(w, size), item, Offset(k, size));
    assert slots[k] == Slot(before, size, k);
  }

  // A memcpy to the beginning of slot w replaces that slot and no other.
  lemma {:induction false} MemcpyStores(before: seq<byte>, size: nat, slots: seq<seq<byte>>, w: nat, item: seq<byte>)
    requires Holds(before, size, slots) && w < |slots| && |item| == size > 0
    ensures Offset(w, size) + size <= |before|
    ensures Holds(Overwritten(before, Offset(w, size), item), size, slots[w := item])
  {
    OffsetOrder(w, |slots|, size);
    var o := Offset(w, size);
    var after := Overwritten(before, o, item);
    forall k | 0 <= k < |slots|
      ensures Offset(k, size) + size <= |after| && slots[w := item][k] == Slot(after, size, k) {
      PatchedSlot(before, size, slots, w, item, k);
    }
  }

  // The pointer steps of prvCopyDataToQueue and prvCopyDataFromQueue.
  lemma {:induction false} OffsetSteps(k: nat, size: nat, length: nat)
    requires k < length && size > 0
    ensures Offset(k, size) + size >= Offset(length, size) <==> k + 1 == length
    ensures Offset(Succ(k, length), size) == if k + 1 == length then 0 else Offset(k, size) + size
    ensures Offset(k, size) < size <==> k == 0
    ensures k == 0 ==> Offset(Pred(k, length), size) == Offset(length, size) - size
    ensures k > 0 ==> Offset(Pred(k, length), size) == Offset(k, size) - size
  {
    OffsetOrder(k, length, size);
    if k + 1 < length {
      OffsetOrder(k + 1, length, size);
    }
    if k > 0 {
      OffsetOrder(0, k, size);
    }
  }

  lemma {:induction false} Held(storage: seq<byte>, size: nat, slots: seq<seq<byte>>, k: nat)
    requires Holds(storage, size, slots) && k < |slots|
    ensures Offset(k, size) + size <= |storage| && slots[k] == Slot(storage, size, k)
  {
    OffsetOrder(k, |slots|, size);
  }

  // Items without bytes are all alike.
  lemma {:induction false} EmptySlot(storage: seq<byte>, size: nat, slots: seq<seq<byte>>, w: nat)
    requires Holds(storage, size, slots) && size == 0 && w < |slots|
    ensures slots[w := []] == slots
  {
    Held(storage, size, slots, w);
  }

  // ---------------------------------------------------------------- the ring of slots

  function Succ(k: nat, length: nat): nat
    requires k < length
  {
    Wrap(k + 1, length)
  }

  function Pred(k: nat, length: nat): nat
    requires k < length
  {
    if k == 0 then length - 1 else k - 1
  }

  // The n items from slot `first` on.
  function Items<T>(slots: seq<T>, first: nat, n: nat): (items: seq<T>)
    requires first < |slots|
    ensures |items| == n
    decreases n
  {
    if n == 0 then [] else [slots[first]] + Items(slots, Succ(first, |slots|), n - 1)
  }

  // `after` is `slots` with another item in slot w.
  ghost predicate Replaced<T>(slots: seq<T>, after: seq<T>, w: nat) {
    |after| == |slots| && w < |slots| && forall k :: 0 <= k < |slots| && k != w ==> after[k] == slots[k]
  }

  // A slot outside the n used ones does not show.
  lemma {:induction false} StoredOutside<T>(slots: seq<T>, after: seq<T>, first: nat, n: nat, ahead: nat)
    requires first < |slots| && n <= ahead < |slots| && Replaced(slots, after, Wrap(first + ahead, |slots|))
    ensures Items(after, first, n) == Items(slots, first, n)
    decreases n
  {
    if n > 0 {
      StoredOutside(slots, after, Succ(first, |slots|), n - 1, ahead - 1);
    }
  }

  // Storing behind the used slots appends.
  lemma {:induction false} StoredBehind<T>(slots: seq<T>, after: seq<T>, first: nat, n: nat)
    requires first < |slots| && n < |slots| && Replaced(slots, after, Wrap(first + n, |slots|))
    ensures Items(after, first, n + 1) == Items(slots, first, n) + [after[Wrap(first + n, |slots|)]]
    decreases n
  {
    if n == 0 {
      assert Items(after, Succ(first, |slots|), 0) == [];
    } else {
      StoredBehind(slots, after, Succ(first, |slots|), n - 1);
    }
  }

  // The slot pcWriteTo names when pcReadFrom names slot `read` and n items are in the queue.
  function WriteSlot(read: nat, n: nat, length: nat): nat
    requires read < length && n <= length
  {
    Wrap(Succ(read, length) + n, length)
  }

  lemma {:induction false} ModSmall(x: nat, length: nat)
    requires x < length
    ensures x % length == x
  {
  }

  lemma {:induction false} WriteSlotIsModular(read: nat, n: nat, length: nat)
    requires read < length && n <= length
    ensures WriteSlot(read, n, length) == (read + 1 + n) % length
  {
    var x := read + 1 + n;
    ModSmall(WriteSlot(read, n, length), length);
    if x >= length {
      ModRound(x - length, length);
    }
    if x >= 2 * length {
      ModRound(x - 2 * length, length);
    }
  }

  // How the slots move: a send to the back moves pcWriteTo on, any other send pcReadFrom back, and a
  // receive pcReadFrom on.
  lemma {:induction false} SlotsMove(read: nat, n: nat, length: nat)
    requires read < length && n <= length
    ensures n < length ==> WriteSlot(read, n + 1, length) == Succ(WriteSlot(read, n, length), length)
    ensures n < length ==> WriteSlot(Pred(read, length), n + 1, length) == WriteSlot(read, n, length)
    ensures n > 0 ==> WriteSlot(Succ(read, length), n - 1, length) == WriteSlot(read, n, length)
    ensures Succ(Pred(read, length), length) == read
  {
  }

  lemma {:induction false} OneSlot(read: nat, n: nat, length: nat)
    requires read < length < 2 && n <= length
    ensures Pred(read, length) == read == Succ(read, length) == WriteSlot(read, n, length)
  {
  }

  // What a send does to the items.
  function Placed<T>(items: seq<T>, item: T, position: Position): seq<T> {
    match position
    case Back => items + [item]
    case Front => [item] + items
    case Overwrite => [item]
  }

  // After a send the items are the old ones with the new one placed: at the back in the slot
  // pcWriteTo names, otherwise in the slot pcReadFrom names before it moves back.
  lemma {:induction false} PlacedBack<T>(slots: seq<T>, read: nat, n: nat, item: T)
    requires read < |slots| && n < |slots|
    ensures Items(slots[WriteSlot(read, n, |slots|) := item], Succ(read, |slots|), n + 1)
         == Placed(Items(slots, Succ(read, |slots|), n), item, Back)
  {
    StoredBehind(slots, slots[WriteSlot(read, n, |slots|) := item], Succ(read, |slots|), n);
  }

  lemma {:induction false} PlacedFront<T>(slots: seq<T>, read: nat, n: nat, item: T)
    requires read < |slots| && n < |slots|
    ensures Items(slots[read := item], Succ(Pred(read, |slots|), |slots|), n + 1)
         == Placed(Items(slots, Succ(read, |slots|), n), item, Front)
  {
    StoredOutside(slots, slots[read := item], Succ(read, |slots|), n, |slots| - 1);
  }

  lemma {:induction false} PlacedOverwrite<T>(slots: seq<T>, read: nat, n: nat, item: T)
    requires read < |slots| < 2 && n <= |slots|
    ensures Items(slots[read := item], Succ(read, |slots|), if n == 0 then n + 1 else n)
         == Placed(Items(slots, Succ(read, |slots|), n), item, Overwrite)
  {
    assert Items(slots[read := item], read, 0) == [];
  }
}
