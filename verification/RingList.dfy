/**
  The intrusive doubly linked ring list of FreeRTOS/FreeRTOS/list.c. `Items` is the list read
  along pxNext from the end marker; `At` is the place of the roving pxIndex in it.
 */
module RingList {

  // portMAX_DELAY, the value of the end marker
  const MAX_DELAY: nat := 0xffff_ffff

  type Tick = t: nat | t <= MAX_DELAY

  function InsertAt<T>(s: seq<T>, k: nat, x: T): seq<T>
    requires k <= |s|
  {
    s[..k] + [x] + s[k..]
  }

  function RemoveAt<T>(s: seq<T>, k: nat): seq<T>
    requires k < |s|
  {
    s[..k] + s[k + 1..]
  }

  lemma {:induction false} RemoveInFront<T>(a: seq<T>, b: seq<T>, i: nat)
    requires i < |a|
    ensures RemoveAt(a, i) + b == RemoveAt(a + b, i)
  {
  }

  lemma {:induction false} RemoveBehind<T>(a: seq<T>, b: seq<T>, i: nat)
    requires i < |b|
    ensures a + RemoveAt(b, i) == RemoveAt(a + b, |a| + i)
  {
  }

  lemma {:induction false} InsertBehind<T>(a: seq<T>, b: seq<T>, i: nat, x: T)
    requires i <= |b|
    ensures a + InsertAt(b, i, x) == InsertAt(a + b, |a| + i, x)
  {
  }

  // Where vListInsert puts a new value: before the first larger one, last for portMAX_DELAY.
  function InsertPosition(values: seq<Tick>, v: Tick): (p: nat)
    ensures p <= |values|
    ensures v == MAX_DELAY ==> p == |values|
    ensures v < MAX_DELAY ==> forall i :: 0 <= i < p ==> values[i] <= v
    ensures v < MAX_DELAY && p < |values| ==> v < values[p]
  {
    if v == MAX_DELAY then |values|
    else if values == [] || v < values[0] then 0
    else 1 + InsertPosition(values[1..], v)
  }

  class ListItem {
    var xItemValue: Tick
    var pxNext: ListItem?
    var pxPrevious: ListItem?
    var pvContainer: List?

    // vListInitialiseItem
    constructor (value: Tick)
      ensures pvContainer == null && xItemValue == value
    {
      xItemValue := value;
      pxNext, pxPrevious, pvContainer := null, null, null;
    }
  }

  ghost function Entry<T>(s: seq<T>, i: nat): T
    requires i < |s|
  {
    s[i]
  }

  // No element occurs twice. Stated on Entry so that only proofs that mention it pay for it.
  ghost predicate Distinct<T>(s: seq<T>) {
    forall i, j {:trigger Entry(s, i), Entry(s, j)} :: 0 <= i < j < |s| ==> Entry(s, i) != Entry(s, j)
  }

  lemma {:induction false} Apart<T>(s: seq<T>, i: nat)
    requires Distinct(s) && i < |s|
    ensures forall j :: 0 <= j < |s| && j != i ==> s[j] != s[i]
  {
    assert Entry(s, i) == s[i];
    forall j | 0 <= j < |s| && j != i ensures s[j] != s[i] {
      assert Entry(s, j) == s[j];
    }
  }

  lemma {:induction false} InsertDistinct<T>(s: seq<T>, k: nat, x: T)
    requires Distinct(s) && k <= |s| && x !in s
    ensures Distinct(InsertAt(s, k, x))
  {
    var r := InsertAt(s, k, x);
    assert r[k] == x;
    forall i | 0 <= i < |r| && i != k ensures Entry(r, i) == Entry(s, if i < k then i else i - 1) {
    }
  }

  lemma {:induction false} RemoveDistinct<T>(s: seq<T>, k: nat)
    requires Distinct(s) && k < |s|
    ensures Distinct(RemoveAt(s, k)) && s[k] !in RemoveAt(s, k)
  {
    var r := RemoveAt(s, k);
    assert Entry(s, k) == s[k];
    forall i | 0 <= i < |r| ensures Entry(r, i) == Entry(s, if i < k then i else i + 1) {
    }
    forall i | 0 <= i < |r| ensures r[i] != s[k] {
      assert Entry(r, i) == r[i];
    }
  }

  // pxNext and pxPrevious of neighbours on the ring point at each other, and no item occurs twice.
  ghost predicate Linked(ring: seq<ListItem>)
    reads ring
  {
    && |ring| > 0
    && Distinct(ring)
    && (forall i {:trigger ring[i].pxNext} :: 0 <= i < |ring| - 1 ==> ring[i].pxNext == ring[i + 1])
    && (forall i {:trigger ring[i].pxPrevious} :: 0 < i < |ring| ==> ring[i].pxPrevious == ring[i - 1])
    && ring[|ring| - 1].pxNext == ring[0] && ring[0].pxPrevious == ring[|ring| - 1]
  }

  // What a user of the list sees: the items in order and how far pxIndex has walked (0: end marker).
  datatype Cursor<T> = Cursor(items: seq<T>, at: nat)

  // vListInsertEnd: just before the item pxIndex stands on.
  function InsertedEnd<T>(c: Cursor<T>, x: T): Cursor<T>
    requires c.at <= |c.items|
  {
    if c.at == 0 then Cursor(c.items + [x], 0) else Cursor(InsertAt(c.items, c.at - 1, x), c.at + 1)
  }

  function Removed<T>(c: Cursor<T>, k: nat): Cursor<T>
    requires k < |c.items|
  {
    Cursor(RemoveAt(c.items, k), if k < c.at then c.at - 1 else c.at)
  }

  function Advanced<T>(c: Cursor<T>): Cursor<T> {
    c.(at := if c.at >= |c.items| then 1 else c.at + 1)
  }

  // Hooking an item in before pxIndex, as List.InsertEnd does, is InsertedEnd on the view.
  lemma {:induction false} InsertedInRing<T>(ring: seq<T>, at: nat, x: T)
    requires at < |ring|
    ensures Cursor(InsertAt(ring, if at == 0 then |ring| else at, x)[1..], if at == 0 then 0 else at + 1)
         == InsertedEnd(Cursor(ring[1..], at), x)
  {
    if at > 0 {
      assert ring[..at][1..] == ring[1..][..at - 1];
    }
  }

  // Taking entry k out of the ring, as List.Remove does, is Removed on the view.
  lemma {:induction false} RemovedFromRing<T>(ring: seq<T>, at: nat, k: nat)
    requires 0 < k < |ring|
    ensures Cursor(RemoveAt(ring, k)[1..], if k <= at then at - 1 else at) == Removed(Cursor(ring[1..], at), k - 1)
  {
  }

  lemma {:induction false} Neighbours(ring: seq<ListItem>, i: nat)
    requires Linked(ring) && i < |ring|
    ensures ring[i].pxNext == ring[if i + 1 == |ring| then 0 else i + 1]
    ensures ring[i].pxPrevious == ring[if i == 0 then |ring| - 1 else i - 1]
  {
  }

  // The ring with `item` hooked in at place k: both halves are as they were and the ends meet.
  lemma {:induction false} SpliceIn(ring: seq<ListItem>, k: nat, item: ListItem)
    requires 0 < k <= |ring| && item !in ring
    requires Distinct(ring)
    requires forall i :: 0 <= i < |ring| - 1 && i != k - 1 ==> ring[i].pxNext == ring[i + 1]
    requires forall i :: 0 < i < |ring| && i != k ==> ring[i].pxPrevious == ring[i - 1]
    requires k < |ring| ==> ring[|ring| - 1].pxNext == ring[0] && ring[0].pxPrevious == ring[|ring| - 1]
    requires item.pxPrevious == ring[k - 1] && ring[k - 1].pxNext == item
    requires item.pxNext == ring[if k == |ring| then 0 else k] && item.pxNext.pxPrevious == item
    ensures Linked(InsertAt(ring, k, item))
  {
    var r := InsertAt(ring, k, item);
    InsertDistinct(ring, k, item);
    assert forall i :: 0 <= i < k ==> r[i] == ring[i];
    assert forall i :: k < i < |r| ==> r[i] == ring[i - 1];
  }

  // The pointer writes of vListInsertEnd and vListInsert: `item` goes in before `next`.
  method HookInBefore(next: ListItem, item: ListItem, ghost ring: seq<ListItem>, ghost k: nat)
    requires Linked(ring) && item !in ring
    requires 0 < k <= |ring| && next == ring[if k == |ring| then 0 else k]
    modifies (set x | x in ring)`pxNext, (set x | x in ring)`pxPrevious, item`pxNext, item`pxPrevious
    ensures Linked(InsertAt(ring, k, item))
  {
    assert next.pxPrevious == ring[k - 1];
    Apart(ring, k - 1);
    Apart(ring, if k == |ring| then 0 else k);
    item.pxNext := next;
    item.pxPrevious := next.pxPrevious;
    next.pxPrevious.pxNext := item;
    next.pxPrevious := item;
    SpliceIn(ring, k, item);
  }

  // The ring without entry k: the links of the two neighbours skip it.
  lemma {:induction false} SpliceOut(ring: seq<ListItem>, k: nat)
    requires 0 < k < |ring|
    requires Distinct(ring)
    requires forall i :: 0 <= i < |ring| - 1 && i != k - 1 && i != k ==> ring[i].pxNext == ring[i + 1]
    requires forall i :: 0 < i < |ring| && i != k && i != k + 1 ==> ring[i].pxPrevious == ring[i - 1]
    requires k < |ring| - 1 ==> ring[|ring| - 1].pxNext == ring[0] && ring[0].pxPrevious == ring[|ring| - 1]
    requires ring[k - 1].pxNext == ring[if k + 1 == |ring| then 0 else k + 1]
    requires ring[if k + 1 == |ring| then 0 else k + 1].pxPrevious == ring[k - 1]
    ensures Linked(RemoveAt(ring, k))
  {
    var r := RemoveAt(ring, k);
    RemoveDistinct(ring, k);
    assert forall i :: 0 <= i < k ==> r[i] == ring[i];
    assert forall i :: k <= i < |r| ==> r[i] == ring[i + 1];
  }

  // The pointer writes of uxListRemove.
  method Unhook(item: ListItem, ghost ring: seq<ListItem>, ghost k: nat)
    requires Linked(ring) && 0 < k < |ring| && item == ring[k]
    modifies (set x | x in ring)`pxNext, (set x | x in ring)`pxPrevious
    ensures Linked(RemoveAt(ring, k)) && item !in RemoveAt(ring, k)
    ensures item.pxNext == old(item.pxNext) && item.pxPrevious == old(item.pxPrevious)
  {
    assert item.pxNext == ring[if k + 1 == |ring| then 0 else k + 1];
    assert item.pxPrevious == ring[k - 1];
    Apart(ring, k - 1);
    Apart(ring, k);
    Apart(ring, if k + 1 == |ring| then 0 else k + 1);
    RemoveDistinct(ring, k);
    item.pxNext.pxPrevious := item.pxPrevious;
    item.pxPrevious.pxNext := item.pxNext;
    SpliceOut(ring, k);
  }

  class List {
    var uxNumberOfItems: nat
    var pxIndex: ListItem
    const xListEnd: ListItem
    ghost var Ring: seq<ListItem> // the end marker, then the items
    ghost var At: nat             // pxIndex == Ring[At]

    ghost predicate Valid()
      reads this, Ring
    {
      && Linked(Ring) && Ring[0] == xListEnd
      && uxNumberOfItems == |Ring| - 1
      && At < |Ring| && pxIndex == Ring[At]
      && xListEnd.xItemValue == MAX_DELAY
      && (forall i :: 0 < i < |Ring| ==> Ring[i].pvContainer == this)
    }

    ghost function View(): Cursor<ListItem>
      requires |Ring| > 0
      reads this
    {
      Cursor(Ring[1..], At)
    }

    ghost function Values(): (vs: seq<Tick>)
      requires |Ring| > 0
      reads this, Ring
      ensures |vs| == |Ring| - 1 && forall i :: 0 <= i < |vs| ==> vs[i] == Ring[i + 1].xItemValue
    {
      seq(|Ring| - 1, i requires 0 <= i < |Ring| - 1 reads this, Ring => Ring[i + 1].xItemValue)
    }

    // vListInitialise
    constructor ()
      ensures Valid() && |Ring| == 1 && At == 0 && fresh(xListEnd)
    {
      var end := new ListItem(MAX_DELAY);
      end.pxNext := end;
      end.pxPrevious := end;
      xListEnd := end;
      pxIndex := end;
      uxNumberOfItems := 0;
      Ring := [end];
      At := 0;
    }

    method HookIn(next: ListItem, item: ListItem, ghost k: nat)
      requires Valid() && item !in Ring
      requires 0 < k <= |Ring| && next == Ring[if k == |Ring| then 0 else k]
      modifies this, Ring, item
      ensures Valid() && Ring == InsertAt(old(Ring), k, item)
      ensures At == if k <= old(At) then old(At) + 1 else old(At)
      ensures item.xItemValue == old(item.xItemValue)
      ensures forall x :: x in old(Ring) ==> x.xItemValue == old(x.xItemValue)
    {
      ghost var ring := Ring;
      item.pvContainer := this;
      uxNumberOfItems := uxNumberOfItems + 1;
      At := if k <= At then At + 1 else At;
      Ring := InsertAt(Ring, k, item);
      HookInBefore(next, item, ring, k);
    }

    // The new item goes just before pxIndex, so it is the last one that a rotation starting at
    // pxIndex reaches before it is back at pxIndex.
    method InsertEnd(item: ListItem)
      requires Valid() && item !in Ring
      modifies this, Ring, item
      ensures Valid()
      ensures Ring == InsertAt(old(Ring), if old(At) == 0 then |old(Ring)| else old(At), item)
      ensures View() == InsertedEnd(old(View()), item)
      ensures item.xItemValue == old(item.xItemValue)
      ensures forall x :: x in old(Ring) ==> x.xItemValue == old(x.xItemValue)
    {
      InsertedInRing(Ring, At, item);
      HookIn(pxIndex, item, if At == 0 then |Ring| else At);
    }

    // The walk of vListInsert. It stops because the end marker's value is larger than any other
    // but portMAX_DELAY, which is caught first.
    method InsertionPoint(value: Tick) returns (walker: ListItem)
      requires Valid()
      ensures walker == Ring[InsertPosition(Values(), value)]
    {
      ghost var k := InsertPosition(Values(), value);
      Neighbours(Ring, 0);
      if value == MAX_DELAY {
        walker := xListEnd.pxPrevious;
      } else {
        walker := xListEnd;
        ghost var i := 0;
        while walker.pxNext.xItemValue <= value
          invariant 0 <= i <= k && walker == Ring[i] && walker.pxNext == Ring[if i + 1 == |Ring| then 0 else i + 1]
          decreases k - i
        {
          assert i < |Values()| ==> Values()[i] == Ring[i + 1].xItemValue;
          walker := walker.pxNext;
          i := i + 1;
          Neighbours(Ring, i);
        }
        assert i < |Values()| ==> Values()[i] == Ring[i + 1].xItemValue;
      }
    }

    lemma {:induction false} ValuesInserted(ring: seq<ListItem>, values: seq<Tick>, item: ListItem, p: nat)
      requires |values| == |ring| - 1 && p <= |values| && Ring == InsertAt(ring, p + 1, item)
      requires forall i {:trigger values[i]} :: 0 <= i < |values| ==> values[i] == ring[i + 1].xItemValue
      ensures Values() == InsertAt(values, p, item.xItemValue)
    {
      var vs := InsertAt(values, p, item.xItemValue);
      forall i | 0 <= i < |vs| ensures vs[i] == Ring[i + 1].xItemValue {
        assert i < p ==> Ring[i + 1] == ring[i + 1] && vs[i] == values[i];
        assert i > p ==> Ring[i + 1] == ring[i] && vs[i] == values[i - 1];
      }
    }

    lemma {:induction false} ValuesRemoved(ring: seq<ListItem>, values: seq<Tick>, k: nat)
      requires |values| == |ring| - 1 && 0 < k < |ring| && Ring == RemoveAt(ring, k)
      requires forall i {:trigger values[i]} :: 0 <= i < |values| && i != k - 1 ==> values[i] == ring[i + 1].xItemValue
      ensures Values() == RemoveAt(values, k - 1)
    {
      var vs := RemoveAt(values, k - 1);
      forall i | 0 <= i < |vs| ensures vs[i] == Ring[i + 1].xItemValue {
        assert i < k - 1 ==> Ring[i + 1] == ring[i + 1] && vs[i] == values[i];
        assert i >= k - 1 ==> Ring[i + 1] == ring[i + 2] && vs[i] == values[i + 1];
      }
    }

    // vListInsert: sorted by value, after the items that have the same value.
    method Insert(item: ListItem)
      requires Valid() && item !in Ring
      modifies this, Ring, item
      ensures Valid()
      ensures Ring == InsertAt(old(Ring), InsertPosition(old(Values()), old(item.xItemValue)) + 1, item)
      ensures Values() ==
              InsertAt(old(Values()), InsertPosition(old(Values()), old(item.xItemValue)), old(item.xItemValue))
      ensures item.xItemValue == old(item.xItemValue)
      ensures forall x :: x in old(Ring) ==> x.xItemValue == old(x.xItemValue)
    {
      var walker := InsertionPoint(item.xItemValue);
      ghost var k := InsertPosition(Values(), item.xItemValue);
      Neighbours(Ring, k);
      ghost var ring, values := Ring, Values();
      HookIn(walker.pxNext, item, k + 1);
      ValuesInserted(ring, values, item, k);
    }

    method Delist(item: ListItem, previous: ListItem, ghost k: nat)
      requires 0 < k < |Ring| && item == Ring[k] && previous == Ring[k - 1]
      requires Ring[0] == xListEnd && xListEnd.xItemValue == MAX_DELAY
      requires Linked(RemoveAt(Ring, k)) && item !in RemoveAt(Ring, k)
      requires uxNumberOfItems == |Ring| - 1 && At < |Ring| && pxIndex == Ring[At]
      requires forall i :: 0 < i < |Ring| ==> Ring[i].pvContainer == this
      modifies this, item`pvContainer
      ensures Valid() && Ring == RemoveAt(old(Ring), k) && item.pvContainer == null
      ensures At == if k <= old(At) then old(At) - 1 else old(At)
    {
      if pxIndex == item {
        pxIndex := previous;
      }
      item.pvContainer := null;
      uxNumberOfItems := uxNumberOfItems - 1;
      At := if k <= At then At - 1 else At;
      Ring := RemoveAt(Ring, k);
      forall i | 0 < i < |Ring| ensures Ring[i].pvContainer == this {
        assert Ring[i] == old(Ring)[if i < k then i else i + 1];
      }
    }

    method TakeOut(item: ListItem, ghost k: nat)
      requires Valid() && 0 < k < |Ring| && item == Ring[k]
      modifies this, Ring
      ensures Valid() && Ring == RemoveAt(old(Ring), k)
      ensures At == if k <= old(At) then old(At) - 1 else old(At)
      ensures item.pvContainer == null
      ensures forall x :: x in old(Ring) ==> x.xItemValue == old(x.xItemValue)
    {
      Neighbours(Ring, k);
      Unhook(item, Ring, k);
      Delist(item, item.pxPrevious, k);
    }

    // uxListRemove, called on the list the item says it is in. If pxIndex stood on the item it
    // steps back to the one before.
    method Remove(item: ListItem, ghost k: nat) returns (left: nat)
      requires Valid() && 0 < k < |Ring| && item == Ring[k]
      modifies this, Ring
      ensures Valid() && Ring == RemoveAt(old(Ring), k)
      ensures View() == Removed(old(View()), k - 1) && Values() == RemoveAt(old(Values()), k - 1)
      ensures left == uxNumberOfItems == |Ring| - 1
      ensures item.pvContainer == null
      ensures forall x :: x in old(Ring) ==> x.xItemValue == old(x.xItemValue)
    {
      RemovedFromRing(Ring, At, k);
      ghost var ring, values := Ring, Values();
      TakeOut(item, k);
      ValuesRemoved(ring, values, k);
      left := uxNumberOfItems;
    }

    // listGET_OWNER_OF_NEXT_ENTRY: move pxIndex on, over the end marker.
    method Advance() returns (entry: ListItem)
      requires Valid() && |Ring| > 1
      modifies this`pxIndex, this`At
      ensures Valid() && Ring == old(Ring)
      ensures View() == Advanced(old(View())) && entry == View().items[View().at - 1]
    {
      Neighbours(Ring, At);
      Neighbours(Ring, 0);
      Apart(Ring, 0);
      At := if At + 1 == |Ring| then 0 else At + 1;
      pxIndex := pxIndex.pxNext;
      if pxIndex == xListEnd {
        pxIndex := pxIndex.pxNext;
        At := 1;
      }
      entry := pxIndex;
    }
  }
}
