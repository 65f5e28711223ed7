/**
  The event lists of queues and mutexes: vListInsert keyed by configMAX_PRIORITIES minus the
  priority, the head taken first, and any entry leaving when its task times out.
 */
module EventLists {
  import opened RingList
  import opened QueueControl

  const MAX_PRIORITIES: nat := 8 // configMAX_PRIORITIES
  const IDLE_PRIORITY: nat := 0  // tskIDLE_PRIORITY

  // An entry remembers when its task joined.
  datatype Entry = Entry(waiter: Waiter, arrival: nat)

  datatype Op = Join(w: Waiter) | WakeHead | TimeOut(k: nat)

  // The event list as a queue sees it.
  function Waiters(es: seq<Entry>): (ws: seq<Waiter>)
    ensures |ws| == |es| && forall i :: 0 <= i < |ws| ==> ws[i] == es[i].waiter
  {
    seq(|es|, i requires 0 <= i < |es| => es[i].waiter)
  }

  predicate Allowed(es: seq<Entry>, op: Op) {
    match op
    case Join(_) => true
    case WakeHead => es != []
    case TimeOut(k) => k < |es|
  }

  function Apply(es: seq<Entry>, op: Op, now: nat): seq<Entry>
    requires Allowed(es, op)
  {
    match op
    case Join(w) => InsertAt(es, InsertPosition(Keys(Waiters(es)), w.key), Entry(w, now))
    case WakeHead => es[1..]
    case TimeOut(k) => RemoveAt(es, k)
  }

  ghost predicate Legal(es: seq<Entry>, ops: seq<Op>, now: nat)
    decreases |ops|
  {
    ops == [] || (Allowed(es, ops[0]) && Legal(Apply(es, ops[0], now), ops[1..], now + 1))
  }

  ghost function End(es: seq<Entry>, ops: seq<Op>, now: nat): seq<Entry>
    requires Legal(es, ops, now)
    decreases |ops|
  {
    if ops == [] then es else End(Apply(es, ops[0], now), ops[1..], now + 1)
  }

  // The steps are what the functions of a queue do to its event lists.
  lemma {:induction false} ApplyIsQueueStep(es: seq<Entry>, op: Op, now: nat, c: Control)
    requires Allowed(es, op) && c.toReceive == Waiters(es)
    ensures op.Join? ==> Waiters(Apply(es, op, now)) == Place(c.toReceive, op.w)
    ensures op.WakeHead? ==> Waiters(Apply(es, op, now)) == WakeReceivers(c, 1).ctl.toReceive
    ensures op.WakeHead? ==> WakeReceivers(c, 1).woken == [es[0].waiter]
    ensures op.TimeOut? ==> Waiters(Apply(es, op, now)) == RemoveAt(c.toReceive, op.k)
  {
    match op
    case Join(w) =>
      var p := InsertPosition(Keys(c.toReceive), w.key);
      assert forall i :: 0 <= i <= |es| ==> Waiters(Apply(es, op, now))[i] == InsertAt(c.toReceive, p, w)[i];
    case WakeHead =>
    case TimeOut(k) =>
  }

  // a is to be served before b: higher priority, or the same and waiting longer.
  predicate Precedes(a: Entry, b: Entry) {
    a.waiter.key < b.waiter.key || (a.waiter.key == b.waiter.key && a.arrival < b.arrival)
  }

  ghost predicate Ordered(es: seq<Entry>, now: nat) {
    && (forall i, j :: 0 <= i < j < |es| ==> Precedes(es[i], es[j]))
    && (forall i :: 0 <= i < |es| ==> es[i].arrival < now)
  }

  lemma {:induction false} InsertKeepsOrder(es: seq<Entry>, p: nat, e: Entry, now: nat)
    requires Ordered(es, now) && p <= |es| && e.arrival == now
    requires forall i :: 0 <= i < p ==> es[i].waiter.key <= e.waiter.key
    requires forall i :: p <= i < |es| ==> e.waiter.key < es[i].waiter.key
    ensures Ordered(InsertAt(es, p, e), now + 1)
  {
    var r := InsertAt(es, p, e);
    forall i, j | 0 <= i < j < |r| ensures Precedes(r[i], r[j]) {
      assert i != p ==> r[i] == es[if i < p then i else i - 1];
      assert j != p ==> r[j] == es[if j < p then j else j - 1];
    }
  }

  lemma {:induction false} JoinKeepsOrder(es: seq<Entry>, e: Entry, now: nat)
    requires Ordered(es, now) && e.arrival == now
    ensures Ordered(InsertAt(es, InsertPosition(Keys(Waiters(es)), e.waiter.key), e), now + 1)
  {
    var p := InsertPosition(Keys(Waiters(es)), e.waiter.key);
    forall i | p <= i < |es| ensures e.waiter.key < es[i].waiter.key {
      assert Keys(Waiters(es))[p] > e.waiter.key;
      assert p == i || Precedes(es[p], es[i]);
    }
    InsertKeepsOrder(es, p, e, now);
  }

  lemma {:induction false} ApplyKeepsOrder(es: seq<Entry>, op: Op, now: nat)
    requires Ordered(es, now) && Allowed(es, op)
    ensures Ordered(Apply(es, op, now), now + 1)
  {
    var r := Apply(es, op, now);
    match op
    case Join(w) => JoinKeepsOrder(es, Entry(w, now), now);
    case WakeHead =>
    case TimeOut(k) =>
      forall i, j | 0 <= i < j < |r| ensures Precedes(r[i], r[j]) {
        assert r[i] == es[if i < k then i else i + 1] && r[j] == es[if j < k then j else j + 1];
      }
  }

  // Whatever joined, was woken or timed out, the list stays in serving order; so the head, which
  // the next event wakes, is the longest-waiting task of the highest waiting priority.
  lemma {:induction false} HeadServedFirst(es: seq<Entry>, ops: seq<Op>, now: nat)
    requires Ordered(es, now) && Legal(es, ops, now)
    ensures Ordered(End(es, ops, now), now + |ops|)
    ensures forall i :: 0 < i < |End(es, ops, now)| ==> Precedes(End(es, ops, now)[0], End(es, ops, now)[i])
    decreases |ops|
  {
    if ops != [] {
      ApplyKeepsOrder(es, ops[0], now);
      HeadServedFirst(Apply(es, ops[0], now), ops[1..], now + 1);
    }
  }

  predicate Sorted(values: seq<Tick>) {
    forall i, j :: 0 <= i < j < |values| ==> values[i] <= values[j]
  }

  // List.Insert and List.Remove keep the values sorted.
  lemma {:induction false} InsertKeepsSorted(values: seq<Tick>, v: Tick)
    requires Sorted(values)
    ensures Sorted(InsertAt(values, InsertPosition(values, v), v))
  {
    var p := InsertPosition(values, v);
    var r := InsertAt(values, p, v);
    forall i | p <= i < |values| ensures v <= values[i] {
      assert v < values[p] && (p == i || values[p] <= values[i]);
    }
    forall i, j | 0 <= i < j < |r| ensures r[i] <= r[j] {
      assert i != p ==> r[i] == values[if i < p then i else i - 1];
      assert j != p ==> r[j] == values[if j < p then j else j - 1];
    }
  }

  lemma {:induction false} RemoveKeepsSorted(values: seq<Tick>, k: nat)
    requires Sorted(values) && k < |values|
    ensures Sorted(RemoveAt(values, k))
  {
    var r := RemoveAt(values, k);
    forall i, j | 0 <= i < j < |r| ensures r[i] <= r[j] {
      assert r[i] == values[if i < k then i else i + 1] && r[j] == values[if j < k then j else j + 1];
    }
  }

  // prvGetDisinheritPriorityAfterTimeout: the highest priority still waiting on the list.
  method DisinheritPriority(waiting: List) returns (p: nat)
    requires waiting.Valid()
    requires forall i :: 0 <= i < |waiting.Values()| ==> waiting.Values()[i] <= MAX_PRIORITIES
    requires Sorted(waiting.Values())
    ensures |waiting.Values()| == 0 ==> p == IDLE_PRIORITY
    ensures |waiting.Values()| > 0 ==>
              exists i :: 0 <= i < |waiting.Values()| && p == MAX_PRIORITIES - waiting.Values()[i]
    ensures forall i :: 0 <= i < |waiting.Values()| ==> MAX_PRIORITIES - waiting.Values()[i] <= p
  {
    if waiting.uxNumberOfItems > 0 {
      Neighbours(waiting.Ring, 0);
      assert waiting.Values()[0] == waiting.Ring[1].xItemValue;
      p := MAX_PRIORITIES - waiting.xListEnd.pxNext.xItemValue;
    } else {
      p := IDLE_PRIORITY;
    }
  }
}
