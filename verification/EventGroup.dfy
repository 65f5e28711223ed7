/**
  The event group object of FreeRTOS/FreeRTOS/event_groups.c. xEventGroupSetBits walks the wait
  list and unlinks items as it goes; every method is proved equal to its function in EventBits.
 */
module EventGroup {
  import opened RingList
  import opened EventBits

  ghost function WaitersOf(items: seq<ListItem>): (ws: seq<Waiter<ListItem>>)
    reads items
    ensures |ws| == |items| && forall i :: 0 <= i < |ws| ==> ws[i] == Waiter(items[i], WordOf(items[i].xItemValue))
  {
    seq(|items|, i requires 0 <= i < |items| reads items => Waiter(items[i], WordOf(items[i].xItemValue)))
  }

  // What a walk will find: the ring, the value of each item, whether it matches and what it adds to
  // uxBitsToClear.
  datatype Survey = Survey(ring: seq<ListItem>, found: map<ListItem, Tick>, hits: seq<bool>, shares: seq<Word>)

  ghost predicate Surveyed(v: Survey, end: ListItem, bits: Word) {
    && |v.ring| == |v.hits| + 1 == |v.shares| + 1
    && v.ring[0] == end && (forall j :: 0 < j < |v.ring| ==> v.ring[j] != end)
    && (forall x :: x in v.ring ==> x in v.found)
    && forall i {:trigger v.hits[i]} {:trigger v.shares[i]} :: 0 <= i < |v.hits| ==>
      var value := WordOf(v.found[v.ring[i + 1]]);
      v.hits[i] == Matches(value, bits) && v.shares[i] == Share(value, bits)
  }

  function Following<T>(ring: seq<T>, i: nat): T
    requires i < |ring|
  {
    ring[if i + 1 == |ring| then 0 else i + 1]
  }

  // The place of item i in the ring when the walk comes to it, after the end marker and the items that stay.
  ghost function Position(hits: seq<bool>, i: nat): (k: nat)
    requires i <= |hits|
    ensures 1 <= k <= i + 1
  {
    if i == 0 then 1 else Position(hits, i - 1) + if hits[i - 1] then 0 else 1
  }

  // The ring when the walk comes to item i.
  ghost function Walked<T>(ring: seq<T>, hits: seq<bool>, i: nat): (r: seq<T>)
    requires |ring| == |hits| + 1 && i <= |hits|
    ensures |r| == Position(hits, i) + |hits| - i
  {
    if i == 0 then ring
    else
      var r := Walked(ring, hits, i - 1);
      if hits[i - 1] then RemoveAt(r, Position(hits, i - 1)) else r
  }

  lemma {:induction false} WalkedAhead<T>(ring: seq<T>, hits: seq<bool>, i: nat, j: nat)
    requires |ring| == |hits| + 1 && i <= j < |hits|
    ensures Walked(ring, hits, i)[Position(hits, i) + j - i] == ring[j + 1]
  {
    if i > 0 {
      WalkedAhead(ring, hits, i - 1, j);
    }
  }

  // So the pointers of the changing list lead the walk along the ring it found.
  lemma {:induction false} WalkedHere<T>(ring: seq<T>, hits: seq<bool>, i: nat)
    requires |ring| == |hits| + 1 && i < |hits|
    ensures Walked(ring, hits, i)[Position(hits, i)] == Following(ring, i)
    ensures Walked(ring, hits, i)[0] == ring[0] ==>
      Following(Walked(ring, hits, i), Position(hits, i)) == Following(ring, i + 1)
  {
    WalkedAhead(ring, hits, i, i);
    if i + 1 < |hits| {
      WalkedAhead(ring, hits, i, i + 1);
    }
  }

  lemma {:induction false} PositionIsLength<T>(items: seq<T>, hits: seq<bool>, i: nat)
    requires i <= |items| == |hits|
    ensures Position(hits, i) == 1 + |Pick(items, hits, false, i)|
  {
    if i > 0 {
      PositionIsLength(items, hits, i - 1);
    }
  }

  lemma {:induction false} DropFirst<T>(a: seq<T>, x: T, rest: seq<T>)
    ensures RemoveAt(a + ([x] + rest), |a|) == a + rest
  {
  }

  lemma {:induction false} Regroup<T>(a: seq<T>, b: seq<T>, c: seq<T>, d: seq<T>)
    ensures (a + b) + (c + d) == (a + (b + c)) + d
  {
  }

  // What it has left of the items before.
  lemma {:induction false} WalkedSoFar<T>(end: T, items: seq<T>, hits: seq<bool>, i: nat)
    requires i <= |items| == |hits|
    ensures Walked([end] + items, hits, i) == ([end] + Pick(items, hits, false, i)) + items[i..]
  {
    if i > 0 {
      WalkedSoFar(end, items, hits, i - 1);
      PositionIsLength(items, hits, i - 1);
      var p := Pick(items, hits, false, i - 1);
      assert items[i - 1..] == [items[i - 1]] + items[i..];
      if hits[i - 1] {
        DropFirst([end] + p, items[i - 1], items[i..]);
        assert Pick(items, hits, false, i) == p;
      } else {
        Regroup([end], p, [items[i - 1]], items[i..]);
        assert Pick(items, hits, false, i) == p + [items[i - 1]];
      }
    }
  }

  lemma {:induction false} WalkedInAll<T>(ring: seq<T>, hits: seq<bool>)
    requires |ring| == |hits| + 1
    ensures Walked(ring, hits, |hits|)[1..] == Pick(ring[1..], hits, false, |hits|)
  {
    assert ring == [ring[0]] + ring[1..];
    WalkedSoFar(ring[0], ring[1..], hits, |hits|);
  }

  lemma {:induction false} PickWaiters(items: seq<ListItem>, ws: seq<Waiter<ListItem>>, hits: seq<bool>, n: nat)
    requires n <= |items| == |ws| == |hits|
    requires forall i :: 0 <= i < n ==> ws[i].who == items[i]
    requires forall i :: 0 <= i < n && !hits[i] ==> ws[i].value == WordOf(items[i].xItemValue)
    ensures WaitersOf(Pick(items, hits, false, n)) == Pick(ws, hits, false, n)
  {
    if n > 0 {
      PickWaiters(items, ws, hits, n - 1);
    }
  }

  lemma {:induction false} WaitersAppend(items: seq<ListItem>, ws: seq<Waiter<ListItem>>, item: ListItem)
    requires |ws| == |items| && forall i :: 0 <= i < |ws| ==> ws[i] == Waiter(items[i], WordOf(items[i].xItemValue))
    ensures WaitersOf(items + [item]) == ws + [Waiter(item, WordOf(item.xItemValue))]
  {
  }

  function EncodedNumber(mask: Word, clear: bool, all: bool): (v: Tick)
    requires Plain(mask)
    ensures WordOf(v) == Encode(mask, clear, all)
  {
    NumberRoundTrip(Encode(mask, clear, all));
    Number(Encode(mask, clear, all))
  }

  ghost predicate Unlinked(item: ListItem, value: Tick)
    reads item
  {
    item.pvContainer == null && item.xItemValue == value
  }

  // vTaskRemoveFromUnorderedEventList, as far as the event group sees it.
  method Release(list: List, item: ListItem, value: Word, ghost k: nat)
    requires list.Valid() && 0 < k < |list.Ring| && item == list.Ring[k] && list.At == 0
    modifies list, list.Ring
    ensures list.Valid() && list.Ring == RemoveAt(old(list.Ring), k) && list.At == 0
    ensures Unlinked(item, Number(ReleaseValue(value))) && item !in list.Ring
    ensures forall x :: x in old(list.Ring) && x != item ==> x.xItemValue == old(x.xItemValue)
  {
    Apart(list.Ring, 0);
    RemoveDistinct(list.Ring, k);
    item.xItemValue := Number(ReleaseValue(value));
    var _ := list.Remove(item, k);
  }

  // Do the bits release this item, and what does it add to uxBitsToClear?
  method Examine(value: Word, bits: Word) returns (matched: bool, toClear: Word)
    ensures matched == Matches(value, bits) && toClear == Share(value, bits)
  {
    var waitedFor := Mask(value);
    var control := value - waitedFor;
    matched := false;
    toClear := {};
    if WAIT_FOR_ALL_BITS !in control {
      if waitedFor * bits != {} {
        matched := true;
      }
    } else if waitedFor * bits == waitedFor {
      matched := true;
    }
    if matched && CLEAR_EVENTS_ON_EXIT_BIT in control {
      toClear := waitedFor;
    }
    assert waitedFor * bits == bits * waitedFor;
  }

  class EventGroup_t {
    var uxEventBits: Word
    const xTasksWaitingForBits: List

    ghost predicate Valid()
      reads this, xTasksWaitingForBits, xTasksWaitingForBits.Ring
    {
      xTasksWaitingForBits.Valid() && xTasksWaitingForBits.At == 0
    }

    ghost function Waiting(): seq<ListItem>
      requires Valid()
      reads this, xTasksWaitingForBits, xTasksWaitingForBits.Ring
    {
      xTasksWaitingForBits.Ring[1..]
    }

    ghost function State(): Group<ListItem>
      requires Valid()
      reads this, xTasksWaitingForBits, xTasksWaitingForBits.Ring
    {
      Group(uxEventBits, WaitersOf(Waiting()))
    }

    // xEventGroupCreate
    constructor ()
      ensures Valid() && State() == Group({}, []) && fresh(xTasksWaitingForBits)
      ensures fresh(xTasksWaitingForBits.xListEnd)
    {
      uxEventBits := {};
      xTasksWaitingForBits := new List();
    }

    // Off the list, with the value that tells the task it was released.
    ghost predicate Gone(gone: set<ListItem>, bits: Word)
      reads xTasksWaitingForBits, gone
    {
      forall x :: x in gone ==> x !in xTasksWaitingForBits.Ring && Unlinked(x, Number(ReleaseValue(bits)))
    }

    // One turn of the loop of xEventGroupSetBits. The next item is read before this one may leave.
    method Visit(item: ListItem, ghost k: nat) returns (next: ListItem, toClear: Word)
      requires Valid() && 0 < k < |xTasksWaitingForBits.Ring| && item == xTasksWaitingForBits.Ring[k]
      modifies xTasksWaitingForBits, xTasksWaitingForBits.Ring
      ensures Valid()
      ensures next == Following(old(xTasksWaitingForBits.Ring), k)
      ensures toClear == Share(WordOf(old(item.xItemValue)), uxEventBits)
      ensures xTasksWaitingForBits.Ring == if Matches(WordOf(old(item.xItemValue)), uxEventBits) then
                RemoveAt(old(xTasksWaitingForBits.Ring), k) else old(xTasksWaitingForBits.Ring)
      ensures Matches(WordOf(old(item.xItemValue)), uxEventBits) ==> Gone({item}, uxEventBits)
      ensures forall x :: x in xTasksWaitingForBits.Ring ==>
                x in old(xTasksWaitingForBits.Ring) && x.xItemValue == old(x.xItemValue)
    {
      Neighbours(xTasksWaitingForBits.Ring, k);
      next := item.pxNext;
      var matched;
      matched, toClear := Examine(WordOf(item.xItemValue), uxEventBits);
      if matched {
        Release(xTasksWaitingForBits, item, uxEventBits, k);
      }
    }

    // The items released before stay as they are.
    method VisitNext(item: ListItem, ghost k: nat, ghost gone: set<ListItem>)
      returns (next: ListItem, toClear: Word, ghost gone': set<ListItem>)
      requires Valid() && 0 < k < |xTasksWaitingForBits.Ring| && item == xTasksWaitingForBits.Ring[k]
      requires Gone(gone, uxEventBits)
      modifies xTasksWaitingForBits, xTasksWaitingForBits.Ring
      ensures Valid()
      ensures next == Following(old(xTasksWaitingForBits.Ring), k)
      ensures toClear == Share(WordOf(old(item.xItemValue)), uxEventBits)
      ensures xTasksWaitingForBits.Ring == if Matches(WordOf(old(item.xItemValue)), uxEventBits) then
                RemoveAt(old(xTasksWaitingForBits.Ring), k) else old(xTasksWaitingForBits.Ring)
      ensures gone' == (if Matches(WordOf(old(item.xItemValue)), uxEventBits) then gone + {item} else gone)
      ensures Gone(gone', uxEventBits)
      ensures forall x :: x in xTasksWaitingForBits.Ring ==>
                x in old(xTasksWaitingForBits.Ring) && x.xItemValue == old(x.xItemValue)
    {
      gone' := if Matches(WordOf(item.xItemValue), uxEventBits) then gone + {item} else gone;
      next, toClear := Visit(item, k);
    }

    ghost predicate Reached(v: Survey, i: nat, gone: set<ListItem>)
      requires |v.ring| == |v.hits| + 1
      reads this, xTasksWaitingForBits, xTasksWaitingForBits.Ring, gone
    {
      && i <= |v.hits| && Valid() && xTasksWaitingForBits.Ring == Walked(v.ring, v.hits, i)
      && (forall x :: x in xTasksWaitingForBits.Ring ==> x in v.found && x.xItemValue == v.found[x])
      && Gone(gone, uxEventBits) && (forall j :: 0 <= j < i && v.hits[j] ==> v.ring[j + 1] in gone)
    }

    // The walk stands before item i; `gone` holds the items it has released.
    ghost predicate Walking(v: Survey, i: nat, gone: set<ListItem>)
      reads this, xTasksWaitingForBits, xTasksWaitingForBits.Ring, gone
    {
      Surveyed(v, xTasksWaitingForBits.xListEnd, uxEventBits) && Reached(v, i, gone)
    }

    // The loop of xEventGroupSetBits before it looks at `item`, number i of the ring it found.
    ghost predicate Looping(v: Survey, i: nat, gone: set<ListItem>, item: ListItem, toClear: Word)
      reads this, xTasksWaitingForBits, xTasksWaitingForBits.Ring, gone
    {
      && Walking(v, i, gone) && item == Following(v.ring, i)
      && (item == xTasksWaitingForBits.xListEnd <==> i == |v.hits|) && toClear == OrAll(v.shares, i)
    }

    // One turn seen from the whole walk.
    method WalkOn(item: ListItem, ghost v: Survey, ghost i: nat, ghost gone: set<ListItem>)
      returns (next: ListItem, toClear: Word, ghost gone': set<ListItem>)
      requires Walking(v, i, gone) && i < |v.hits| && item == Following(v.ring, i)
      modifies xTasksWaitingForBits, v.found.Keys
      ensures Walking(v, i + 1, gone')
      ensures next == Following(v.ring, i + 1) && toClear == v.shares[i] && (next == v.ring[0] <==> i + 1 == |v.hits|)
    {
      WalkedHere(v.ring, v.hits, i);
      next, toClear, gone' := VisitNext(item, Position(v.hits, i), gone);
    }

    method Turn(item: ListItem, toClear: Word, ghost v: Survey, ghost i: nat, ghost gone: set<ListItem>)
      returns (next: ListItem, toClear': Word, ghost gone': set<ListItem>)
      requires Looping(v, i, gone, item, toClear) && item != xTasksWaitingForBits.xListEnd
      modifies xTasksWaitingForBits, v.found.Keys
      ensures Looping(v, i + 1, gone', next, toClear') && i < |v.hits|
    {
      var share;
      next, share, gone' := WalkOn(item, v, i, gone);
      toClear' := toClear + share;
    }

    // listGET_HEAD_ENTRY
    method Head(ghost v: Survey) returns (item: ListItem)
      requires v.ring == xTasksWaitingForBits.Ring && Walking(v, 0, {})
      ensures Looping(v, 0, {}, item, {})
    {
      Neighbours(v.ring, 0);
      item := xTasksWaitingForBits.xListEnd.pxNext;
    }

    // The loop of xEventGroupSetBits.
    method Walk(ghost v: Survey) returns (toClear: Word, ghost gone: set<ListItem>)
      requires v.ring == xTasksWaitingForBits.Ring && Walking(v, 0, {})
      modifies xTasksWaitingForBits, v.found.Keys
      ensures Walking(v, |v.hits|, gone) && toClear == OrAll(v.shares, |v.shares|)
    {
      var item := Head(v);
      toClear := {};
      ghost var i := 0;
      gone := {};
      while item != xTasksWaitingForBits.xListEnd
        invariant Looping(v, i, gone, item, toClear)
        decreases |v.hits| - i
      {
        item, toClear, gone := Turn(item, toClear, v, i, gone);
        i := i + 1;
      }
    }

    // What a finished walk means for the wait list it found.
    lemma {:induction false} WalkKeeps(v: Survey, ws: seq<Waiter<ListItem>>, gone: set<ListItem>)
      requires Walking(v, |v.hits|, gone)
      requires |ws| == |v.hits|
      requires forall i :: 0 <= i < |ws| ==> ws[i] == Waiter(v.ring[i + 1], WordOf(v.found[v.ring[i + 1]]))
      ensures State() == Group(uxEventBits, Pick(ws, v.hits, false, |ws|))
    {
      var items := v.ring[1..];
      WalkedInAll(v.ring, v.hits);
      forall i | 0 <= i < |ws| && !v.hits[i] ensures items[i].xItemValue == v.found[items[i]] {
        PickExactly(items, v.hits, false, |items|, items[i]);
        assert items[i] in Waiting();
      }
      PickWaiters(items, ws, v.hits, |items|);
    }

    lemma {:induction false} WalkFrees(v: Survey, ws: seq<Waiter<ListItem>>, gone: set<ListItem>)
      requires Walking(v, |v.hits|, gone)
      requires |ws| == |v.hits| && forall i :: 0 <= i < |ws| ==> ws[i].who == v.ring[i + 1]
      ensures forall w :: w in Pick(ws, v.hits, true, |ws|) ==> Unlinked(w.who, Number(ReleaseValue(uxEventBits)))
    {
      forall w | w in Pick(ws, v.hits, true, |ws|) ensures w.who in gone {
        PickExactly(ws, v.hits, true, |ws|, w);
      }
    }

    // The part of xEventGroupSetBits that is done before the matched bits are cleared.
    method ReleaseMatching() returns (toClear: Word)
      requires Valid()
      modifies xTasksWaitingForBits, xTasksWaitingForBits.Ring
      ensures Valid()
      ensures toClear == BitsToClear(old(State()).waiting, uxEventBits)
      ensures State() == Group(uxEventBits, Kept(old(State()).waiting, uxEventBits))
      ensures forall w :: w in Freed(old(State()).waiting, uxEventBits) ==>
                Unlinked(w.who, Number(ReleaseValue(uxEventBits)))
      ensures forall x :: x in xTasksWaitingForBits.Ring ==> x in old(xTasksWaitingForBits.Ring)
    {
      ghost var ring, ws := xTasksWaitingForBits.Ring, State().waiting;
      ghost var found := map x | x in ring :: x.xItemValue;
      ghost var v := Survey(ring, found, Hits(ws, uxEventBits), Shares(ws, uxEventBits));
      ghost var gone;
      Apart(ring, 0);
      toClear, gone := Walk(v);
      WalkKeeps(v, ws, gone);
      WalkFrees(v, ws, gone);
    }

    // The suspended section of xEventGroupSetBits. What the call returns is read after it, when other
    // tasks may have run: EventProtocol has a step of its own for that.
    method SetBits(bitsToSet: Word)
      requires Valid()
      modifies this, xTasksWaitingForBits, xTasksWaitingForBits.Ring
      ensures Valid() && State() == EventBits.SetBits(old(State()), bitsToSet)
      ensures var now := old(uxEventBits) + bitsToSet;
        State() == Group(now - BitsToClear(old(State()).waiting, now), Kept(old(State()).waiting, now))
      ensures forall w :: w in Freed(old(State()).waiting, old(uxEventBits) + bitsToSet) ==>
        Unlinked(w.who, Number(ReleaseValue(old(uxEventBits) + bitsToSet)))
      ensures forall x :: x in xTasksWaitingForBits.Ring ==> x in old(xTasksWaitingForBits.Ring)
    {
      ghost var ws := State().waiting;
      uxEventBits := uxEventBits + bitsToSet;
      assert State().waiting == ws;
      var toClear := ReleaseMatching();
      ghost var kept := State().waiting;
      uxEventBits := uxEventBits - toClear;
      assert State().waiting == kept;
    }

    method ClearBits(bitsToClear: Word) returns (bits: Word)
      requires Valid()
      modifies `uxEventBits
      ensures Valid() && State() == EventBits.ClearBits(old(State()), bitsToClear) && bits == old(uxEventBits)
      ensures uxEventBits == old(uxEventBits) - bitsToClear && State().waiting == old(State()).waiting
    {
      ghost var ws := State().waiting;
      bits := uxEventBits;
      uxEventBits := uxEventBits - bitsToClear;
      assert State().waiting == ws;
    }

    // vTaskPlaceOnUnorderedEventList, as far as the event group sees it.
    method Block(item: ListItem, mask: Word, clear: bool, all: bool)
      requires Valid() && item !in xTasksWaitingForBits.Ring && Plain(mask)
      modifies xTasksWaitingForBits, xTasksWaitingForBits.Ring, item
      ensures Valid() && State() == Join(old(State()), item, mask, clear, all)
      ensures State().waiting == old(State()).waiting + [Waiter(item, Encode(mask, clear, all))]
    {
      ghost var items, ws := Waiting(), State().waiting;
      item.xItemValue := EncodedNumber(mask, clear, all);
      xTasksWaitingForBits.InsertEnd(item);
      assert Waiting() == items + [item];
      WaitersAppend(items, ws, item);
    }

    // The suspended section; a caller that blocks goes on in its own context once it is released
    // or timed out.
    method WaitBits(item: ListItem, mask: Word, clear: bool, all: bool, mayBlock: bool) returns (reply: Reply)
      requires Valid() && item !in xTasksWaitingForBits.Ring && Plain(mask)
      modifies this, xTasksWaitingForBits, xTasksWaitingForBits.Ring, item
      ensures Valid() && Outcome(State(), reply) == EventBits.WaitBits(old(State()), item, mask, clear, all, mayBlock)
      ensures var met := WaitConditionMet(old(uxEventBits), mask, all);
        && reply == (if !met && mayBlock then Blocks else Returns(old(uxEventBits)))
        && uxEventBits == (if met && clear then old(uxEventBits) - mask else old(uxEventBits))
        && State().waiting == if met || !mayBlock then old(State()).waiting
                              else old(State()).waiting + [Waiter(item, Encode(mask, clear, all))]
    {
      reply := Returns(uxEventBits);
      if WaitConditionMet(uxEventBits, mask, all) {
        if clear {
          var _ := ClearBits(mask);
        }
      } else if mayBlock {
        Block(item, mask, clear, all);
        reply := Blocks;
      }
    }

    method Sync(item: ListItem, bitsToSet: Word, mask: Word, mayBlock: bool) returns (reply: Reply)
      requires Valid() && item !in xTasksWaitingForBits.Ring && Plain(mask)
      modifies this, xTasksWaitingForBits, xTasksWaitingForBits.Ring, item
      ensures Valid() && Outcome(State(), reply) == EventBits.Sync(old(State()), item, bitsToSet, mask, mayBlock)
      ensures var now, ws := old(uxEventBits) + bitsToSet, old(State()).waiting;
        var met := WaitConditionMet(now, mask, true);
        && reply == (if met then Returns(now) else if mayBlock then Blocks else Returns(uxEventBits))
        && uxEventBits == now - BitsToClear(ws, now) - (if met then mask else {})
        && State().waiting == if met || !mayBlock then Kept(ws, now)
                              else Kept(ws, now) + [Waiter(item, Encode(mask, true, true))]
    {
      var original := uxEventBits;
      SetBits(bitsToSet);
      assert forall k :: 0 <= k < |xTasksWaitingForBits.Ring| ==>
        xTasksWaitingForBits.Ring[k] in old(xTasksWaitingForBits.Ring);
      if WaitConditionMet(original + bitsToSet, mask, true) {
        reply := Returns(original + bitsToSet);
        var _ := ClearBits(mask);
      } else if mayBlock {
        Block(item, mask, true, true);
        reply := Blocks;
      } else {
        reply := Returns(uxEventBits);
      }
    }

    // The critical section of a caller that timed out.
    method AfterTimeOut(mask: Word, clear: bool, all: bool) returns (bits: Word)
      requires Valid()
      modifies `uxEventBits
      ensures Valid() && State() == EventBits.AfterTimeOut(old(State()), mask, clear, all) && bits == old(uxEventBits)
      ensures uxEventBits == old(uxEventBits)
                             - if clear && WaitConditionMet(old(uxEventBits), mask, all) then mask else {}
      ensures State().waiting == old(State()).waiting
    {
      bits := uxEventBits;
      if WaitConditionMet(bits, mask, all) {
        if clear {
          var _ := ClearBits(mask);
        }
      }
    }
  }
}
