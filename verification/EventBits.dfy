/**
  The bit conventions of FreeRTOS/FreeRTOS/event_groups.c and the operations of an event group on
  values. A 32-bit word is the set of the positions of its one bits: `&` is intersection, `|` union
  and `& ~` difference. Module EventGroup proves the list walk against these functions.
 */
module EventBits {
  import opened Powers
  import opened RingList

  type Word = set<nat>

  predicate Fits(w: Word) {
    forall i :: i in w ==> i < 32
  }

  const CLEAR_EVENTS_ON_EXIT_BIT: nat := 24 // 0x01000000
  const UNBLOCKED_DUE_TO_BIT_SET: nat := 25 // 0x02000000
  const WAIT_FOR_ALL_BITS: nat := 26        // 0x04000000
  const ITEM_VALUE_IN_USE: nat := 31        // 0x80000000, taskEVENT_LIST_ITEM_VALUE_IN_USE
  const FIRST_CONTROL_BIT: nat := 24        // eventEVENT_BITS_CONTROL_BYTES is 0xff000000

  // ---------------------------------------------------------------- words and list item values

  predicate Bit(v: nat, i: nat) {
    if i == 0 then v % 2 == 1 else Bit(v / 2, i - 1)
  }

  function WordOf(v: Tick): Word {
    set i: nat | i < 32 && Bit(v, i)
  }

  // The bits of w from position i on, as a number.
  function NumberFrom(w: Word, i: nat): (v: nat)
    requires i <= 32
    ensures v < Pow2(32 - i)
    decreases 32 - i, w
  {
    if i == 32 then 0 else (if i in w then 1 else 0) + 2 * NumberFrom(w, i + 1)
  }

  function Number(w: Word): Tick {
    Pow32();
    NumberFrom(w, 0)
  }

  lemma {:induction false} Halve(v: nat, b: bool, rest: nat)
    requires v == (if b then 1 else 0) + 2 * rest
    ensures v / 2 == rest && (v % 2 == 1) == b
  {
  }

  lemma {:induction false} NumberBit(w: Word, i: nat, j: nat)
    requires i + j < 32
    ensures Bit(NumberFrom(w, i), j) == (i + j in w)
    decreases j
  {
    Halve(NumberFrom(w, i), i in w, NumberFrom(w, i + 1));
    if j > 0 {
      NumberBit(w, i + 1, j - 1);
    }
  }

  lemma {:induction false} NumberRoundTrip(w: Word)
    requires Fits(w)
    ensures WordOf(Number(w)) == w
  {
    forall i: nat | i < 32 ensures Bit(Number(w), i) == (i in w) {
      NumberBit(w, 0, i);
    }
  }

  // ---------------------------------------------------------------- wait conditions

  // A task on the wait list and the value in its event list item.
  datatype Waiter<T> = Waiter(who: T, value: Word)

  // prvTestWaitCondition
  predicate WaitConditionMet(bits: Word, mask: Word, all: bool) {
    if all then bits * mask == mask else bits * mask != {}
  }

  // All the bits of the mask are set, or one of them is.
  lemma {:induction false} ConditionMeans(bits: Word, mask: Word, all: bool)
    ensures WaitConditionMet(bits, mask, all) <==>
            if all then forall b :: b in mask ==> b in bits else exists b :: b in mask && b in bits
  {
    if all && bits * mask == mask {
      forall b | b in mask ensures b in bits {
        assert b in bits * mask;
      }
    }
    if b :| b in mask && b in bits {
      assert b in bits * mask;
    }
    if b :| b in bits * mask {
      assert b in mask && b in bits;
    }
  }

  predicate Plain(w: Word) {
    forall i :: i in w ==> i < FIRST_CONTROL_BIT
  }

  // What a blocking task leaves in its event list item.
  function Encode(mask: Word, clear: bool, all: bool): Word {
    mask + (if clear then {CLEAR_EVENTS_ON_EXIT_BIT} else {})
    + (if all then {WAIT_FOR_ALL_BITS} else {}) + {ITEM_VALUE_IN_USE}
  }

  // & ~eventEVENT_BITS_CONTROL_BYTES
  function Mask(value: Word): Word {
    set i | i in value && i < FIRST_CONTROL_BIT
  }

  predicate Matches(value: Word, bits: Word) {
    WaitConditionMet(bits, Mask(value), WAIT_FOR_ALL_BITS in value)
  }

  // What vTaskRemoveFromUnorderedEventList leaves in the item of a released task.
  function ReleaseValue(bits: Word): Word {
    bits + {UNBLOCKED_DUE_TO_BIT_SET} + {ITEM_VALUE_IN_USE}
  }

  // The walk reads back exactly what the blocking task asked for, and the task can tell a release,
  // and the bits that released it, from a time-out.
  lemma {:induction false} EncodeRoundTrip(mask: Word, clear: bool, all: bool, bits: Word)
    requires Plain(mask) && Plain(bits)
    ensures Mask(Encode(mask, clear, all)) == mask
    ensures CLEAR_EVENTS_ON_EXIT_BIT in Encode(mask, clear, all) <==> clear
    ensures WAIT_FOR_ALL_BITS in Encode(mask, clear, all) <==> all
    ensures UNBLOCKED_DUE_TO_BIT_SET !in Encode(mask, clear, all) && UNBLOCKED_DUE_TO_BIT_SET in ReleaseValue(bits)
    ensures Mask(ReleaseValue(bits)) == bits
  {
  }

  // Clearing bits satisfies nobody.
  lemma {:induction false} FewerBits(value: Word, bits: Word, cleared: Word)
    requires !Matches(value, bits)
    ensures !Matches(value, bits - cleared)
  {
    var mask := Mask(value);
    assert (bits - cleared) * mask <= bits * mask;
    if (bits - cleared) * mask == mask {
      assert bits * mask == mask;
    }
  }

  // ---------------------------------------------------------------- the walk on values

  // Of the first n elements, those whose flag is `want`, in order.
  function Pick<T>(xs: seq<T>, flags: seq<bool>, want: bool, n: nat): seq<T>
    requires n <= |xs| == |flags|
  {
    if n == 0 then [] else Pick(xs, flags, want, n - 1) + if flags[n - 1] == want then [xs[n - 1]] else []
  }

  function Hits<T>(ws: seq<Waiter<T>>, bits: Word): (hs: seq<bool>)
    ensures |hs| == |ws| && forall i :: 0 <= i < |hs| ==> hs[i] == Matches(ws[i].value, bits)
  {
    seq(|ws|, i requires 0 <= i < |ws| => Matches(ws[i].value, bits))
  }

  // The waiters that stay, in order.
  function Kept<T>(ws: seq<Waiter<T>>, bits: Word): seq<Waiter<T>> {
    Pick(ws, Hits(ws, bits), false, |ws|)
  }

  // The waiters that are released, in order.
  function Freed<T>(ws: seq<Waiter<T>>, bits: Word): seq<Waiter<T>> {
    Pick(ws, Hits(ws, bits), true, |ws|)
  }

  // What one waiter adds to uxBitsToClear.
  function Share(value: Word, bits: Word): Word {
    if Matches(value, bits) && CLEAR_EVENTS_ON_EXIT_BIT in value then Mask(value) else {}
  }

  function Shares<T>(ws: seq<Waiter<T>>, bits: Word): (xs: seq<Word>)
    ensures |xs| == |ws| && forall i :: 0 <= i < |xs| ==> xs[i] == Share(ws[i].value, bits)
  {
    seq(|ws|, i requires 0 <= i < |ws| => Share(ws[i].value, bits))
  }

  // The union of the first n words.
  function OrAll(xs: seq<Word>, n: nat): Word
    requires n <= |xs|
  {
    if n == 0 then {} else OrAll(xs, n - 1) + xs[n - 1]
  }

  // uxBitsToClear at the end of the walk.
  function BitsToClear<T>(ws: seq<Waiter<T>>, bits: Word): Word {
    OrAll(Shares(ws, bits), |ws|)
  }

  lemma {:induction false} PickExactly<T>(xs: seq<T>, flags: seq<bool>, want: bool, n: nat, x: T)
    requires n <= |xs| == |flags|
    ensures x in Pick(xs, flags, want, n) <==> exists i :: 0 <= i < n && xs[i] == x && flags[i] == want
  {
    if n > 0 {
      PickExactly(xs, flags, want, n - 1, x);
    }
  }

  lemma {:induction false} PickCounts<T>(xs: seq<T>, flags: seq<bool>, n: nat)
    requires n <= |xs| == |flags|
    ensures |Pick(xs, flags, true, n)| + |Pick(xs, flags, false, n)| == n
  {
    if n > 0 {
      PickCounts(xs, flags, n - 1);
    }
  }

  lemma {:induction false} KeptAt<T>(ws: seq<Waiter<T>>, bits: Word, w: Waiter<T>)
    ensures w in Kept(ws, bits) <==> w in ws && !Matches(w.value, bits)
    ensures w in Freed(ws, bits) <==> w in ws && Matches(w.value, bits)
  {
    PickExactly(ws, Hits(ws, bits), false, |ws|, w);
    PickExactly(ws, Hits(ws, bits), true, |ws|, w);
  }

  // Every waiter is either released or stays, by its own condition alone.
  lemma {:induction false} KeptExactly<T>(ws: seq<Waiter<T>>, bits: Word)
    ensures forall w :: w in Kept(ws, bits) <==> w in ws && !Matches(w.value, bits)
    ensures forall w :: w in Freed(ws, bits) <==> w in ws && Matches(w.value, bits)
    ensures |Kept(ws, bits)| + |Freed(ws, bits)| == |ws|
  {
    forall w ensures w in Kept(ws, bits) <==> w in ws && !Matches(w.value, bits) {
      KeptAt(ws, bits, w);
    }
    forall w ensures w in Freed(ws, bits) <==> w in ws && Matches(w.value, bits) {
      KeptAt(ws, bits, w);
    }
    PickCounts(ws, Hits(ws, bits), |ws|);
  }

  lemma {:induction false} OrAllExactly(xs: seq<Word>, n: nat, b: nat)
    requires n <= |xs|
    ensures b in OrAll(xs, n) <==> exists i :: 0 <= i < n && b in xs[i]
  {
    if n > 0 {
      OrAllExactly(xs, n - 1, b);
    }
  }

  // A bit is cleared exactly when some released waiter that clears on exit waited for it.
  lemma {:induction false} ClearedExactly<T>(ws: seq<Waiter<T>>, bits: Word, b: nat)
    ensures b in BitsToClear(ws, bits) <==> exists w :: w in ws && b in Share(w.value, bits)
  {
    OrAllExactly(Shares(ws, bits), |ws|, b);
    if i :| 0 <= i < |ws| && b in Shares(ws, bits)[i] {
      assert ws[i] in ws && b in Share(ws[i].value, bits);
    }
    if w :| w in ws && b in Share(w.value, bits) {
      var i :| 0 <= i < |ws| && ws[i] == w;
      assert b in Shares(ws, bits)[i];
    }
  }

  // So the order of the wait list does not matter for the bits that are left nor, by KeptExactly,
  // for who is released.
  lemma {:induction false} OrderDoesNotMatter<T>(ws: seq<Waiter<T>>, vs: seq<Waiter<T>>, bits: Word)
    requires forall w :: w in ws <==> w in vs
    ensures BitsToClear(ws, bits) == BitsToClear(vs, bits)
    ensures forall w :: w in Freed(ws, bits) <==> w in Freed(vs, bits)
  {
    forall b ensures b in BitsToClear(ws, bits) <==> b in BitsToClear(vs, bits) {
      ClearedExactly(ws, bits, b);
      ClearedExactly(vs, bits, b);
    }
    KeptExactly(ws, bits);
    KeptExactly(vs, bits);
  }

  // ---------------------------------------------------------------- the operations on values

  // uxEventBits and xTasksWaitingForBits.
  datatype Group<T> = Group(bits: Word, waiting: seq<Waiter<T>>)

  // What a call left behind, and whether its caller goes on at once.
  datatype Reply = Returns(bits: Word) | Blocks
  datatype Outcome<T> = Outcome(group: Group<T>, reply: Reply)

  // xEventGroupSetBits
  function SetBits<T>(g: Group<T>, bitsToSet: Word): Group<T> {
    var now := g.bits + bitsToSet;
    Group(now - BitsToClear(g.waiting, now), Kept(g.waiting, now))
  }

  // xEventGroupClearBits
  function ClearBits<T>(g: Group<T>, bitsToClear: Word): Group<T> {
    g.(bits := g.bits - bitsToClear)
  }

  // vTaskPlaceOnUnorderedEventList; pxIndex of a wait list never leaves the end marker.
  function Join<T>(g: Group<T>, who: T, mask: Word, clear: bool, all: bool): Group<T> {
    g.(waiting := g.waiting + [Waiter(who, Encode(mask, clear, all))])
  }

  // The suspended section of xEventGroupWaitBits.
  function WaitBits<T>(g: Group<T>, who: T, mask: Word, clear: bool, all: bool, mayBlock: bool): Outcome<T> {
    if WaitConditionMet(g.bits, mask, all) then Outcome(if clear then ClearBits(g, mask) else g, Returns(g.bits))
    else if mayBlock then Outcome(Join(g, who, mask, clear, all), Blocks)
    else Outcome(g, Returns(g.bits))
  }

  // The suspended section of xEventGroupSync.
  function Sync<T>(g: Group<T>, who: T, bitsToSet: Word, mask: Word, mayBlock: bool): Outcome<T> {
    var h := SetBits(g, bitsToSet);
    if WaitConditionMet(g.bits + bitsToSet, mask, true) then Outcome(ClearBits(h, mask), Returns(g.bits + bitsToSet))
    else if mayBlock then Outcome(Join(h, who, mask, true, true), Blocks)
    else Outcome(h, Returns(h.bits))
  }

  // The critical section of a task whose wait timed out; it returns the bits it saw.
  function AfterTimeOut<T>(g: Group<T>, mask: Word, clear: bool, all: bool): Group<T> {
    if clear && WaitConditionMet(g.bits, mask, all) then ClearBits(g, mask) else g
  }
}
