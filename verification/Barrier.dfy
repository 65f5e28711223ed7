/**
  xEventGroupSync as a rendezvous (FreeRTOS/FreeRTOS/event_groups.c): task t sets its own bits
  own[t] and waits, without time limit, for the bits of all. Rounds follow each other; a fast task
  may enter the next round before slower ones have run again. Other tasks, numbered from |own| on,
  may set, clear and wait for any other bits of the group at any time.
 */
module Barrier {
  import opened RingList
  import opened EventBits

  datatype Phase = Free | Blocked | Released(item: Word)

  // entered[t] and left[t] count the calls of task t that began and returned.
  datatype State = State(group: Group<nat>, phase: seq<Phase>, entered: seq<nat>, left: seq<nat>)

  datatype Step =
    | Enter(t: nat)  // the suspended section of xEventGroupSync
    | Resume(t: nat) // a released task runs again and returns
    | OthersSet(bits: Word)
    | OthersClear(bits: Word) // also what another task clears after a time-out
    | OthersWait(who: nat, mask: Word, clear: bool, all: bool, mayBlock: bool)
    | OthersSync(who: nat, bits: Word, mask: Word, mayBlock: bool)
    | OthersTimeOut(k: nat)   // the block time of entry k of the wait list runs out

  datatype Result = Result(state: State, reply: Reply)

  function AllBits(own: seq<Word>): Word {
    OrAll(own, |own|)
  }

  ghost predicate Disjoint(own: seq<Word>) {
    && (forall t :: 0 <= t < |own| ==> own[t] != {} && Plain(own[t]))
    && (forall t, u :: 0 <= t < u < |own| ==> own[t] * own[u] == {})
  }

  // Bits that have nothing to do with the rendezvous.
  predicate Foreign(own: seq<Word>, bits: Word) {
    Plain(bits) && bits * AllBits(own) == {}
  }

  predicate IsOthers(step: Step) {
    !step.Enter? && !step.Resume?
  }

  predicate Enabled(own: seq<Word>, s: State, step: Step) {
    && |own| == |s.phase| == |s.entered| == |s.left|
    && match step
       case Enter(t) => t < |own| && s.phase[t].Free?
       case Resume(t) => t < |own| && s.phase[t].Released?
       case OthersSet(b) => Foreign(own, b)
       case OthersClear(b) => Foreign(own, b)
       case OthersWait(who, m, _, _, _) => who >= |own| && Foreign(own, m) && m != {}
       case OthersSync(who, b, m, _) => who >= |own| && Foreign(own, b) && Foreign(own, m) && m != {}
       case OthersTimeOut(k) => k < |s.group.waiting| && s.group.waiting[k].who >= |own|
  }

  // A blocked task that is no longer on the list was released by the walk.
  function AfterWalk(phase: seq<Phase>, kept: seq<Waiter<nat>>, bits: Word): (p: seq<Phase>)
    ensures |p| == |phase|
  {
    seq(|phase|, t requires 0 <= t < |phase| =>
      if phase[t].Blocked? && !OnList(kept, t) then Released(ReleaseValue(bits)) else phase[t])
  }

  predicate OnList(ws: seq<Waiter<nat>>, t: nat) {
    exists w :: w in ws && w.who == t
  }

  function Next(own: seq<Word>, s: State, step: Step): Result
    requires Enabled(own, s, step)
  {
    match step
    case Enter(t) =>
      var kept := SetBits(s.group, own[t]).waiting;
      var o := Sync(s.group, t, own[t], AllBits(own), true);
      var phase := AfterWalk(s.phase, kept, s.group.bits + own[t]);
      var entered := s.entered[t := s.entered[t] + 1];
      if o.reply.Blocks? then Result(State(o.group, phase[t := Blocked], entered, s.left), o.reply)
      else Result(State(o.group, phase, entered, s.left[t := s.left[t] + 1]), o.reply)
    case Resume(t) =>
      Result(s.(phase := s.phase[t := Free], left := s.left[t := s.left[t] + 1]), Returns(Mask(s.phase[t].item)))
    case OthersSet(b) =>
      var g := SetBits(s.group, b);
      Result(s.(group := g, phase := AfterWalk(s.phase, g.waiting, s.group.bits + b)), Returns(g.bits))
    case OthersClear(b) => Result(s.(group := ClearBits(s.group, b)), Returns(s.group.bits))
    case OthersWait(who, m, clear, all, mayBlock) =>
      var o := WaitBits(s.group, who, m, clear, all, mayBlock);
      Result(s.(group := o.group), o.reply)
    case OthersSync(who, b, m, mayBlock) =>
      var kept := SetBits(s.group, b).waiting;
      var o := Sync(s.group, who, b, m, mayBlock);
      Result(s.(group := o.group, phase := AfterWalk(s.phase, kept, s.group.bits + b)), o.reply)
    case OthersTimeOut(k) =>
      Result(s.(group := s.group.(waiting := RemoveAt(s.group.waiting, k))), Blocks)
  }

  // ---------------------------------------------------------------- the invariant

  // Where task t can be when r rendezvous are complete.
  ghost predicate InRound(own: seq<Word>, s: State, r: nat, t: nat)
    requires t < |own| == |s.phase| == |s.entered| == |s.left|
  {
    match s.phase[t]
    case Free => s.entered[t] == r && s.left[t] == r && own[t] * s.group.bits == {}
    case Blocked => s.entered[t] == r + 1 && s.left[t] == r && own[t] <= s.group.bits && OnList(s.group.waiting, t)
    case Released(item) =>
      && s.entered[t] == r && s.left[t] + 1 == r
      && own[t] * s.group.bits == {} && AllBits(own) <= Mask(item)
  }

  // An entry of the wait list.
  ghost predicate EntryOk(own: seq<Word>, phase: seq<Phase>, w: Waiter<nat>) {
    if w.who < |phase| then phase[w.who].Blocked? && w.value == Encode(AllBits(own), true, true)
    else Mask(w.value) * AllBits(own) == {}
  }

  ghost predicate Entries(own: seq<Word>, s: State) {
    forall w :: w in s.group.waiting ==> EntryOk(own, s.phase, w)
  }

  ghost predicate Inv(own: seq<Word>, s: State, r: nat) {
    && Disjoint(own) && |own| == |s.phase| == |s.entered| == |s.left|
    && (forall t :: 0 <= t < |own| ==> InRound(own, s, r, t))
    && Entries(own, s) && Plain(s.group.bits)
    && (exists t :: 0 <= t < |own| && !s.phase[t].Blocked?)
  }

  // ---------------------------------------------------------------- bits

  lemma {:induction false} AllBitsWithin(own: seq<Word>, x: Word)
    ensures AllBits(own) <= x <==> forall t :: 0 <= t < |own| ==> own[t] <= x
  {
    forall b ensures b in AllBits(own) <==> exists t :: 0 <= t < |own| && b in own[t] {
      OrAllExactly(own, |own|, b);
    }
    if forall t :: 0 <= t < |own| ==> own[t] <= x {
      forall b | b in AllBits(own) ensures b in x {
        var t :| 0 <= t < |own| && b in own[t];
        assert own[t] <= x;
      }
    }
    if AllBits(own) <= x {
      forall t | 0 <= t < |own| ensures own[t] <= x {
      }
    }
  }

  lemma {:induction false} AllBitsPlain(own: seq<Word>)
    requires Disjoint(own)
    ensures Plain(AllBits(own)) && forall t :: 0 <= t < |own| ==> own[t] <= AllBits(own)
  {
    AllBitsWithin(own, AllBits(own));
    forall b | b in AllBits(own) ensures b < FIRST_CONTROL_BIT {
      OrAllExactly(own, |own|, b);
    }
  }

  // An entry of the rendezvous is released exactly when all its bits are set, and an entry of another
  // task clears none of them.
  lemma {:induction false} EntryWalked(own: seq<Word>, phase: seq<Phase>, w: Waiter<nat>, now: Word)
    requires Disjoint(own) && EntryOk(own, phase, w)
    ensures w.who < |phase| ==> (Matches(w.value, now) <==> AllBits(own) <= now)
    ensures !(AllBits(own) <= now) ==> Share(w.value, now) * AllBits(own) == {}
  {
    AllBitsPlain(own);
    EncodeRoundTrip(AllBits(own), true, true, {});
    assert now * AllBits(own) == AllBits(own) <==> AllBits(own) <= now;
  }

  // Setting bits releases all tasks of the rendezvous, or none of them and leaves their bits alone.
  lemma {:induction false} SetBitsAtRendezvous(own: seq<Word>, s: State, bits: Word)
    requires Disjoint(own) && Entries(own, s)
    ensures var g, now := SetBits(s.group, bits), s.group.bits + bits;
      && g.bits <= now && (forall w :: w in g.waiting ==> w in s.group.waiting)
      && if AllBits(own) <= now then forall w :: w in g.waiting ==> w.who >= |s.phase|
         else (now - g.bits) * AllBits(own) == {}
              && forall w :: w in s.group.waiting && w.who < |s.phase| ==> w in g.waiting
  {
    var g, now := SetBits(s.group, bits), s.group.bits + bits;
    forall w: Waiter<nat>
      ensures w in g.waiting ==> w in s.group.waiting
      ensures w in s.group.waiting && w.who < |s.phase| ==> (w in g.waiting <==> !(AllBits(own) <= now)) {
      KeptAt(s.group.waiting, now, w);
      if w in s.group.waiting {
        EntryWalked(own, s.phase, w, now);
      }
    }
    if !(AllBits(own) <= now) {
      var lost := (now - g.bits) * AllBits(own);
      if lost != {} {
        var b :| b in lost;
        ClearedExactly(s.group.waiting, now, b);
        var w :| w in s.group.waiting && b in Share(w.value, now);
        EntryWalked(own, s.phase, w, now);
        NotInBoth(b, Share(w.value, now), AllBits(own));
        assert false;
      }
    }
  }

  lemma {:induction false} NotInBoth(b: nat, x: Word, y: Word)
    requires x * y == {} && b in y
    ensures b !in x
  {
    assert b in x ==> b in x * y;
  }

  // So the phases change only when all bits of the rendezvous are set.
  lemma {:induction false} NobodyReleased(own: seq<Word>, s: State, r: nat, bits: Word)
    requires Inv(own, s, r) && !(AllBits(own) <= s.group.bits + bits)
    ensures var g := SetBits(s.group, bits);
      && AfterWalk(s.phase, g.waiting, s.group.bits + bits) == s.phase && Entries(own, s.(group := g))
      && forall t :: 0 <= t < |own| ==>
           && own[t] * g.bits == own[t] * (s.group.bits + bits)
           && (OnList(s.group.waiting, t) ==> OnList(g.waiting, t))
  {
    var g, now := SetBits(s.group, bits), s.group.bits + bits;
    SetBitsAtRendezvous(own, s, bits);
    AllBitsPlain(own);
    forall t | 0 <= t < |own|
      ensures own[t] * g.bits == own[t] * now && (OnList(s.group.waiting, t) ==> OnList(g.waiting, t))
      ensures s.phase[t].Blocked? ==> OnList(g.waiting, t) {
      assert InRound(own, s, r, t);
      assert own[t] <= AllBits(own);
      forall b | b in own[t] && b in now ensures b in g.bits {
        assert b !in g.bits ==> b in (now - g.bits) * AllBits(own);
      }
      if w :| w in s.group.waiting && w.who == t {
        assert w in g.waiting;
      }
    }
  }

  // ---------------------------------------------------------------- steps

  lemma {:induction false} Missing(o: Word, x: Word, y: Word)
    requires o != {} && o * x == {} && o * y == {}
    ensures !(o <= x + y)
  {
    var b :| b in o;
    assert b !in o * x && b !in o * y;
  }

  lemma {:induction false} Apart(own: seq<Word>, t: nat, u: nat)
    requires Disjoint(own) && t < |own| && u < |own| && t != u
    ensures own[t] * own[u] == {} && own[u] * own[t] == {}
  {
    if t < u {
      assert own[t] * own[u] == own[u] * own[t];
    } else {
      assert own[u] * own[t] == own[t] * own[u];
    }
  }

  // The bits of a task that has not arrived are missing, so the rendezvous is complete exactly
  // when every other task is blocked in it.
  lemma {:induction false} CompleteIff(own: seq<Word>, s: State, r: nat, t: nat)
    requires Inv(own, s, r) && Enabled(own, s, Enter(t))
    ensures AllBits(own) <= s.group.bits + own[t] <==> forall u :: 0 <= u < |own| && u != t ==> s.phase[u].Blocked?
  {
    AllBitsWithin(own, s.group.bits + own[t]);
    forall u | 0 <= u < |own| ensures own[u] <= s.group.bits + own[t] <==> u == t || s.phase[u].Blocked? {
      assert InRound(own, s, r, u);
      if u != t && !s.phase[u].Blocked? {
        Apart(own, u, t);
        Missing(own[u], s.group.bits, own[t]);
      }
    }
  }

  lemma {:induction false} LastArrives(own: seq<Word>, s: State, r: nat, t: nat)
    requires Inv(own, s, r) && Enabled(own, s, Enter(t)) && AllBits(own) <= s.group.bits + own[t]
    ensures var n := Next(own, s, Enter(t));
      && Inv(own, n.state, r + 1) && n.reply.Returns? && AllBits(own) <= n.reply.bits
      && (forall w :: w in n.state.group.waiting ==> w.who >= |own|) && n.state.group.bits * AllBits(own) == {}
      && (forall u :: 0 <= u < |own| ==>
           if u == t then n.state.phase[u].Free?
           else n.state.phase[u].Released? && Mask(n.state.phase[u].item) == n.reply.bits)
  {
    var now := s.group.bits + own[t];
    var s' := Next(own, s, Enter(t)).state;
    CompleteIff(own, s, r, t);
    SetBitsAtRendezvous(own, s, own[t]);
    AllBitsPlain(own);
    assert now * AllBits(own) == AllBits(own);
    EncodeRoundTrip({}, true, true, now);
    var r' := r + 1;
    forall u | 0 <= u < |own| ensures InRound(own, s', r', u) {
      assert InRound(own, s, r, u);
      assert own[u] <= AllBits(own);
    }
    forall w | w in s'.group.waiting ensures EntryOk(own, s'.phase, w) {
      assert EntryOk(own, s.phase, w);
    }
    assert !s'.phase[t].Blocked?;
  }

  lemma {:induction false} ArrivesEarly(own: seq<Word>, s: State, r: nat, t: nat)
    requires Inv(own, s, r) && Enabled(own, s, Enter(t)) && !(AllBits(own) <= s.group.bits + own[t])
    ensures var n := Next(own, s, Enter(t)); Inv(own, n.state, r) && n.reply.Blocks? && n.state.phase[t].Blocked?
  {
    var now := s.group.bits + own[t];
    var s' := Next(own, s, Enter(t)).state;
    var g := SetBits(s.group, own[t]);
    CompleteIff(own, s, r, t);
    NobodyReleased(own, s, r, own[t]);
    AllBitsPlain(own);
    assert now * AllBits(own) != AllBits(own);
    forall u | 0 <= u < |own| ensures InRound(own, s', r, u) {
      assert InRound(own, s, r, u);
      StillOnList(g.waiting, t, Encode(AllBits(own), true, true), u);
      MeetIsAll(own[u], g.bits);
      if u == t {
        assert own[u] * now == own[u];
      } else {
        Apart(own, u, t);
        MeetIsAll(own[u], s.group.bits);
        assert own[u] * now == own[u] * s.group.bits;
      }
    }
    forall w | w in s'.group.waiting ensures EntryOk(own, s'.phase, w) {
      assert w in g.waiting ==> EntryOk(own, s.phase, w);
    }
    var missing :| 0 <= missing < |own| && missing != t && !s.phase[missing].Blocked?;
    assert !s'.phase[missing].Blocked?;
  }

  lemma {:induction false} StillOnList(ws: seq<Waiter<nat>>, t: nat, value: Word, u: nat)
    ensures OnList(ws + [Waiter(t, value)], u) <==> OnList(ws, u) || u == t
  {
    var vs := ws + [Waiter(t, value)];
    assert vs[|ws|] in vs;
    if w :| w in ws && w.who == u {
      assert w in vs;
    }
  }

  // What the steps of other tasks leave alone.
  ghost predicate Undisturbed(own: seq<Word>, s: State, g: Group<nat>) {
    && g.bits * AllBits(own) == s.group.bits * AllBits(own) && Plain(g.bits)
    && (forall w :: w in g.waiting && w !in s.group.waiting ==> w.who >= |own| && Mask(w.value) * AllBits(own) == {})
    && (forall w :: w in s.group.waiting && w.who < |own| ==> w in g.waiting)
  }

  lemma {:induction false} UndisturbedKeeps(own: seq<Word>, s: State, r: nat, g: Group<nat>)
    requires Inv(own, s, r) && Undisturbed(own, s, g)
    ensures Inv(own, s.(group := g), r)
  {
    var s' := s.(group := g);
    AllBitsPlain(own);
    forall u | 0 <= u < |own| ensures InRound(own, s', r, u) {
      assert InRound(own, s, r, u);
      assert own[u] <= AllBits(own);
      SameWithin(own[u], AllBits(own), s.group.bits, g.bits);
      if w :| w in s.group.waiting && w.who == u {
        assert w in g.waiting;
      }
    }
    forall w | w in g.waiting ensures EntryOk(own, s.phase, w) {
      assert w in s.group.waiting ==> EntryOk(own, s.phase, w);
    }
  }

  lemma {:induction false} MeetIsAll(o: Word, x: Word)
    ensures o * x == o <==> o <= x
  {
    if o * x == o {
      forall b | b in o ensures b in x {
        assert b in o * x;
      }
    }
  }

  lemma {:induction false} SameWithin(o: Word, all: Word, x: Word, y: Word)
    requires o <= all && x * all == y * all
    ensures o <= x <==> o <= y
    ensures o * x == {} <==> o * y == {}
  {
    forall b | b in o ensures b in x <==> b in y {
      assert b in x <==> b in x * all;
      assert b in y <==> b in y * all;
    }
    assert o * x == o * y;
  }

  lemma {:induction false} OthersSetUndisturbed(own: seq<Word>, s: State, r: nat, b: Word)
    requires Inv(own, s, r) && Foreign(own, b)
    ensures var g := SetBits(s.group, b);
      Undisturbed(own, s, g) && AfterWalk(s.phase, g.waiting, s.group.bits + b) == s.phase
  {
    var g, now := SetBits(s.group, b), s.group.bits + b;
    var missing :| 0 <= missing < |own| && !s.phase[missing].Blocked?;
    assert InRound(own, s, r, missing);
    AllBitsPlain(own);
    assert own[missing] * b <= b * AllBits(own);
    Missing(own[missing], s.group.bits, b);
    assert own[missing] <= AllBits(own);
    SetBitsAtRendezvous(own, s, b);
    NobodyReleased(own, s, r, b);
    forall i ensures i in g.bits * AllBits(own) <==> i in s.group.bits * AllBits(own) {
      assert i in b && i in AllBits(own) ==> i in b * AllBits(own);
      assert i in now && i !in g.bits && i in AllBits(own) ==> i in (now - g.bits) * AllBits(own);
    }
  }

  lemma {:induction false} OthersKeep(own: seq<Word>, s: State, r: nat, step: Step)
    requires Inv(own, s, r) && Enabled(own, s, step) && IsOthers(step)
    ensures Inv(own, Next(own, s, step).state, r) && Next(own, s, step).state.phase == s.phase
    ensures var g := Next(own, s, step).state.group;
      match step
      case OthersSet(b) => g == SetBits(s.group, b)
      case OthersClear(b) => g == Group(s.group.bits - b, s.group.waiting)
      case OthersWait(who, m, clear, all, mayBlock) => g == WaitBits(s.group, who, m, clear, all, mayBlock).group
      case OthersSync(who, b, m, mayBlock) => g == Sync(s.group, who, b, m, mayBlock).group
      case OthersTimeOut(k) => g == Group(s.group.bits, RemoveAt(s.group.waiting, k))
      case _ => true
  {
    var g := Next(own, s, step).state.group;
    match step
    case OthersSet(b) =>
      OthersSetUndisturbed(own, s, r, b);
      UndisturbedKeeps(own, s, r, g);
    case OthersClear(b) => ClearUndisturbed(own, s, r, b);
    case OthersWait(who, m, clear, all, mayBlock) =>
      if WaitConditionMet(s.group.bits, m, all) {
        ClearUndisturbed(own, s, r, if clear then m else {});
        assert s.group.bits - {} == s.group.bits;
      } else if mayBlock {
        JoinUndisturbed(own, s, r, who, m, clear, all);
      }
    case OthersSync(who, b, m, mayBlock) =>
      var h := SetBits(s.group, b);
      OthersSetUndisturbed(own, s, r, b);
      UndisturbedKeeps(own, s, r, h);
      var s1 := s.(group := h);
      if WaitConditionMet(s.group.bits + b, m, true) {
        ClearUndisturbed(own, s1, r, m);
      } else if mayBlock {
        JoinUndisturbed(own, s1, r, who, m, true, true);
      }
    case OthersTimeOut(k) => TimeOutUndisturbed(own, s, r, k);
  }

  lemma {:induction false} ClearUndisturbed(own: seq<Word>, s: State, r: nat, b: Word)
    requires Inv(own, s, r) && Foreign(own, b)
    ensures Inv(own, s.(group := ClearBits(s.group, b)), r)
  {
    forall i ensures i in (s.group.bits - b) * AllBits(own) <==> i in s.group.bits * AllBits(own) {
      assert i in b && i in AllBits(own) ==> i in b * AllBits(own);
    }
    UndisturbedKeeps(own, s, r, ClearBits(s.group, b));
  }

  lemma {:induction false} JoinUndisturbed(own: seq<Word>, s: State, r: nat, who: nat, mask: Word, clear: bool,
                                         all: bool)
    requires Inv(own, s, r) && who >= |own| && Foreign(own, mask)
    ensures Inv(own, s.(group := Join(s.group, who, mask, clear, all)), r)
  {
    EncodeRoundTrip(mask, clear, all, {});
    UndisturbedKeeps(own, s, r, Join(s.group, who, mask, clear, all));
  }

  lemma {:induction false} TimeOutUndisturbed(own: seq<Word>, s: State, r: nat, k: nat)
    requires Inv(own, s, r) && k < |s.group.waiting| && s.group.waiting[k].who >= |own|
    ensures Inv(own, s.(group := s.group.(waiting := RemoveAt(s.group.waiting, k))), r)
  {
    var ws := s.group.waiting;
    var vs := RemoveAt(ws, k);
    forall w | w in ws && w.who < |own| ensures w in vs {
      var i :| 0 <= i < |ws| && ws[i] == w;
      assert vs[if i < k then i else i - 1] == w;
    }
    forall w | w in vs ensures w in ws {
      var i :| 0 <= i < |vs| && vs[i] == w;
      assert ws[if i < k then i else i + 1] == w;
    }
    UndisturbedKeeps(own, s, r, s.group.(waiting := vs));
  }

  lemma {:induction false} ResumeKeeps(own: seq<Word>, s: State, r: nat, t: nat)
    requires Inv(own, s, r) && Enabled(own, s, Resume(t))
    ensures Inv(own, Next(own, s, Resume(t)).state, r)
    ensures Next(own, s, Resume(t)).reply.Returns? && AllBits(own) <= Next(own, s, Resume(t)).reply.bits
  {
    var s' := Next(own, s, Resume(t)).state;
    assert InRound(own, s, r, t);
    forall u | 0 <= u < |own| ensures InRound(own, s', r, u) {
      assert InRound(own, s, r, u);
    }
    forall w | w in s.group.waiting ensures EntryOk(own, s'.phase, w) {
      assert EntryOk(own, s.phase, w);
    }
    assert !s'.phase[t].Blocked?;
  }

  // ---------------------------------------------------------------- runs

  ghost predicate Initial(own: seq<Word>, s: State) {
    && Disjoint(own) && own != [] && s.group == Group({}, [])
    && s.phase == seq(|own|, t => Free) && s.entered == s.left == seq(|own|, t => 0)
  }

  ghost predicate Legal(own: seq<Word>, s: State, steps: seq<Step>)
    decreases |steps|
  {
    steps == [] || (Enabled(own, s, steps[0]) && Legal(own, Next(own, s, steps[0]).state, steps[1..]))
  }

  ghost function End(own: seq<Word>, s: State, steps: seq<Step>): State
    requires Legal(own, s, steps)
    decreases |steps|
  {
    if steps == [] then s else End(own, Next(own, s, steps[0]).state, steps[1..])
  }

  // The invariant holds for the number of rendezvous that are complete.
  ghost predicate Consistent(own: seq<Word>, s: State) {
    exists r: nat :: Inv(own, s, r)
  }

  lemma {:induction false} StepKeeps(own: seq<Word>, s: State, r: nat, step: Step)
    requires Inv(own, s, r) && Enabled(own, s, step)
    ensures Consistent(own, Next(own, s, step).state)
  {
    match step
    case Enter(t) =>
      if AllBits(own) <= s.group.bits + own[t] {
        LastArrives(own, s, r, t);
      } else {
        ArrivesEarly(own, s, r, t);
      }
    case Resume(t) => ResumeKeeps(own, s, r, t);
    case _ => OthersKeep(own, s, r, step);
  }

  lemma {:induction false} RunKeepsInv(own: seq<Word>, s: State, steps: seq<Step>)
    requires Consistent(own, s) && Legal(own, s, steps)
    ensures Consistent(own, End(own, s, steps))
    decreases |steps|
  {
    if steps != [] {
      var r: nat :| Inv(own, s, r);
      StepKeeps(own, s, r, steps[0]);
      RunKeepsInv(own, Next(own, s, steps[0]).state, steps[1..]);
    }
  }

  lemma {:induction false} InitiallyConsistent(own: seq<Word>, s: State)
    requires Initial(own, s)
    ensures Consistent(own, s)
  {
    forall t | 0 <= t < |own| ensures InRound(own, s, 0, t) {
    }
    assert !s.phase[0].Blocked?;
    assert Inv(own, s, 0);
  }

  lemma {:induction false} Reachable(own: seq<Word>, s: State, steps: seq<Step>)
    requires Initial(own, s) && Legal(own, s, steps)
    ensures Consistent(own, End(own, s, steps))
  {
    InitiallyConsistent(own, s);
    RunKeepsInv(own, s, steps);
  }

  // How often task t calls xEventGroupSync in a run, and how often one of these calls returns.
  function Calls(steps: seq<Step>, t: nat): nat {
    if steps == [] then 0 else (if steps[0] == Enter(t) then 1 else 0) + Calls(steps[1..], t)
  }

  ghost function Returned(own: seq<Word>, s: State, steps: seq<Step>, t: nat): nat
    requires Legal(own, s, steps)
    decreases |steps|
  {
    if steps == [] then 0
    else
      var n := Next(own, s, steps[0]);
      (if (steps[0] == Enter(t) || steps[0] == Resume(t)) && n.reply.Returns? then 1 else 0)
      + Returned(own, n.state, steps[1..], t)
  }

  lemma {:induction false} CallsCounted(own: seq<Word>, s: State, steps: seq<Step>, t: nat)
    requires Consistent(own, s) && Legal(own, s, steps) && t < |own| == |s.entered| == |s.left|
    ensures var z := End(own, s, steps);
      && |z.entered| == |z.left| == |own|
      && z.entered[t] == s.entered[t] + Calls(steps, t) && z.left[t] == s.left[t] + Returned(own, s, steps, t)
    decreases |steps|
  {
    if steps != [] {
      var r: nat :| Inv(own, s, r);
      StepKeeps(own, s, r, steps[0]);
      CallsCounted(own, Next(own, s, steps[0]).state, steps[1..], t);
    }
  }

  // No task has returned from its k-th rendezvous before every task has entered its k-th.
  lemma {:induction false} NobodyLeavesEarly(own: seq<Word>, s: State, steps: seq<Step>, t: nat, u: nat)
    requires Initial(own, s) && Legal(own, s, steps) && t < |own| && u < |own|
    ensures var z := End(own, s, steps); |z.left| == |z.entered| == |own| && z.left[t] <= z.entered[u]
    ensures Returned(own, s, steps, t) <= Calls(steps, u)
  {
    Reachable(own, s, steps);
    var z := End(own, s, steps);
    var r: nat :| Inv(own, z, r);
    assert InRound(own, z, r, t) && InRound(own, z, r, u);
    InitiallyConsistent(own, s);
    CallsCounted(own, s, steps, t);
    CallsCounted(own, s, steps, u);
  }

  // What a released task returns is settled when it is released: the bits that completed the rendezvous.
  lemma {:induction false} ReturnsWhatReleasedIt(own: seq<Word>, s: State, step: Step, u: nat)
    requires Enabled(own, s, step) && u < |own| && s.phase[u].Released?
    ensures var n := Next(own, s, step);
      if step == Resume(u) then n.state.phase[u].Free? && n.reply == Returns(Mask(s.phase[u].item))
      else |n.state.phase| == |own| && n.state.phase[u] == s.phase[u]
  {
  }

  // A task that arrives goes on at once exactly when all the others are blocked in the rendezvous;
  // then they are all released, to return the same bits, and the rendezvous bits are clear for the next round.
  lemma {:induction false} LastArrivalReleasesAll(own: seq<Word>, s: State, steps: seq<Step>, t: nat)
    requires Initial(own, s) && Legal(own, s, steps) && Enabled(own, End(own, s, steps), Enter(t))
    ensures var z := End(own, s, steps);
      var n := Next(own, z, Enter(t));
      && (n.reply.Returns? <==> forall u :: 0 <= u < |own| && u != t ==> z.phase[u].Blocked?)
      && (n.reply.Returns? ==>
          && (forall w :: w in n.state.group.waiting ==> w.who >= |own|)
          && n.state.group.bits * AllBits(own) == {}
          && forall u :: 0 <= u < |own| && u != t ==>
               n.state.phase[u].Released? && Mask(n.state.phase[u].item) == n.reply.bits)
  {
    Reachable(own, s, steps);
    var z := End(own, s, steps);
    var r: nat :| Inv(own, z, r);
    CompleteIff(own, z, r, t);
    if AllBits(own) <= z.group.bits + own[t] {
      LastArrives(own, z, r, t);
    } else {
      ArrivesEarly(own, z, r, t);
    }
  }

  // Whichever way a call returns, its value holds the bits of all tasks.
  lemma {:induction false} ReturnsAllBits(own: seq<Word>, s: State, steps: seq<Step>, step: Step)
    requires Initial(own, s) && Legal(own, s, steps) && Enabled(own, End(own, s, steps), step) && !IsOthers(step)
    ensures var reply := Next(own, End(own, s, steps), step).reply; reply.Returns? ==> AllBits(own) <= reply.bits
  {
    Reachable(own, s, steps);
    var z := End(own, s, steps);
    var r: nat :| Inv(own, z, r);
    match step
    case Enter(t) =>
      if AllBits(own) <= z.group.bits + own[t] {
        LastArrives(own, z, r, t);
      } else {
        ArrivesEarly(own, z, r, t);
      }
    case Resume(t) => ResumeKeeps(own, z, r, t);
  }

  // The bit of a task is set exactly while it is blocked, so the bits a fast task sets for the
  // next round are all that is left of the last one.
  lemma {:induction false} BitsTellWhoIsBlocked(own: seq<Word>, s: State, steps: seq<Step>, t: nat)
    requires Initial(own, s) && Legal(own, s, steps) && t < |own|
    ensures var z := End(own, s, steps);
      |z.phase| == |own| && if z.phase[t].Blocked? then own[t] <= z.group.bits else own[t] * z.group.bits == {}
  {
    Reachable(own, s, steps);
    var z := End(own, s, steps);
    var r: nat :| Inv(own, z, r);
    assert InRound(own, z, r, t);
  }
}
