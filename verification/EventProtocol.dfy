/**
  Runs of an event group (FreeRTOS/FreeRTOS/event_groups.c): any interleaving of the calls of any
  number of tasks. Each step is one atomic section: the scheduler suspended or a critical section.
 */
module EventProtocol {
  import opened RingList
  import opened EventBits

  type Task = nat

  // Where a task is: outside the API, about to return from xEventGroupSetBits, on the wait list, or off
  // it again and on its way to the second half of its call with `item` in its event list item.
  datatype Phase =
    | Outside
    | Setting
    | Waiting(mask: Word, clear: bool, all: bool)
    | Woken(mask: Word, clear: bool, all: bool, item: Word)

  datatype State = State(group: Group<Task>, tasks: map<Task, Phase>)

  datatype Step =
    | DoSet(t: Task, bits: Word)
    | ReturnFromSet(t: Task) // the scheduler resumed, the call reads the bits it returns
    | DoClear(t: Task, bits: Word)
    | DoWait(t: Task, mask: Word, clear: bool, all: bool, mayBlock: bool)
    | DoSync(t: Task, bits: Word, mask: Word, mayBlock: bool)
    | TimeOut(k: nat) // the block time of entry k of the wait list runs out
    | Resume(t: Task) // a task that was released or timed out runs again

  // The state after a step and what its call returned, if it ended.
  datatype Result = Result(state: State, reply: Reply)

  predicate IsOutside(s: State, t: Task) {
    t in s.tasks && s.tasks[t].Outside?
  }

  // What the source demands of its callers.
  predicate Enabled(s: State, step: Step) {
    match step
    case DoSet(t, b) => IsOutside(s, t) && Plain(b)
    case ReturnFromSet(t) => t in s.tasks && s.tasks[t].Setting?
    case DoClear(t, b) => IsOutside(s, t) && Plain(b)
    case DoWait(t, m, _, _, _) => IsOutside(s, t) && Plain(m) && m != {}
    case DoSync(t, b, m, _) => IsOutside(s, t) && Plain(b) && Plain(m) && m != {}
    case TimeOut(k) =>
      k < |s.group.waiting| && s.group.waiting[k].who in s.tasks && s.tasks[s.group.waiting[k].who].Waiting?
    case Resume(t) => t in s.tasks && s.tasks[t].Woken?
  }

  ghost predicate Hit(ws: seq<Waiter<Task>>, bits: Word, t: Task) {
    exists w :: w in ws && w.who == t && Matches(w.value, bits)
  }

  ghost function WokenBy(ws: seq<Waiter<Task>>, bits: Word, t: Task, p: Phase): Phase {
    if p.Waiting? && Hit(ws, bits, t) then Woken(p.mask, p.clear, p.all, ReleaseValue(bits)) else p
  }

  // The tasks after a walk of xEventGroupSetBits.
  ghost function Release(tasks: map<Task, Phase>, ws: seq<Waiter<Task>>, bits: Word): map<Task, Phase> {
    map t | t in tasks :: WokenBy(ws, bits, t, tasks[t])
  }

  ghost function Next(s: State, step: Step): Result
    requires Enabled(s, step)
  {
    var g := s.group;
    match step
    case DoSet(t, b) =>
      Result(State(SetBits(g, b), Release(s.tasks, g.waiting, g.bits + b)[t := Setting]), Blocks)
    case ReturnFromSet(t) =>
      Result(s.(tasks := s.tasks[t := Outside]), Returns(g.bits))
    case DoClear(t, b) =>
      Result(s.(group := ClearBits(g, b)), Returns(g.bits))
    case DoWait(t, m, clear, all, mayBlock) =>
      var o := WaitBits(g, t, m, clear, all, mayBlock);
      Result(State(o.group, if o.reply.Blocks? then s.tasks[t := Waiting(m, clear, all)] else s.tasks), o.reply)
    case DoSync(t, b, m, mayBlock) =>
      var o := Sync(g, t, b, m, mayBlock);
      var tasks := Release(s.tasks, g.waiting, g.bits + b);
      Result(State(o.group, if o.reply.Blocks? then tasks[t := Waiting(m, true, true)] else tasks), o.reply)
    case TimeOut(k) =>
      var w := g.waiting[k];
      var p := s.tasks[w.who];
      Result(State(g.(waiting := RemoveAt(g.waiting, k)),
                   s.tasks[w.who := Woken(p.mask, p.clear, p.all, w.value)]), Blocks)
    case Resume(t) =>
      var p := s.tasks[t];
      var tasks := s.tasks[t := Outside];
      if UNBLOCKED_DUE_TO_BIT_SET in p.item then Result(State(g, tasks), Returns(Mask(p.item)))
      else Result(State(AfterTimeOut(g, p.mask, p.clear, p.all), tasks), Returns(Mask(g.bits)))
  }

  // ---------------------------------------------------------------- the invariant

  // No task on the wait list has its condition met.
  ghost predicate Settled(g: Group<Task>) {
    forall w :: w in g.waiting ==> !Matches(w.value, g.bits)
  }

  ghost predicate Once(ws: seq<Waiter<Task>>) {
    forall i, j :: 0 <= i < j < |ws| ==> ws[i].who != ws[j].who
  }

  ghost predicate EntryFits(w: Waiter<Task>, tasks: map<Task, Phase>) {
    w.who in tasks && var p := tasks[w.who]; p.Waiting? && Plain(p.mask) && w.value == Encode(p.mask, p.clear, p.all)
  }

  ghost predicate WokenFits(p: Phase) {
    p.Woken? ==>
      if UNBLOCKED_DUE_TO_BIT_SET in p.item then Plain(Mask(p.item)) && WaitConditionMet(Mask(p.item), p.mask, p.all)
      else p.item == Encode(p.mask, p.clear, p.all)
  }

  predicate OnList(ws: seq<Waiter<Task>>, t: Task) {
    exists w :: w in ws && w.who == t
  }

  // The list holds each waiting task once, and no other.
  ghost predicate Listed(s: State) {
    && Once(s.group.waiting)
    && (forall w :: w in s.group.waiting ==> EntryFits(w, s.tasks))
    && (forall t :: t in s.tasks && s.tasks[t].Waiting? ==> OnList(s.group.waiting, t))
  }

  ghost predicate Inv(s: State) {
    && Plain(s.group.bits) && Settled(s.group) && Listed(s)
    && (forall t :: t in s.tasks ==> WokenFits(s.tasks[t]))
  }

  lemma {:induction false} PickOnce(ws: seq<Waiter<Task>>, flags: seq<bool>, n: nat)
    requires n <= |ws| == |flags| && Once(ws)
    ensures Once(Pick(ws, flags, false, n))
  {
    if n > 0 {
      PickOnce(ws, flags, n - 1);
      var p := Pick(ws, flags, false, n - 1);
      forall i | 0 <= i < |p| ensures p[i].who != ws[n - 1].who {
        PickExactly(ws, flags, false, n - 1, p[i]);
        assert p[i] in p;
      }
    }
  }

  // Setting bits leaves nobody on the list whose condition is met, even after the matched bits
  // are cleared again.
  lemma {:induction false} SetBitsSettles(g: Group<Task>, bits: Word)
    ensures Settled(SetBits(g, bits))
  {
    var now := g.bits + bits;
    KeptExactly(g.waiting, now);
    forall w | w in Kept(g.waiting, now) ensures !Matches(w.value, SetBits(g, bits).bits) {
      FewerBits(w.value, now, BitsToClear(g.waiting, now));
    }
  }

  lemma {:induction false} ClearBitsSettled(g: Group<Task>, bits: Word)
    requires Settled(g)
    ensures Settled(ClearBits(g, bits))
  {
    forall w | w in g.waiting ensures !Matches(w.value, g.bits - bits) {
      FewerBits(w.value, g.bits, bits);
    }
  }

  lemma {:induction false} JoinSettled(g: Group<Task>, t: Task, mask: Word, clear: bool, all: bool)
    requires Settled(g) && Plain(mask) && !WaitConditionMet(g.bits, mask, all)
    ensures Settled(Join(g, t, mask, clear, all))
  {
    EncodeRoundTrip(mask, clear, all, {});
  }

  // The walk and the tasks it releases keep the lists and the phases together.
  lemma {:induction false} ReleaseKeeps(s: State, bits: Word)
    requires Inv(s) && Plain(bits)
    ensures Inv(State(SetBits(s.group, bits), Release(s.tasks, s.group.waiting, s.group.bits + bits)))
  {
    var ws, now := s.group.waiting, s.group.bits + bits;
    var tasks := Release(s.tasks, ws, now);
    SetBitsSettles(s.group, bits);
    KeptExactly(ws, now);
    PickOnce(ws, Hits(ws, now), |ws|);
    forall w | w in Kept(ws, now) ensures EntryFits(w, tasks) {
      assert EntryFits(w, s.tasks);
      forall v | v in ws && v.who == w.who ensures v.value == w.value {
        assert EntryFits(v, s.tasks);
      }
    }
    forall t | t in tasks ensures WokenFits(tasks[t]) {
      WokenByFits(s, now, t);
    }
  }

  // A task that is not on the list moves on.
  lemma {:induction false} MoveKeeps(s: State, t: Task, p: Phase)
    requires Inv(s) && t in s.tasks && !s.tasks[t].Waiting? && (p.Outside? || p.Setting?)
    ensures Inv(s.(tasks := s.tasks[t := p]))
  {
    forall w | w in s.group.waiting ensures EntryFits(w, s.tasks[t := p]) {
      assert EntryFits(w, s.tasks);
    }
  }

  lemma {:induction false} WokenByFits(s: State, now: Word, t: Task)
    requires Listed(s) && t in s.tasks && WokenFits(s.tasks[t]) && Plain(now)
    ensures WokenFits(WokenBy(s.group.waiting, now, t, s.tasks[t]))
  {
    var p := s.tasks[t];
    if p.Waiting? && Hit(s.group.waiting, now, t) {
      var v :| v in s.group.waiting && v.who == t && Matches(v.value, now);
      assert EntryFits(v, s.tasks);
      EncodeRoundTrip(p.mask, p.clear, p.all, now);
    }
  }

  lemma {:induction false} JoinKeeps(s: State, t: Task, mask: Word, clear: bool, all: bool)
    requires Inv(s) && IsOutside(s, t) && Plain(mask) && !WaitConditionMet(s.group.bits, mask, all)
    ensures Inv(State(Join(s.group, t, mask, clear, all), s.tasks[t := Waiting(mask, clear, all)]))
  {
    JoinSettled(s.group, t, mask, clear, all);
    var tasks := s.tasks[t := Waiting(mask, clear, all)];
    forall w | w in s.group.waiting ensures w.who != t && EntryFits(w, tasks) {
      assert EntryFits(w, s.tasks);
    }
  }

  // Of the entries of the list just entry k leaves.
  lemma {:induction false} OneLeaves(ws: seq<Waiter<Task>>, k: nat)
    requires k < |ws| && Once(ws)
    ensures var vs := RemoveAt(ws, k); Once(vs) && forall w :: w in vs <==> w in ws && w.who != ws[k].who
  {
    var vs := RemoveAt(ws, k);
    forall w | w in ws && w.who != ws[k].who ensures w in vs {
      var i :| 0 <= i < |ws| && ws[i] == w;
      assert vs[if i < k then i else i - 1] == w;
    }
    forall w | w in vs ensures w in ws && w.who != ws[k].who {
      var i :| 0 <= i < |vs| && vs[i] == w;
      assert ws[if i < k then i else i + 1] == w;
    }
  }

  lemma {:induction false} TimeOutKeeps(s: State, k: nat)
    requires Inv(s) && Enabled(s, TimeOut(k))
    ensures Inv(Next(s, TimeOut(k)).state)
  {
    var w := s.group.waiting[k];
    var s' := Next(s, TimeOut(k)).state;
    OneLeaves(s.group.waiting, k);
    assert EntryFits(w, s.tasks);
    EncodeRoundTrip(s.tasks[w.who].mask, s.tasks[w.who].clear, s.tasks[w.who].all, {});
    forall v | v in s'.group.waiting ensures EntryFits(v, s'.tasks) {
      assert EntryFits(v, s.tasks);
    }
  }

  lemma {:induction false} ResumeKeeps(s: State, t: Task)
    requires Inv(s) && Enabled(s, Resume(t))
    ensures Inv(Next(s, Resume(t)).state)
  {
    var p := s.tasks[t];
    ClearBitsSettled(s.group, p.mask);
    forall w | w in s.group.waiting ensures EntryFits(w, s.tasks[t := Outside]) {
      assert EntryFits(w, s.tasks);
    }
  }

  lemma {:induction false} WaitKeeps(s: State, step: Step)
    requires Inv(s) && step.DoWait? && Enabled(s, step)
    ensures Inv(Next(s, step).state)
  {
    ClearBitsSettled(s.group, step.mask);
    if !WaitConditionMet(s.group.bits, step.mask, step.all) {
      JoinKeeps(s, step.t, step.mask, step.clear, step.all);
    }
  }

  lemma {:induction false} SyncKeeps(s: State, step: Step)
    requires Inv(s) && step.DoSync? && Enabled(s, step)
    ensures Inv(Next(s, step).state)
  {
    var h := State(SetBits(s.group, step.bits), Release(s.tasks, s.group.waiting, s.group.bits + step.bits));
    ReleaseKeeps(s, step.bits);
    ClearBitsSettled(h.group, step.mask);
    if !WaitConditionMet(s.group.bits + step.bits, step.mask, true) {
      assert h.group.bits * step.mask <= (s.group.bits + step.bits) * step.mask;
      JoinKeeps(h, step.t, step.mask, true, true);
    }
  }

  lemma {:induction false} StepKeeps(s: State, step: Step)
    requires Inv(s) && Enabled(s, step)
    ensures Inv(Next(s, step).state)
  {
    match step
    case DoSet(t, b) =>
      ReleaseKeeps(s, b);
      MoveKeeps(State(SetBits(s.group, b), Release(s.tasks, s.group.waiting, s.group.bits + b)), t, Setting);
    case ReturnFromSet(t) => MoveKeeps(s, t, Outside);
    case DoClear(t, b) => ClearBitsSettled(s.group, b);
    case DoWait(t, m, c, a, mb) => WaitKeeps(s, step);
    case DoSync(t, b, m, mb) => SyncKeeps(s, step);
    case TimeOut(k) => TimeOutKeeps(s, k);
    case Resume(t) => ResumeKeeps(s, t);
  }

  // ---------------------------------------------------------------- runs

  ghost predicate Initial(s: State) {
    s.group == Group({}, []) && forall t :: t in s.tasks ==> s.tasks[t].Outside?
  }

  ghost predicate Legal(s: State, steps: seq<Step>)
    decreases |steps|
  {
    steps == [] || (Enabled(s, steps[0]) && Legal(Next(s, steps[0]).state, steps[1..]))
  }

  ghost function End(s: State, steps: seq<Step>): State
    requires Legal(s, steps)
    decreases |steps|
  {
    if steps == [] then s else End(Next(s, steps[0]).state, steps[1..])
  }

  lemma {:induction false} RunKeepsInv(s: State, steps: seq<Step>)
    requires Inv(s) && Legal(s, steps)
    ensures Inv(End(s, steps))
    decreases |steps|
  {
    if steps != [] {
      StepKeeps(s, steps[0]);
      RunKeepsInv(Next(s, steps[0]).state, steps[1..]);
    }
  }

  // In every reachable state nobody is left waiting for bits that are set, and the event bits
  // hold no control bits.
  lemma {:induction false} NobodyOverlooked(s: State, steps: seq<Step>)
    requires Initial(s) && Legal(s, steps)
    ensures Settled(End(s, steps).group) && Plain(End(s, steps).group.bits)
  {
    RunKeepsInv(s, steps);
  }

  // Nor does any blocked task sleep through its own condition.
  lemma {:induction false} NobodySleepsOn(s: State, steps: seq<Step>, t: Task)
    requires Initial(s) && Legal(s, steps) && t in End(s, steps).tasks && End(s, steps).tasks[t].Waiting?
    ensures var z := End(s, steps); !WaitConditionMet(z.group.bits, z.tasks[t].mask, z.tasks[t].all)
  {
    RunKeepsInv(s, steps);
    var _ := EntryOf(End(s, steps), t);
  }

  // The entry of a blocked task.
  lemma {:induction false} EntryOf(s: State, t: Task) returns (w: Waiter<Task>)
    requires Inv(s) && t in s.tasks && s.tasks[t].Waiting?
    ensures w in s.group.waiting && w.who == t && !Matches(w.value, s.group.bits)
    ensures var p := s.tasks[t];
      && Mask(w.value) == p.mask && (CLEAR_EVENTS_ON_EXIT_BIT in w.value <==> p.clear)
      && (WAIT_FOR_ALL_BITS in w.value <==> p.all)
  {
    var p := s.tasks[t];
    w :| w in s.group.waiting && w.who == t;
    assert EntryFits(w, s.tasks);
    EncodeRoundTrip(p.mask, p.clear, p.all, {});
  }

  // A blocked task whose condition the bits meet and which asked for its bits, x among them, to be cleared.
  predicate Claims(p: Phase, bits: Word, x: nat) {
    p.Waiting? && p.clear && x in p.mask && WaitConditionMet(bits, p.mask, p.all)
  }

  lemma {:induction false} ClaimedOrLeft(s: State, bits: Word, x: nat)
    requires Inv(s)
    ensures x in SetBits(s.group, bits).bits <==>
            x in s.group.bits + bits && !exists u :: u in s.tasks && Claims(s.tasks[u], s.group.bits + bits, x)
  {
    var ws, now := s.group.waiting, s.group.bits + bits;
    ClearedExactly(ws, now, x);
    if w :| w in ws && x in Share(w.value, now) {
      var p := s.tasks[w.who];
      assert EntryFits(w, s.tasks);
      EncodeRoundTrip(p.mask, p.clear, p.all, {});
      assert Claims(p, now, x);
    }
    if u :| u in s.tasks && Claims(s.tasks[u], now, x) {
      var w := EntryOf(s, u);
      assert x in Share(w.value, now);
    }
  }

  // xEventGroupSetBits that is not interrupted before it returns: a bit is in its result exactly if it
  // was set before or by the call, and no task that the call released had asked for it to be cleared.
  lemma {:induction false} SetReturnsUnclaimedBits(s: State, steps: seq<Step>, t: Task, b: Word, x: nat)
    requires Initial(s) && Legal(s, steps) && Enabled(End(s, steps), DoSet(t, b))
    ensures var z := End(s, steps);
      var n := Next(z, DoSet(t, b)).state;
      && Enabled(n, ReturnFromSet(t)) && Next(n, ReturnFromSet(t)).reply.Returns?
      && (x in Next(n, ReturnFromSet(t)).reply.bits <==>
          x in z.group.bits + b && !exists u :: u in z.tasks && Claims(z.tasks[u], z.group.bits + b, x))
  {
    RunKeepsInv(s, steps);
    ClaimedOrLeft(End(s, steps), b, x);
  }

  // If other tasks run before it returns, it returns the bits as they are when it reads them: without
  // control bits, and with nobody left waiting for them.
  lemma {:induction false} SetReturnsCurrentBits(s: State, steps: seq<Step>, t: Task)
    requires Initial(s) && Legal(s, steps) && Enabled(End(s, steps), ReturnFromSet(t))
    ensures var z, r := End(s, steps), Next(End(s, steps), ReturnFromSet(t)).reply;
      r == Returns(z.group.bits) && Plain(r.bits) && forall w :: w in z.group.waiting ==> !Matches(w.value, r.bits)
  {
    RunKeepsInv(s, steps);
  }

  // A task that was released by a change of the bits returns bits that meet its own condition,
  // without control bits, whatever happened between the release and its running again.
  lemma {:induction false} ReleasedReturnsItsBits(s: State, steps: seq<Step>, t: Task)
    requires Initial(s) && Legal(s, steps) && Enabled(End(s, steps), Resume(t))
    requires UNBLOCKED_DUE_TO_BIT_SET in End(s, steps).tasks[t].item
    ensures var p, r := End(s, steps).tasks[t], Next(End(s, steps), Resume(t)).reply;
      r.Returns? && Plain(r.bits) && WaitConditionMet(r.bits, p.mask, p.all)
  {
    RunKeepsInv(s, steps);
    assert WokenFits(End(s, steps).tasks[t]);
  }
}
