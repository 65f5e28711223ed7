/**
  Where the wake-ups of queue.c fall short: runs from the beginning, for queues of any length that
  allows it, that end with every task at rest and one blocked although it could go on.
 */
module QueueStranded {
  import opened RingList
  import opened QueueControl
  import opened QueueProtocol

  // ---------------------------------------------------------------- reaching states

  ghost predicate Reachable(s: State) {
    exists start, ls :: Initial(start) && Legal(start, ls) && End(start, ls) == s
  }

  lemma {:induction false} LegalOn(s: State, ls: seq<Label>, l: Label)
    requires Legal(s, ls) && Enabled(End(s, ls), l)
    ensures Legal(s, ls + [l]) && End(s, ls + [l]) == Next(End(s, ls), l)
    decreases |ls|
  {
    if ls == [] {
      assert [l][1..] == [] && Legal(Next(s, l), []);
    } else {
      LegalOn(Next(s, ls[0]), ls[1..], l);
      assert (ls + [l])[1..] == ls[1..] + [l];
    }
  }

  lemma {:induction false} ReachNext(s: State, l: Label)
    requires Reachable(s) && Enabled(s, l)
    ensures Reachable(Next(s, l))
  {
    var start, ls :| Initial(start) && Legal(start, ls) && End(start, ls) == s;
    LegalOn(start, ls, l);
    assert Legal(start, ls + [l]);
  }

  lemma {:induction false} ReachInitial(s: State)
    requires Initial(s)
    ensures Reachable(s)
  {
    assert Legal(s, []) && End(s, []) == s;
  }

  // Task t may run, its next step leads to z, and it does not time out.
  lemma {:induction false} ReachRun(s: State, t: Task, z: State)
    requires Reachable(s) && MayRun(s, t) && !s.pcs[t].Idle? && !s.pcs[t].Blocked? && RunStep(s, t, false) == z
    ensures Reachable(z)
  {
    ReachNext(s, Run(t, false));
  }

  // ---------------------------------------------------------------- a call that has to wait

  // The queue is unlocked and nobody is about to retry.
  predicate Quiet(s: State) {
    && |s.keys| == |s.pcs| && s.suspender == {} && s.wokenReceivers == [] && s.wokenSenders == []
    && s.ctl.txLock == UNLOCKED && s.ctl.rxLock == UNLOCKED
  }

  function Listing(c: Control, op: Op, w: Waiter): Control {
    if op.Sends() then c.(toSend := Place(c.toSend, w)) else c.(toReceive := Place(c.toReceive, w))
  }

  // Task t has put itself on the list and is about to unlock the queue.
  function AtUnlock(s: State, t: Task, op: Op): State
    requires t < |s.pcs| == |s.keys|
  {
    s.(pcs := s.pcs[t := UnlockT(op, Wait)], suspender := {t}, ctl := Listing(Lock(s.ctl), op, Waiter(t, s.keys[t])))
  }

  lemma {:induction false} GoesToSuspend(s: State, t: Task, op: Op)
    requires Reachable(s) && Quiet(s) && t < |s.pcs| && s.pcs[t].Idle? && MustWait(s.ctl, op) && !op.OverwriteOp?
    ensures Reachable(At(s, t, Suspend(op)))
  {
    ReachNext(s, Call(t, op, false));
    ReachRun(At(s, t, Retry(op, false)), t, At(s, t, Suspend(op)));
  }

  lemma {:induction false} GoesToTest(s: State, t: Task, op: Op)
    requires Reachable(s) && Quiet(s) && t < |s.pcs| && s.pcs[t].Idle? && MustWait(s.ctl, op) && !op.OverwriteOp?
    ensures Reachable(At(s, t, Test(op)).(suspender := {t}, ctl := Lock(s.ctl)))
  {
    GoesToSuspend(s, t, op);
    var s2 := At(s, t, LockQueue(op)).(suspender := {t});
    ReachRun(At(s, t, Suspend(op)), t, s2);
    var s3 := At(s, t, Expiry(op)).(suspender := {t}, ctl := Lock(s.ctl));
    ReachRun(s2, t, s3);
    ReachRun(s3, t, At(s, t, Test(op)).(suspender := {t}, ctl := Lock(s.ctl)));
  }

  lemma {:induction false} GoesToUnlock(s: State, t: Task, op: Op)
    requires Reachable(s) && Quiet(s) && t < |s.pcs| && s.pcs[t].Idle? && MustWait(s.ctl, op) && !op.OverwriteOp?
    ensures Reachable(AtUnlock(s, t, op))
  {
    GoesToTest(s, t, op);
    var s1 := At(s, t, Test(op)).(suspender := {t}, ctl := Lock(s.ctl));
    var s2 := At(s, t, PlaceOnList(op)).(suspender := {t}, ctl := Lock(s.ctl));
    ReachRun(s1, t, s2);
    ReachRun(s2, t, AtUnlock(s, t, op));
  }

  // From there to sleep, when neither half of the unlock wakes anybody.
  lemma {:induction false} FallsAsleep(s: State, t: Task, op: Op)
    requires Reachable(s) && t < |s.pcs| == |s.keys| && s.pcs[t] == UnlockT(op, Wait) && s.suspender == {t}
    requires s.ctl.txLock <= 0 && s.ctl.rxLock <= 0
    ensures Reachable(At(s, t, Blocked(op)).(suspender := {}, ctl := s.ctl.(txLock := UNLOCKED, rxLock := UNLOCKED)))
  {
    assert s.wokenReceivers + [] == s.wokenReceivers && s.wokenSenders + [] == s.wokenSenders;
    var s1 := At(s, t, UnlockR(op, Wait)).(ctl := s.ctl.(txLock := UNLOCKED));
    ReachRun(s, t, s1);
    var s2 := At(s, t, Resume(op, Wait)).(ctl := s.ctl.(txLock := UNLOCKED, rxLock := UNLOCKED));
    ReachRun(s1, t, s2);
    ReachRun(s2, t, At(s, t, Blocked(op)).(suspender := {}, ctl := s2.ctl));
  }

  // Together: the call of a task that has to wait, when nothing happens meanwhile.
  lemma {:induction false} Blocks(s: State, t: Task, op: Op)
    requires Reachable(s) && Quiet(s) && t < |s.pcs| && s.pcs[t].Idle? && MustWait(s.ctl, op) && !op.OverwriteOp?
    ensures Reachable(At(s, t, Blocked(op)).(ctl := Listing(s.ctl, op, Waiter(t, s.keys[t]))))
  {
    GoesToUnlock(s, t, op);
    FallsAsleep(AtUnlock(s, t, op), t, op);
    assert At(AtUnlock(s, t, op), t, Blocked(op)).pcs == At(s, t, Blocked(op)).pcs;
  }

  // ---------------------------------------------------------------- too many posts or receives

  // The int8_t after n increments from 0, n <= 128.
  function Counted(n: nat): int {
    if n <= LOCK_MAX then n else -128
  }

  lemma {:induction false} PostsCounted(s: State, n: nat)
    requires Reachable(s) && s.ctl.txLock == 0 && n <= 128 && s.ctl.count + n <= s.ctl.length
    ensures Reachable(s.(ctl := s.ctl.(count := s.ctl.count + n, txLock := Counted(n))))
    decreases n
  {
    if n > 0 {
      PostsCounted(s, n - 1);
      var s1 := s.(ctl := s.ctl.(count := s.ctl.count + n - 1, txLock := Counted(n - 1)));
      ReachNext(s1, IsrSend(false));
      assert s.wokenReceivers + [] == s.wokenReceivers;
    }
  }

  lemma {:induction false} ReceivesCounted(s: State, n: nat)
    requires Reachable(s) && s.ctl.rxLock == 0 && n <= 128 && n <= s.ctl.count
    ensures Reachable(s.(ctl := s.ctl.(count := s.ctl.count - n, rxLock := Counted(n))))
    decreases n
  {
    if n > 0 {
      ReceivesCounted(s, n - 1);
      var s1 := s.(ctl := s.ctl.(count := s.ctl.count - (n - 1), rxLock := Counted(n - 1)));
      ReachNext(s1, IsrReceive);
      assert s.wokenSenders + [] == s.wokenSenders;
    }
  }

  // Task t sleeps on one list, alone, and all others are outside.
  lemma {:induction false} OneAsleepRests(s: State, t: Task, op: Op)
    requires t < |s.pcs| && s.pcs[t] == Blocked(op) && forall u :: 0 <= u < |s.pcs| && u != t ==> s.pcs[u].Idle?
    requires Listed(s.ctl.toReceive, t) || Listed(s.ctl.toSend, t)
    ensures AtRest(s)
  {
  }

  lemma {:induction false} PlaceAlone(w: Waiter)
    ensures Place([], w) == [w] && Listed([w], w.task)
  {
    assert [w][0].task == w.task;
  }

  // While a receiver is on its way to sleep, 128 posts from ISRs make the count negative: the
  // unlock wakes nobody, and the receiver sleeps beside 128 messages.
  lemma {:induction false} PostsStrandReceiver(start: State)
    requires Initial(start) && start.pcs != [] && start.ctl.count == 0 && start.ctl.length >= 128
    ensures exists z ::
      && Reachable(z) && z.ctl.length == start.ctl.length && AtRest(z)
      && z.ctl.toReceive != [] && z.ctl.count == 128
  {
    ReachInitial(start);
    GoesToUnlock(start, 0, ReceiveOp);
    var s := AtUnlock(start, 0, ReceiveOp);
    PostsCounted(s, 128);
    var s1 := s.(ctl := s.ctl.(count := 128, txLock := -128));
    FallsAsleep(s1, 0, ReceiveOp);
    var z := At(s1, 0, Blocked(ReceiveOp)).(suspender := {}, ctl := s1.ctl.(txLock := UNLOCKED, rxLock := UNLOCKED));
    PlaceAlone(Waiter(0, start.keys[0]));
    OneAsleepRests(z, 0, ReceiveOp);
  }

  // While a sender is on its way to sleep, 128 receives from ISRs do the same: it sleeps beside 128
  // free slots.
  lemma {:induction false} ReceivesStrandSender(start: State)
    requires Initial(start) && start.pcs != [] && start.ctl.count == start.ctl.length >= 128
    ensures exists z ::
      && Reachable(z) && z.ctl.length == start.ctl.length && AtRest(z)
      && z.ctl.toSend != [] && z.ctl.count == z.ctl.length - 128
  {
    ReachInitial(start);
    GoesToUnlock(start, 0, SendOp);
    var s := AtUnlock(start, 0, SendOp);
    ReceivesCounted(s, 128);
    var s1 := s.(ctl := s.ctl.(count := s.ctl.count - 128, rxLock := -128));
    FallsAsleep(s1, 0, SendOp);
    var z := At(s1, 0, Blocked(SendOp)).(suspender := {}, ctl := s1.ctl.(txLock := UNLOCKED, rxLock := UNLOCKED));
    PlaceAlone(Waiter(0, start.keys[0]));
    OneAsleepRests(z, 0, SendOp);
  }

  // ---------------------------------------------------------------- a reset with two senders waiting

  lemma {:induction false} PlaceSecond(v: Waiter, w: Waiter)
    requires v.key == w.key
    ensures Place([v], w) == [v, w]
  {
    assert Keys([v]) == [v.key];
    assert InsertPosition([v.key], w.key) == 1;
  }

  // Two senders of the same priority sleep on a full queue.
  function TwoAsleep(start: State): State
    requires |start.pcs| == |start.keys| > 2
  {
    start.(pcs := start.pcs[0 := Blocked(SendOp)][1 := Blocked(SendOp)],
           ctl := start.ctl.(toSend := [Waiter(0, start.keys[0]), Waiter(1, start.keys[1])]))
  }

  lemma {:induction false} TwoBlock(start: State)
    requires Initial(start) && |start.pcs| > 2 && start.keys[0] == start.keys[1] && start.ctl.count == start.ctl.length
    ensures Reachable(TwoAsleep(start))
  {
    ReachInitial(start);
    Blocks(start, 0, SendOp);
    var v, w := Waiter(0, start.keys[0]), Waiter(1, start.keys[1]);
    PlaceAlone(v);
    var s := At(start, 0, Blocked(SendOp)).(ctl := start.ctl.(toSend := [v]));
    Blocks(s, 1, SendOp);
    PlaceSecond(v, w);
    assert At(s, 1, Blocked(SendOp)).(ctl := s.ctl.(toSend := [v, w])) == TwoAsleep(start);
  }

  // After a reset with two senders v and w waiting v is ready, and its next step is to retry.
  lemma {:induction false} ResetWakesFirst(s: State, v: Waiter, w: Waiter)
    requires Reachable(s) && Enabled(s, ResetQueue(2)) && s.ctl.toSend == [v, w] && s.wokenSenders == []
    requires MayRun(s, v.task) && s.pcs[v.task] == Blocked(SendOp) && w.task != v.task && s.ctl.toReceive == []
    requires s.ctl.txLock == s.ctl.rxLock == UNLOCKED
    ensures Reachable(At(s, v.task, Retry(SendOp, false)).(
                        ctl := s.ctl.(count := 0, toSend := [w]), wokenSenders := [v]))
  {
    ReachNext(s, ResetQueue(2));
    var s1 := s.(ctl := s.ctl.(count := 0, toSend := [w]), wokenSenders := [v]);
    assert Next(s, ResetQueue(2)) == s1;
    ReachNext(s1, Run(v.task, false));
  }

  // Then it sends and is done.
  lemma {:induction false} FirstSends(s: State, v: Waiter)
    requires Reachable(s) && MayRun(s, v.task) && s.pcs[v.task] == Retry(SendOp, false)
    requires s.ctl.count == 0 < s.ctl.length && s.wokenSenders == [v] && s.wokenReceivers == [] && s.ctl.toReceive == []
    ensures Reachable(At(s, v.task, Idle).(ctl := s.ctl.(count := 1), wokenSenders := []))
  {
    assert Forget([v], v.task) == [];
    assert [] + [] == s.wokenReceivers;
    ReachRun(s, v.task, At(s, v.task, Idle).(ctl := s.ctl.(count := 1), wokenSenders := []));
  }

  // The second sleeps on although the queue has free slots.
  lemma {:induction false} ResetStrandsSender(start: State)
    requires Initial(start) && |start.pcs| > 2 && start.keys[0] == start.keys[1]
    requires start.ctl.count == start.ctl.length > 1
    ensures exists z ::
      && Reachable(z) && z.ctl.length == start.ctl.length && AtRest(z)
      && z.ctl.toSend != [] && z.ctl.count == 1
  {
    TwoBlock(start);
    var v, w := Waiter(0, start.keys[0]), Waiter(1, start.keys[1]);
    var s := TwoAsleep(start);
    ResetWakesFirst(s, v, w);
    var s1 := At(s, 0, Retry(SendOp, false)).(ctl := s.ctl.(count := 0, toSend := [w]), wokenSenders := [v]);
    FirstSends(s1, v);
    var z := At(s1, 0, Idle).(ctl := s1.ctl.(count := 1), wokenSenders := []);
    PlaceAlone(w);
    OneAsleepRests(z, 1, SendOp);
  }
}
