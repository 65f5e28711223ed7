/**
  Whole runs of QueueProtocol seen from the callers: no event makes more tasks ready than it stands for, and
  a call fails only when its time is up and the queue has nothing for it.
 */
module QueueCalls {
  import opened RingList
  import opened QueueControl
  import opened QueueProtocol
  import opened ServingOrder

  // ---------------------------------------------------------------- no wake-up for nothing

  // How many tasks a step takes off one of the lists for an event.
  ghost function Readied(s: State, l: Label, send: bool): nat
    requires Enabled(s, l)
  {
    var before, after := |WaitingOn(s.ctl, send)|, |WaitingOn(Next(s, l).ctl, send)|;
    if (if send then l.TimeoutSender? else l.TimeoutReceiver?) || before < after then 0 else before - after
  }

  // What a step gives the tasks of one side: a message posted, or looked at and left, for the receivers; a
  // message taken, or a reset, for the senders.
  ghost function Given(s: State, l: Label, send: bool): nat
    requires Enabled(s, l)
  {
    match l
    case IsrSend(_) => if send then 0 else 1
    case IsrReceive => if send then 1 else 0
    case ResetQueue(_) => if send then 1 else 0
    case Run(t, _) =>
      if s.pcs[t].Retry? && CanGo(s.ctl, s.pcs[t].op) && s.pcs[t].op.ReceiveOp? == send then 1 else 0
    case _ => 0
  }

  // A step makes no more tasks ready than it gives something to, or than its lock has counted.
  lemma {:induction false} StepReadies(s: State, l: Label, send: bool)
    requires Enabled(s, l)
    ensures Readied(s, l, send) + Pending(LockOf(Next(s, l).ctl, send))
         <= Pending(LockOf(s.ctl, send)) + Given(s, l, send)
  {
    if l.Run? {
      RunReadies(s, l.task, l.expired, send);
    }
  }

  lemma {:induction false} RunReadies(s: State, t: Task, expired: bool, send: bool)
    requires Enabled(s, Run(t, expired))
    ensures Readied(s, Run(t, expired), send) + Pending(LockOf(RunStep(s, t, expired).ctl, send))
         <= Pending(LockOf(s.ctl, send)) + Given(s, Run(t, expired), send)
  {
    if s.pcs[t].PlaceOnList? {
      PlaceGrows(s.ctl.toSend, Waiter(t, s.keys[t]));
      PlaceGrows(s.ctl.toReceive, Waiter(t, s.keys[t]));
    } else if s.pcs[t].Retry? {
      RetryReadies(s, t, send);
    }
  }

  lemma {:induction false} RetryReadies(s: State, t: Task, send: bool)
    requires MayRun(s, t) && s.pcs[t].Retry?
    ensures var c, c' := s.ctl, RetryStep(s, t).ctl;
      && LockOf(c', send) == LockOf(c, send)
      && |WaitingOn(c, send)| <= |WaitingOn(c', send)|
           + if CanGo(c, s.pcs[t].op) && s.pcs[t].op.ReceiveOp? == send then 1 else 0
  {
  }

  lemma {:induction false} PlaceGrows(ws: seq<Waiter>, w: Waiter)
    ensures |Place(ws, w)| == |ws| + 1
  {
  }

  ghost function AllReadied(s: State, ls: seq<Label>, send: bool): nat
    requires Legal(s, ls)
    decreases |ls|
  {
    if ls == [] then 0 else Readied(s, ls[0], send) + AllReadied(Next(s, ls[0]), ls[1..], send)
  }

  ghost function AllGiven(s: State, ls: seq<Label>, send: bool): nat
    requires Legal(s, ls)
    decreases |ls|
  {
    if ls == [] then 0 else Given(s, ls[0], send) + AllGiven(Next(s, ls[0]), ls[1..], send)
  }

  lemma {:induction false} RunsReady(s: State, ls: seq<Label>, send: bool)
    requires Legal(s, ls)
    ensures AllReadied(s, ls, send) + Pending(LockOf(End(s, ls).ctl, send))
         <= Pending(LockOf(s.ctl, send)) + AllGiven(s, ls, send)
    decreases |ls|
  {
    if ls != [] {
      StepReadies(s, ls[0], send);
      RunsReady(Next(s, ls[0]), ls[1..], send);
    }
  }

  // In every run, resets and counters that wrap included, no more tasks are made ready than messages were
  // posted or peeked at, or taken and reset; those still counted by a lock included.
  lemma {:induction false} NoWakeUpForNothing(start: State, ls: seq<Label>, send: bool)
    requires Initial(start) && Legal(start, ls)
    ensures AllReadied(start, ls, send) + Pending(LockOf(End(start, ls).ctl, send)) <= AllGiven(start, ls, send)
  {
    RunsReady(start, ls, send);
  }

  // ---------------------------------------------------------------- why a call fails

  // What has happened in the current call of one task: whether its time is up, or it had none, and whether
  // the queue had nothing for it when it last looked.
  datatype Story = Story(timeUp: bool, nothing: bool)

  ghost function Told(s: State, l: Label, t: Task, story: Story): Story
    requires Enabled(s, l)
  {
    if l.Call? && l.task == t then Story(l.zero, false)
    else if l.Run? && l.task == t then
      match s.pcs[t]
      case Expiry(_) => story.(timeUp := story.timeUp || l.expired)
      case Retry(op, _) => story.(nothing := !CanGo(s.ctl, op))
      case Test(op) => story.(nothing := MustWait(s.ctl, op))
      case Recheck(op) => story.(nothing := s.ctl.count == 0)
      case _ => story
    else story
  }

  ghost function StoryOf(s: State, ls: seq<Label>, t: Task, story: Story): Story
    requires Legal(s, ls)
    decreases |ls|
  {
    if ls == [] then story else StoryOf(Next(s, ls[0]), ls[1..], t, Told(s, ls[0], t, story))
  }

  // What the place of a task in its call says about it.
  predicate Fits(pc: Pc, story: Story) {
    match pc
    case Retry(_, zero) => zero ==> story.timeUp
    case Suspend(_) => story.nothing
    case LockQueue(_) => story.nothing
    case Expiry(_) => story.nothing
    case UnlockT(_, after) => after.Expired? ==> story.timeUp && story.nothing
    case UnlockR(_, after) => after.Expired? ==> story.timeUp && story.nothing
    case Resume(_, after) => after.Expired? ==> story.timeUp && story.nothing
    case Recheck(_) => story.timeUp && story.nothing
    case _ => true
  }

  lemma {:induction false} StepFits(s: State, l: Label, t: Task, story: Story)
    requires Enabled(s, l) && t < |s.pcs| && Fits(s.pcs[t], story)
    ensures |Next(s, l).pcs| == |s.pcs| && Fits(Next(s, l).pcs[t], Told(s, l, t, story))
  {
  }

  lemma {:induction false} RunFits(s: State, ls: seq<Label>, t: Task, story: Story)
    requires Legal(s, ls) && t < |s.pcs| && Fits(s.pcs[t], story)
    ensures |End(s, ls).pcs| == |s.pcs| && Fits(End(s, ls).pcs[t], StoryOf(s, ls, t, story))
    decreases |ls|
  {
    if ls != [] {
      StepFits(s, ls[0], t, story);
      RunFits(Next(s, ls[0]), ls[1..], t, Told(s, ls[0], t, story));
    }
  }

  // The step by which a task leaves its call.
  ghost predicate Leaves(s: State, l: Label, t: Task) {
    Enabled(s, l) && t < |s.pcs| && !s.pcs[t].Idle? && Next(s, l).pcs[t].Idle?
  }

  // A call ends with its own critical section, or else its time is up, or it had none, and the queue had
  // nothing for it when it last looked; a receiver looks until the end.
  lemma {:induction false} FailsForAReason(start: State, ls: seq<Label>, l: Label, t: Task, story: Story)
    requires Initial(start) && Legal(start, ls) && Leaves(End(start, ls), l, t)
    ensures t < |start.pcs| && l.Run? && l.task == t
    ensures var z := End(start, ls);
      var told := Told(z, l, t, StoryOf(start, ls, t, story));
      || (z.pcs[t].Retry? && CanGo(z.ctl, z.pcs[t].op) && Next(z, l).ctl == Go(z.ctl, z.pcs[t].op).ctl)
      || (told.timeUp && told.nothing && Next(z, l).ctl == z.ctl && (z.pcs[t].op.Sends() || z.ctl.count == 0))
  {
    SameTasks(start, ls);
    RunFits(start, ls, t, story);
  }

  lemma {:induction false} SameTasks(s: State, ls: seq<Label>)
    requires Legal(s, ls)
    ensures |End(s, ls).pcs| == |s.pcs|
    decreases |ls|
  {
    if ls != [] {
      SameTasks(Next(s, ls[0]), ls[1..]);
    }
  }

  // Task t left alone leaves its call.
  ghost predicate GoesHome(s: State, t: Task) {
    exists ls :: Alone(ls, t) && Legal(s, ls) && t < |End(s, ls).pcs| && End(s, ls).pcs[t].Idle?
  }

  predicate Alone(ls: seq<Label>, t: Task) {
    forall i :: 0 <= i < |ls| ==> ls[i].Run? && ls[i].task == t
  }

  lemma {:induction false} HomeFromNext(s: State, t: Task, expired: bool)
    requires Enabled(s, Run(t, expired)) && GoesHome(Next(s, Run(t, expired)), t)
    ensures GoesHome(s, t)
  {
    var ls :| Alone(ls, t) && Legal(Next(s, Run(t, expired)), ls)
              && t < |End(Next(s, Run(t, expired)), ls).pcs| && End(Next(s, Run(t, expired)), ls).pcs[t].Idle?;
    var all := [Run(t, expired)] + ls;
    assert all[1..] == ls;
    assert Alone(all, t) && Legal(s, all) && End(s, all) == End(Next(s, Run(t, expired)), ls);
  }

  lemma {:induction false} HomeFromRetry(s: State, t: Task)
    requires MayRun(s, t) && s.pcs[t].Retry? && (s.pcs[t].zero || CanGo(s.ctl, s.pcs[t].op))
    ensures GoesHome(s, t)
  {
    var z := Next(s, Run(t, false));
    assert Alone([], t) && Legal(z, []) && End(z, []) == z;
    HomeFromNext(s, t, false);
  }

  lemma {:induction false} HomeFromRecheck(s: State, t: Task)
    requires MayRun(s, t) && s.pcs[t].Recheck?
    ensures GoesHome(s, t)
  {
    var z := Next(s, Run(t, false));
    if s.ctl.count == 0 {
      assert Alone([], t) && Legal(z, []) && End(z, []) == z;
    } else {
      HomeFromRetry(z, t);
    }
    HomeFromNext(s, t, false);
  }

  lemma {:induction false} HomeFromUnlock(s: State, t: Task)
    requires MayRun(s, t) && s.pcs[t].UnlockT? && s.pcs[t].after.Expired?
    ensures GoesHome(s, t)
  {
    var s1 := Next(s, Run(t, false));
    var s2 := Next(s1, Run(t, false));
    var s3 := Next(s2, Run(t, false));
    if s3.pcs[t].Idle? {
      assert Alone([], t) && Legal(s3, []) && End(s3, []) == s3;
    } else {
      HomeFromRecheck(s3, t);
    }
    HomeFromNext(s2, t, false);
    HomeFromNext(s1, t, false);
    HomeFromNext(s, t, false);
  }

  // A call that finds its time is up, or that has none and finds nothing, does not wait any more.
  lemma {:induction false} ExpiredCallEnds(s: State, t: Task)
    requires MayRun(s, t) && (s.pcs[t].Expiry? || (s.pcs[t].Retry? && s.pcs[t].zero))
    ensures GoesHome(s, t)
  {
    if s.pcs[t].Retry? {
      HomeFromRetry(s, t);
    } else {
      HomeFromUnlock(Next(s, Run(t, true)), t);
      HomeFromNext(s, t, true);
    }
  }

  // A call without block time is over after one look at the queue.
  lemma {:induction false} ZeroCallReturns(s: State, t: Task, op: Op, expired: bool)
    requires Enabled(s, Call(t, op, true))
    ensures var s1 := Next(s, Call(t, op, true));
      Enabled(s1, Run(t, expired)) && Next(s1, Run(t, expired)).pcs[t].Idle?
  {
  }

  // ---------------------------------------------------------------- what is in the queue

  // A call succeeds with this step.
  predicate Succeeds(s: State, l: Label, op: Op) {
    l.Run? && l.task < |s.pcs| && s.pcs[l.task].Retry? && s.pcs[l.task].op == op && CanGo(s.ctl, op)
  }

  // The message count changes by one for every send and receive that succeeds and for every ISR, an
  // overwrite leaves one message, a reset none, and nothing else changes it.
  lemma {:induction false} CountMoves(s: State, l: Label)
    requires Enabled(s, l) && OpsOk(s.pcs, s.ctl)
    ensures var n, n' := s.ctl.count, Next(s, l).ctl.count;
      n' == if Succeeds(s, l, OverwriteOp) || (l.IsrSend? && l.overwrite) then 1
            else if Succeeds(s, l, SendOp) || l.IsrSend? then n + 1
            else if Succeeds(s, l, ReceiveOp) || l.IsrReceive? then n - 1
            else if l.ResetQueue? then 0 else n
    ensures Next(s, l).ctl.length == s.ctl.length && Next(s, l).ctl.itemSize == s.ctl.itemSize
  {
  }

  // A call succeeds whenever the queue has something for it when it looks.
  lemma {:induction false} SucceedsIfItCan(s: State, t: Task, expired: bool)
    requires Enabled(s, Run(t, expired)) && s.pcs[t].Retry? && OpsOk(s.pcs, s.ctl)
    ensures var op := s.pcs[t].op;
      (if op.OverwriteOp? then true else if op.Sends() then s.ctl.count < s.ctl.length else s.ctl.count > 0) ==>
        Succeeds(s, Run(t, expired), op) && Next(s, Run(t, expired)).pcs[t].Idle?
  {
  }
}
