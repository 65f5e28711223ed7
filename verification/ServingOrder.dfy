/**
  The event lists of a queue over whole runs of the blocking protocol: every step of QueueProtocol changes
  a list by the operations of EventLists, so in every reachable state the list is in serving order.
 */
module ServingOrder {
  import opened RingList
  import opened QueueControl
  import opened QueueProtocol
  import Lists = EventLists

  // xTasksWaitingToSend or xTasksWaitingToReceive
  function WaitingOn(c: Control, send: bool): seq<Waiter> {
    if send then c.toSend else c.toReceive
  }

  function Wakes(k: nat): (ops: seq<Lists.Op>)
    ensures |ops| == k
  {
    seq(k, _ => Lists.WakeHead)
  }

  predicate Joins(s: State, l: Label, send: bool) {
    l.Run? && l.task < |s.pcs| == |s.keys| && s.pcs[l.task].PlaceOnList? && s.pcs[l.task].op.Sends() == send
  }

  // What a step does to one of the lists.
  ghost function StepOps(s: State, l: Label, send: bool): seq<Lists.Op>
    requires Enabled(s, l)
  {
    if Joins(s, l, send) then [Lists.Join(Waiter(l.task, s.keys[l.task]))]
    else if l.TimeoutReceiver? && !send then [Lists.TimeOut(l.index)]
    else if l.TimeoutSender? && send then [Lists.TimeOut(l.index)]
    else
      var left := |WaitingOn(s.ctl, send)| - |WaitingOn(Next(s, l).ctl, send)|;
      Wakes(if left > 0 then left else 0)
  }

  ghost predicate TakesHeads(before: seq<Waiter>, after: seq<Waiter>) {
    |after| <= |before| && after == before[|before| - |after|..]
  }

  lemma {:induction false} Tail(ws: seq<Waiter>, k: nat)
    requires k <= |ws|
    ensures TakesHeads(ws, ws[k..]) && TakesHeads(ws, ws)
  {
  }

  lemma {:induction false} RetryTakesHeads(s: State, t: Task, send: bool)
    requires MayRun(s, t) && s.pcs[t].Retry?
    ensures TakesHeads(WaitingOn(s.ctl, send), WaitingOn(RetryStep(s, t).ctl, send))
  {
    var ws := WaitingOn(s.ctl, send);
    Tail(ws, Taken(ws, 1));
  }

  lemma {:induction false} RunTakesHeads(s: State, t: Task, expired: bool, send: bool)
    requires MayRun(s, t) && !s.pcs[t].Idle?
    requires s.pcs[t].PlaceOnList? ==> s.pcs[t].op.Sends() != send
    ensures TakesHeads(WaitingOn(s.ctl, send), WaitingOn(RunStep(s, t, expired).ctl, send))
  {
    var ws := WaitingOn(s.ctl, send);
    Tail(ws, 0);
    if s.pcs[t].Retry? {
      RetryTakesHeads(s, t, send);
    } else if s.pcs[t].UnlockT? || s.pcs[t].UnlockR? {
      Tail(ws, Taken(ws, LockOf(s.ctl, send)));
    }
  }

  // A step that is none of these takes entries from the head of the list, if any.
  lemma {:induction false} OthersTakeHeads(s: State, l: Label, send: bool)
    requires Enabled(s, l) && !Joins(s, l, send)
    requires (l.TimeoutReceiver? ==> send) && (l.TimeoutSender? ==> !send)
    ensures TakesHeads(WaitingOn(s.ctl, send), WaitingOn(Next(s, l).ctl, send))
  {
    var ws := WaitingOn(s.ctl, send);
    Tail(ws, Taken(ws, 1));
    if l.Run? {
      RunTakesHeads(s, l.task, l.expired, send);
    }
  }

  lemma {:induction false} WakesTakeHeads(es: seq<Lists.Entry>, k: nat, now: nat)
    requires k <= |es|
    ensures Lists.Legal(es, Wakes(k), now) && Lists.End(es, Wakes(k), now) == es[k..]
    decreases k
  {
    if k > 0 {
      WakesTakeHeads(es[1..], k - 1, now + 1);
      assert Wakes(k)[1..] == Wakes(k - 1);
      assert es[1..][k - 1..] == es[k..];
    }
  }

  lemma {:induction false} OneOp(es: seq<Lists.Entry>, op: Lists.Op, now: nat)
    requires Lists.Allowed(es, op)
    ensures Lists.Legal(es, [op], now) && Lists.End(es, [op], now) == Lists.Apply(es, op, now)
  {
    assert [op][1..] == [];
    assert Lists.Legal(Lists.Apply(es, op, now), [], now + 1);
  }

  lemma {:induction false} OneStepOp(es: seq<Lists.Entry>, op: Lists.Op, now: nat, before: Control, after: seq<Waiter>)
    requires Lists.Waiters(es) == before.toReceive && !op.WakeHead?
    requires if op.Join? then after == Place(before.toReceive, op.w)
             else op.k < |es| && after == RemoveAt(before.toReceive, op.k)
    ensures Lists.Legal(es, [op], now) && Lists.Waiters(Lists.End(es, [op], now)) == after
  {
    OneOp(es, op, now);
    Lists.ApplyIsQueueStep(es, op, now, before);
  }

  lemma {:induction false} HeadsAreListOps(s: State, l: Label, send: bool, es: seq<Lists.Entry>, now: nat)
    requires Enabled(s, l) && Lists.Waiters(es) == WaitingOn(s.ctl, send) && !Joins(s, l, send)
    requires (l.TimeoutReceiver? ==> send) && (l.TimeoutSender? ==> !send)
    ensures Lists.Legal(es, StepOps(s, l, send), now)
    ensures Lists.Waiters(Lists.End(es, StepOps(s, l, send), now)) == WaitingOn(Next(s, l).ctl, send)
  {
    OthersTakeHeads(s, l, send);
    var k := |es| - |WaitingOn(Next(s, l).ctl, send)|;
    WakesTakeHeads(es, k, now);
    assert Lists.Waiters(es[k..]) == Lists.Waiters(es)[k..];
  }

  lemma {:induction false} StepIsListOps(s: State, l: Label, send: bool, es: seq<Lists.Entry>, now: nat)
    requires Enabled(s, l) && Lists.Waiters(es) == WaitingOn(s.ctl, send)
    ensures Lists.Legal(es, StepOps(s, l, send), now)
    ensures Lists.Waiters(Lists.End(es, StepOps(s, l, send), now)) == WaitingOn(Next(s, l).ctl, send)
  {
    var c, after := s.ctl.(toReceive := WaitingOn(s.ctl, send)), WaitingOn(Next(s, l).ctl, send);
    if Joins(s, l, send) {
      OneStepOp(es, Lists.Join(Waiter(l.task, s.keys[l.task])), now, c, after);
    } else if (l.TimeoutReceiver? && !send) || (l.TimeoutSender? && send) {
      OneStepOp(es, Lists.TimeOut(l.index), now, c, after);
    } else {
      HeadsAreListOps(s, l, send, es, now);
    }
  }

  // A list with the arrival of each entry, followed through a run; an arrival is the number of operations
  // on the list before it.
  ghost function Tracked(s: State, ls: seq<Label>, send: bool, es: seq<Lists.Entry>, now: nat)
    : (r: (seq<Lists.Entry>, nat))
    requires Legal(s, ls) && Lists.Waiters(es) == WaitingOn(s.ctl, send) && Lists.Ordered(es, now)
    ensures Lists.Waiters(r.0) == WaitingOn(End(s, ls).ctl, send) && Lists.Ordered(r.0, r.1)
    decreases |ls|
  {
    if ls == [] then (es, now)
    else
      var ops := StepOps(s, ls[0], send);
      StepIsListOps(s, ls[0], send, es, now);
      Lists.HeadServedFirst(es, ops, now);
      Tracked(Next(s, ls[0]), ls[1..], send, Lists.End(es, ops, now), now + |ops|)
  }

  // In every reachable state both event lists are in serving order: by priority, and among equals by
  // when the tasks put themselves on the list.
  lemma {:induction false} ListsInServingOrder(start: State, ls: seq<Label>, send: bool)
    requires Initial(start) && Legal(start, ls)
    ensures Lists.Waiters([]) == WaitingOn(start.ctl, send)
    ensures var es := Tracked(start, ls, send, [], 0).0;
      && Lists.Waiters(es) == WaitingOn(End(start, ls).ctl, send)
      && forall i, j :: 0 <= i < j < |es| ==> Lists.Precedes(es[i], es[j])
  {
  }
}
