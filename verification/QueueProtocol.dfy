/**
  The blocking protocol of queue.c as a step machine: any number of tasks run the retry
  loops of xQueueGenericSend, xQueueReceive, xQueueSemaphoreTake and xQueuePeek, ISRs post
  and receive at any point, and blocked tasks time out. Each step is one critical section
  or one stretch of code between two of them.
 */
module QueueProtocol {
  import opened RingList
  import opened QueueControl

  // A take of a semaphore or mutex follows the same path as a receive.
  datatype Op = SendOp | OverwriteOp | ReceiveOp | PeekOp {
    predicate Sends() { SendOp? || OverwriteOp? }
  }

  // Why the queue is being unlocked: to wait, to look again, or because the time is up.
  datatype After = Wait | Again | Expired

  datatype Pc =
    | Idle                         // not inside one of the calls
    | Retry(op: Op, zero: bool)    // at the top of the loop; zero: xTicksToWait is 0
    | Suspend(op: Op)              // before vTaskSuspendAll
    | LockQueue(op: Op)            // before prvLockQueue
    | Expiry(op: Op)               // before xTaskCheckForTimeOut
    | Test(op: Op)                 // before prvIsQueueEmpty or prvIsQueueFull
    | PlaceOnList(op: Op)          // before vTaskPlaceOnEventList
    | UnlockT(op: Op, after: After) // before the first half of prvUnlockQueue
    | UnlockR(op: Op, after: After) // before the second half
    | Resume(op: Op, after: After) // before xTaskResumeAll
    | Blocked(op: Op)              // after xTaskResumeAll, waiting to run again
    | Recheck(op: Op)              // timed out receiver, before the last prvIsQueueEmpty

  datatype State = State(
    ctl: Control,
    pcs: seq<Pc>,
    keys: seq<Tick>,           // each task's event list key
    suspender: set<Task>,      // the task that suspended the scheduler, if any
    wokenReceivers: seq<Waiter>, // removed from the receive list by an event, not yet retried
    wokenSenders: seq<Waiter>    // the same for the send list
  )

  datatype Label =
    | Call(task: Task, op: Op, zero: bool)
    | Run(task: Task, expired: bool)
    | IsrSend(overwrite: bool)
    | IsrReceive
    | TimeoutReceiver(index: nat)   // the tick removes entry `index` of the receive list
    | TimeoutSender(index: nat)
    | ResetQueue(task: Task)

  // While the scheduler is suspended only the suspending task runs (ISRs still do).
  predicate MayRun(s: State, t: Task) {
    t < |s.pcs| == |s.keys| && s.suspender <= {t}
  }

  // The branch condition at the top of each loop.
  predicate CanGo(c: Control, op: Op) {
    match op
    case SendOp => c.count < c.length
    case OverwriteOp => true
    case ReceiveOp => c.count > 0
    case PeekOp => c.count > 0
  }

  function Go(c: Control, op: Op): Effect
    requires CanGo(c, op)
  {
    match op
    case SendOp => Send(c, false)
    case OverwriteOp => Send(c, true)
    case ReceiveOp => Receive(c)
    case PeekOp => Peek(c)
  }

  // prvIsQueueFull or prvIsQueueEmpty
  predicate MustWait(c: Control, op: Op) {
    if op.Sends() then c.count == c.length else c.count == 0
  }

  ghost predicate Listed(ws: seq<Waiter>, t: Task) {
    exists i :: 0 <= i < |ws| && ws[i].task == t
  }

  function IndexOf(ws: seq<Waiter>, t: Task): (i: nat)
    ensures i <= |ws|
    ensures i < |ws| ==> ws[i].task == t
    ensures forall j :: 0 <= j < i ==> ws[j].task != t
  {
    if ws == [] || ws[0].task == t then 0 else 1 + IndexOf(ws[1..], t)
  }

  // Task t has run again: it no longer counts as woken.
  function Forget(ws: seq<Waiter>, t: Task): seq<Waiter> {
    var i := IndexOf(ws, t);
    if i < |ws| then RemoveAt(ws, i) else ws
  }

  // xQueueOverwrite asserts a length of one; a storage area is needed for it to replace anything.
  predicate OverwriteAllowed(c: Control) {
    c.length == 1 && c.itemSize > 0
  }

  ghost predicate Enabled(s: State, l: Label) {
    match l
    case Call(t, op, zero) => MayRun(s, t) && s.pcs[t].Idle? && (op.OverwriteOp? ==> OverwriteAllowed(s.ctl))
    case Run(t, expired) =>
      MayRun(s, t) && !s.pcs[t].Idle?
      && (s.pcs[t].Blocked? ==> !Listed(s.ctl.toReceive, t) && !Listed(s.ctl.toSend, t))
    case IsrSend(overwrite) =>
      if overwrite then OverwriteAllowed(s.ctl) else s.ctl.count < s.ctl.length
    case IsrReceive => s.ctl.count > 0
    case TimeoutReceiver(i) => s.suspender == {} && i < |s.ctl.toReceive|
    case TimeoutSender(i) => s.suspender == {} && i < |s.ctl.toSend|
    case ResetQueue(t) => MayRun(s, t) && s.pcs[t].Idle? && s.suspender == {}
  }

  // A critical section's effect on the whole state: receivers it wakes and senders it wakes.
  function WithReceivers(s: State, e: Effect): State {
    s.(ctl := e.ctl, wokenReceivers := s.wokenReceivers + e.woken)
  }

  function WithSenders(s: State, e: Effect): State {
    s.(ctl := e.ctl, wokenSenders := s.wokenSenders + e.woken)
  }

  function At(s: State, t: Task, pc: Pc): State
    requires t < |s.pcs|
  {
    s.(pcs := s.pcs[t := pc])
  }

  function RetryStep(s0: State, t: Task): State
    requires MayRun(s0, t) && s0.pcs[t].Retry?
  {
    var op, zero := s0.pcs[t].op, s0.pcs[t].zero;
    var s := s0.(wokenReceivers := Forget(s0.wokenReceivers, t), wokenSenders := Forget(s0.wokenSenders, t));
    if CanGo(s.ctl, op) then
      var e := Go(s.ctl, op);
      At(if op.ReceiveOp? then WithSenders(s, e) else WithReceivers(s, e), t, Idle)
    else
      At(s, t, if zero then Idle else Suspend(op))
  }

  function RunStep(s: State, t: Task, expired: bool): State
    requires MayRun(s, t) && !s.pcs[t].Idle?
  {
    match s.pcs[t]
    case Idle => s
    case Retry(op, zero) => RetryStep(s, t)
    case Suspend(op) => At(s, t, LockQueue(op)).(suspender := {t})
    case LockQueue(op) => At(s, t, Expiry(op)).(ctl := Lock(s.ctl))
    case Expiry(op) => At(s, t, if expired then UnlockT(op, Expired) else Test(op))
    case Test(op) => At(s, t, if MustWait(s.ctl, op) then PlaceOnList(op) else UnlockT(op, Again))
    case PlaceOnList(op) =>
      var w := Waiter(t, s.keys[t]);
      At(s, t, UnlockT(op, Wait)).(ctl :=
        if op.Sends() then s.ctl.(toSend := Place(s.ctl.toSend, w))
        else s.ctl.(toReceive := Place(s.ctl.toReceive, w)))
    case UnlockT(op, after) => At(WithReceivers(s, UnlockTx(s.ctl)), t, UnlockR(op, after))
    case UnlockR(op, after) => At(WithSenders(s, UnlockRx(s.ctl)), t, Resume(op, after))
    case Resume(op, after) =>
      At(s, t, match after
               case Wait => Blocked(op)
               case Again => Retry(op, false)
               case Expired => if op.Sends() then Idle else Recheck(op)).(suspender := {})
    case Blocked(op) => At(s, t, Retry(op, false))
    case Recheck(op) => At(s, t, if s.ctl.count == 0 then Idle else Retry(op, true))
  }

  function Next(s: State, l: Label): State
    requires Enabled(s, l)
  {
    match l
    case Call(t, op, zero) => At(s, t, Retry(op, zero))
    case Run(t, expired) => RunStep(s, t, expired)
    case IsrSend(overwrite) => WithReceivers(s, SendFromISR(s.ctl, overwrite))
    case IsrReceive => WithSenders(s, ReceiveFromISR(s.ctl))
    case TimeoutReceiver(i) => s.(ctl := s.ctl.(toReceive := RemoveAt(s.ctl.toReceive, i)))
    case TimeoutSender(i) => s.(ctl := s.ctl.(toSend := RemoveAt(s.ctl.toSend, i)))
    case ResetQueue(t) => WithSenders(s, Reset(s.ctl))
  }

  // ---------------------------------------------------------------- invariant

  // The task is somewhere between having been placed on a list and running again.
  predicate Waits(pc: Pc, send: bool) {
    match pc
    case UnlockT(op, after) => after.Wait? && op.Sends() == send
    case UnlockR(op, after) => after.Wait? && op.Sends() == send
    case Resume(op, after) => after.Wait? && op.Sends() == send
    case Blocked(op) => op.Sends() == send
    case _ => false
  }

  predicate Woken(pc: Pc, send: bool) {
    Waits(pc, send) || (pc.Retry? && pc.op.Sends() == send)
  }

  predicate HoldsTx(pc: Pc) {
    pc.Expiry? || pc.Test? || pc.PlaceOnList? || pc.UnlockT?
  }

  predicate HoldsRx(pc: Pc) {
    HoldsTx(pc) || pc.UnlockR?
  }

  predicate Suspends(pc: Pc) {
    HoldsRx(pc) || pc.LockQueue? || pc.Resume?
  }

  ghost predicate OncePerTask(ws: seq<Waiter>) {
    forall i, j :: 0 <= i < j < |ws| ==> ws[i].task != ws[j].task
  }

  // One event list together with the tasks it released: nobody occurs twice, listed tasks are
  // waiting and released tasks have not retried.
  ghost predicate SideOk(pcs: seq<Pc>, woken: seq<Waiter>, ws: seq<Waiter>, send: bool) {
    && OncePerTask(woken + ws)
    && (forall i :: 0 <= i < |ws| ==> ws[i].task < |pcs| && Waits(pcs[ws[i].task], send))
    && (forall i :: 0 <= i < |woken| ==> woken[i].task < |pcs| && Woken(pcs[woken[i].task], send))
  }

  // One task at most has suspended the scheduler, and it is where it may be then.
  ghost predicate SuspendOk(pcs: seq<Pc>, suspender: set<Task>) {
    && (forall t :: t in suspender ==> t < |pcs| && suspender == {t} && Suspends(pcs[t]))
    && (forall t :: 0 <= t < |pcs| && Suspends(pcs[t]) ==> t in suspender)
  }

  predicate Holds(pc: Pc, send: bool) {
    if send then HoldsRx(pc) else HoldsTx(pc)
  }

  // One of the two locks is held exactly while the task that suspended the scheduler is between
  // prvLockQueue and the matching half of prvUnlockQueue.
  ghost predicate LockOk(pcs: seq<Pc>, suspender: set<Task>, lock: int, send: bool) {
    && -1 <= lock <= LOCK_MAX && (lock >= 0 ==> suspender != {})
    && (forall t :: 0 <= t < |pcs| && Suspends(pcs[t]) ==> (lock >= 0 <==> Holds(pcs[t], send)))
  }

  function Pending(lock: int): nat {
    if lock >= 0 then lock else 0
  }

  // What the tasks of one side wait for, messages or free slots, and the lock that counts its arrival.
  function Offered(c: Control, send: bool): int {
    if send then c.length - c.count else c.count
  }

  function LockOf(c: Control, send: bool): int {
    if send then c.rxLock else c.txLock
  }

  // A task that saw nothing on offer and is about to be put on the list: all that arrived since is in
  // the lock count.
  ghost predicate PlaceOk(pcs: seq<Pc>, c: Control, send: bool) {
    forall t :: 0 <= t < |pcs| && pcs[t].PlaceOnList? && pcs[t].op.Sends() == send ==>
      Offered(c, send) <= Pending(LockOf(c, send))
  }

  ghost predicate OpsOk(pcs: seq<Pc>, c: Control) {
    && 0 < c.length && c.count <= c.length
    && (forall t :: 0 <= t < |pcs| && !pcs[t].Idle? && pcs[t].op.OverwriteOp? ==> OverwriteAllowed(c) && pcs[t].Retry?)
  }

  // No lost receiver wake-up: while receivers wait, every message in the queue is accounted for by
  // a receiver already woken for it or by the lock count that will wake one.
  ghost predicate ReceiversServed(s: State) {
    s.ctl.toReceive != [] ==> s.ctl.count <= |s.wokenReceivers| + Pending(s.ctl.txLock)
  }

  // No lost sender wake-up: the same for free slots.
  ghost predicate SendersServed(s: State) {
    s.ctl.toSend != [] ==> s.ctl.length - s.ctl.count <= |s.wokenSenders| + Pending(s.ctl.rxLock)
  }

  // What holds however often the counters wrap.
  ghost predicate Common(s: State) {
    && |s.keys| == |s.pcs|
    && SuspendOk(s.pcs, s.suspender)
    && SideOk(s.pcs, s.wokenReceivers, s.ctl.toReceive, false)
    && SideOk(s.pcs, s.wokenSenders, s.ctl.toSend, true)
    && OpsOk(s.pcs, s.ctl)
  }

  // What holds for one side as long as its own counter does not wrap.
  ghost predicate Guarantee(s: State, send: bool) {
    && LockOk(s.pcs, s.suspender, LockOf(s.ctl, send), send)
    && PlaceOk(s.pcs, s.ctl, send)
    && if send then SendersServed(s) else ReceiversServed(s)
  }

  // A step keeps what holds in any case, and the guarantee of either side.
  ghost predicate Kept(s: State, s': State) {
    && Common(s')
    && (Guarantee(s, false) ==> Guarantee(s', false))
    && (Guarantee(s, true) ==> Guarantee(s', true))
  }

  // ---------------------------------------------------------------- one side of the queue

  lemma {:induction false} WakeKeepsSide(pcs: seq<Pc>, woken: seq<Waiter>, ws: seq<Waiter>, k: nat, send: bool)
    requires SideOk(pcs, woken, ws, send) && k <= |ws|
    ensures SideOk(pcs, woken + ws[..k], ws[k..], send)
  {
    assert woken + ws[..k] + ws[k..] == woken + ws;
  }

  lemma {:induction false} RemoveOnce(line: seq<Waiter>, i: nat)
    requires OncePerTask(line) && i < |line|
    ensures OncePerTask(RemoveAt(line, i))
    ensures forall a :: 0 <= a < |line| - 1 ==>
              RemoveAt(line, i)[a].task != line[i].task && RemoveAt(line, i)[a] in line
  {
    var r := RemoveAt(line, i);
    forall a | 0 <= a < |r| ensures r[a] == line[if a < i then a else a + 1] {
    }
  }

  lemma {:induction false} InsertOnce(line: seq<Waiter>, k: nat, w: Waiter)
    requires OncePerTask(line) && k <= |line| && forall a :: 0 <= a < |line| ==> line[a].task != w.task
    ensures OncePerTask(InsertAt(line, k, w))
    ensures forall a :: 0 <= a <= |line| ==> InsertAt(line, k, w)[a] == w || InsertAt(line, k, w)[a] in line
  {
    var r := InsertAt(line, k, w);
    forall a | 0 <= a < |r| && a != k ensures r[a] == line[if a < k then a else a - 1] {
    }
  }

  lemma {:induction false} ForgetEntries(woken: seq<Waiter>, t: Task)
    requires OncePerTask(woken)
    ensures forall a :: 0 <= a < |Forget(woken, t)| ==> Forget(woken, t)[a] in woken && Forget(woken, t)[a].task != t
  {
    var i := IndexOf(woken, t);
    if i < |woken| {
      RemoveOnce(woken, i);
    }
  }

  lemma {:induction false} ForgetKeepsOnce(woken: seq<Waiter>, ws: seq<Waiter>, t: Task)
    requires OncePerTask(woken + ws)
    ensures OncePerTask(Forget(woken, t) + ws)
  {
    var i := IndexOf(woken, t);
    if i < |woken| {
      RemoveInFront(woken, ws, i);
      RemoveOnce(woken + ws, i);
    }
  }

  lemma {:induction false} ForgetKeepsSide(pcs: seq<Pc>, woken: seq<Waiter>, ws: seq<Waiter>, t: Task, send: bool)
    requires SideOk(pcs, woken, ws, send)
    ensures SideOk(pcs, Forget(woken, t), ws, send) && |Forget(woken, t)| >= |woken| - 1
    ensures !Listed(Forget(woken, t), t)
  {
    PrefixOnce(woken, ws);
    ForgetKeepsOnce(woken, ws, t);
    ForgetEntries(woken, t);
  }

  lemma {:induction false} PrefixOnce(woken: seq<Waiter>, ws: seq<Waiter>)
    requires OncePerTask(woken + ws)
    ensures OncePerTask(woken)
  {
    forall a, b | 0 <= a < b < |woken| ensures woken[a].task != woken[b].task {
      assert (woken + ws)[a] == woken[a] && (woken + ws)[b] == woken[b];
    }
  }

  // A tick takes entry i off a list without waking anybody for an event.
  lemma {:induction false} TimeoutKeepsSide(pcs: seq<Pc>, woken: seq<Waiter>, ws: seq<Waiter>, i: nat, send: bool)
    requires SideOk(pcs, woken, ws, send) && i < |ws|
    ensures SideOk(pcs, woken, RemoveAt(ws, i), send)
  {
    RemoveBehind(woken, ws, i);
    RemoveOnce(woken + ws, |woken| + i);
    forall a | 0 <= a < |RemoveAt(ws, i)| ensures RemoveAt(ws, i)[a] in ws {
      assert RemoveAt(ws, i)[a] == ws[if a < i then a else a + 1];
    }
  }

  lemma {:induction false} PlaceKeepsSide(pcs: seq<Pc>, pcs': seq<Pc>, woken: seq<Waiter>, ws: seq<Waiter>, w: Waiter,
                                          send: bool)
    requires SideOk(pcs, woken, ws, send)
    requires w.task < |pcs| && !Woken(pcs[w.task], send)
    requires |pcs'| == |pcs| && pcs' == pcs[w.task := pcs'[w.task]] && Waits(pcs'[w.task], send)
    ensures SideOk(pcs', woken, Place(ws, w), send)
  {
    var p, line := InsertPosition(Keys(ws), w.key), woken + ws;
    forall a | 0 <= a < |line| ensures line[a].task != w.task {
      assert line[a] == if a < |woken| then woken[a] else ws[a - |woken|];
    }
    InsertBehind(woken, ws, p, w);
    InsertOnce(line, |woken| + p, w);
    PlacedEntries(ws, w);
  }

  lemma {:induction false} PlacedEntries(ws: seq<Waiter>, w: Waiter)
    ensures forall a :: 0 <= a < |Place(ws, w)| ==> Place(ws, w)[a] == w || Place(ws, w)[a] in ws
  {
    var p := InsertPosition(Keys(ws), w.key);
    forall a | 0 <= a <= |ws| && a != p ensures Place(ws, w)[a] == ws[if a < p then a else a - 1] {
    }
  }

  // A step of task t does not disturb a side when its new program counter still fits its place.
  lemma {:induction false} MoveKeepsSide(pcs: seq<Pc>, t: Task, pc: Pc, woken: seq<Waiter>, ws: seq<Waiter>, send: bool)
    requires t < |pcs| && SideOk(pcs, woken, ws, send)
    requires Waits(pc, send) || !Waits(pcs[t], send) || !Listed(ws, t)
    requires Woken(pc, send) || !Woken(pcs[t], send) || !Listed(woken, t)
    ensures SideOk(pcs[t := pc], woken, ws, send)
  {
  }

  // ---------------------------------------------------------------- one step

  // Both guarantees, where they hold.
  lemma {:induction false} BothKept(s: State, s': State)
    requires Common(s')
    requires Guarantee(s, false) ==> Guarantee(s', false)
    requires Guarantee(s, true) ==> Guarantee(s', true)
    ensures Kept(s, s')
  {
  }

  // A step of one task that leaves the queue itself alone.
  ghost predicate PlainMove(s: State, t: Task, pc: Pc) {
    && t < |s.pcs| && !s.pcs[t].Retry?
    && Suspends(pc) == Suspends(s.pcs[t]) && HoldsTx(pc) == HoldsTx(s.pcs[t]) && HoldsRx(pc) == HoldsRx(s.pcs[t])
    && (pc.PlaceOnList? ==> MustWait(s.ctl, pc.op))
    && (!pc.Idle? && pc.op.OverwriteOp? ==> OverwriteAllowed(s.ctl) && pc.Retry?)
  }

  lemma {:induction false} PlainMoveGuarantee(s: State, t: Task, pc: Pc, send: bool)
    requires PlainMove(s, t, pc) && Guarantee(s, send)
    ensures Guarantee(At(s, t, pc), send)
  {
  }

  lemma {:induction false} PlainMoveKeeps(s: State, t: Task, pc: Pc)
    requires Common(s) && PlainMove(s, t, pc)
    requires forall send :: Waits(s.pcs[t], send) ==> Woken(pc, send)
    requires forall send :: Waits(s.pcs[t], send) ==>
               Waits(pc, send) || (!Listed(s.ctl.toReceive, t) && !Listed(s.ctl.toSend, t))
    ensures Kept(s, At(s, t, pc))
  {
    MoveKeepsSide(s.pcs, t, pc, s.wokenReceivers, s.ctl.toReceive, false);
    MoveKeepsSide(s.pcs, t, pc, s.wokenSenders, s.ctl.toSend, true);
    if Guarantee(s, false) { PlainMoveGuarantee(s, t, pc, false); }
    if Guarantee(s, true) { PlainMoveGuarantee(s, t, pc, true); }
  }

  function AfterRetry(s: State, t: Task): Pc
    requires t < |s.pcs| && s.pcs[t].Retry?
  {
    if CanGo(s.ctl, s.pcs[t].op) || s.pcs[t].zero then Idle else Suspend(s.pcs[t].op)
  }

  lemma {:induction false} RetrySides(s: State, t: Task)
    requires Common(s) && MayRun(s, t) && s.pcs[t].Retry?
    ensures RetryStep(s, t).pcs == s.pcs[t := AfterRetry(s, t)]
    ensures SideOk(RetryStep(s, t).pcs, RetryStep(s, t).wokenReceivers, RetryStep(s, t).ctl.toReceive, false)
    ensures SideOk(RetryStep(s, t).pcs, RetryStep(s, t).wokenSenders, RetryStep(s, t).ctl.toSend, true)
  {
    var op, pc := s.pcs[t].op, AfterRetry(s, t);
    var wr, ws := Forget(s.wokenReceivers, t), Forget(s.wokenSenders, t);
    ForgetKeepsSide(s.pcs, s.wokenReceivers, s.ctl.toReceive, t, false);
    ForgetKeepsSide(s.pcs, s.wokenSenders, s.ctl.toSend, t, true);
    MoveKeepsSide(s.pcs, t, pc, wr, s.ctl.toReceive, false);
    MoveKeepsSide(s.pcs, t, pc, ws, s.ctl.toSend, true);
    WakeKeepsSide(s.pcs[t := pc], ws, s.ctl.toSend, Taken(s.ctl.toSend, 1), true);
    WakeKeepsSide(s.pcs[t := pc], wr, s.ctl.toReceive, Taken(s.ctl.toReceive, 1), false);
  }

  lemma {:induction false} RetryServed(s: State, t: Task)
    requires MayRun(s, t) && s.pcs[t].Retry? && OpsOk(s.pcs, s.ctl)
    requires |Forget(s.wokenReceivers, t)| >= |s.wokenReceivers| - 1
    requires |Forget(s.wokenSenders, t)| >= |s.wokenSenders| - 1
    requires s.pcs[t].op.Sends() ==> Forget(s.wokenReceivers, t) == s.wokenReceivers
    requires !s.pcs[t].op.Sends() ==> Forget(s.wokenSenders, t) == s.wokenSenders
    ensures ReceiversServed(s) ==> ReceiversServed(RetryStep(s, t))
    ensures SendersServed(s) ==> SendersServed(RetryStep(s, t))
  {
  }

  // The locks and the pending placements do not concern a task outside the locked region.
  lemma {:induction false} OutsideLock(s: State, t: Task, pc: Pc, c: Control, send: bool)
    requires SuspendOk(s.pcs, s.suspender) && MayRun(s, t) && !Suspends(s.pcs[t]) && !Suspends(pc)
    requires LockOf(c, send) == LockOf(s.ctl, send)
    ensures LockOk(s.pcs, s.suspender, LockOf(s.ctl, send), send) ==>
              LockOk(s.pcs[t := pc], s.suspender, LockOf(c, send), send)
    ensures SuspendOk(s.pcs[t := pc], s.suspender) && PlaceOk(s.pcs[t := pc], c, send)
  {
  }

  lemma {:induction false} RetryCommon(s: State, t: Task)
    requires Common(s) && MayRun(s, t) && s.pcs[t].Retry?
    ensures Common(RetryStep(s, t))
  {
    RetrySides(s, t);
    OutsideLock(s, t, AfterRetry(s, t), RetryStep(s, t).ctl, true);
  }

  lemma {:induction false} RetryKeeps(s: State, t: Task)
    requires Common(s) && MayRun(s, t) && s.pcs[t].Retry?
    ensures Kept(s, RetryStep(s, t))
  {
    RetryCommon(s, t);
    RetrySides(s, t);
    OutsideLock(s, t, AfterRetry(s, t), RetryStep(s, t).ctl, false);
    OutsideLock(s, t, AfterRetry(s, t), RetryStep(s, t).ctl, true);
    ForgetKeepsSide(s.pcs, s.wokenReceivers, s.ctl.toReceive, t, false);
    ForgetKeepsSide(s.pcs, s.wokenSenders, s.ctl.toSend, t, true);
    RetryServed(s, t);
    BothKept(s, RetryStep(s, t));
  }

  lemma {:induction false} PlaceSides(s: State, t: Task)
    requires Common(s) && MayRun(s, t) && s.pcs[t].PlaceOnList?
    ensures var z := RunStep(s, t, false);
      && SideOk(z.pcs, z.wokenReceivers, z.ctl.toReceive, false)
      && SideOk(z.pcs, z.wokenSenders, z.ctl.toSend, true)
  {
    var op := s.pcs[t].op;
    var pc, w := UnlockT(op, Wait), Waiter(t, s.keys[t]);
    var pcs' := s.pcs[t := pc];
    if op.Sends() {
      MoveKeepsSide(s.pcs, t, pc, s.wokenReceivers, s.ctl.toReceive, false);
      PlaceKeepsSide(s.pcs, pcs', s.wokenSenders, s.ctl.toSend, w, true);
    } else {
      PlaceKeepsSide(s.pcs, pcs', s.wokenReceivers, s.ctl.toReceive, w, false);
      MoveKeepsSide(s.pcs, t, pc, s.wokenSenders, s.ctl.toSend, true);
    }
  }

  lemma {:induction false} PlaceGuarantee(s: State, t: Task, send: bool)
    requires SuspendOk(s.pcs, s.suspender) && MayRun(s, t) && s.pcs[t].PlaceOnList? && Guarantee(s, send)
    ensures Guarantee(RunStep(s, t, false), send)
  {
  }

  lemma {:induction false} PlaceKeeps(s: State, t: Task)
    requires Common(s) && MayRun(s, t) && s.pcs[t].PlaceOnList?
    ensures Kept(s, RunStep(s, t, false))
    ensures RunStep(s, t, true) == RunStep(s, t, false)
  {
    PlaceSides(s, t);
    if Guarantee(s, false) { PlaceGuarantee(s, t, false); }
    if Guarantee(s, true) { PlaceGuarantee(s, t, true); }
    BothKept(s, RunStep(s, t, false));
  }

  lemma {:induction false} UnlockCommon(s: State, t: Task)
    requires Common(s) && MayRun(s, t) && (s.pcs[t].UnlockT? || s.pcs[t].UnlockR?)
    ensures Common(RunStep(s, t, false))
  {
    var op, after := s.pcs[t].op, s.pcs[t].after;
    var pc := if s.pcs[t].UnlockT? then UnlockR(op, after) else Resume(op, after);
    MoveKeepsSide(s.pcs, t, pc, s.wokenReceivers, s.ctl.toReceive, false);
    MoveKeepsSide(s.pcs, t, pc, s.wokenSenders, s.ctl.toSend, true);
    if s.pcs[t].UnlockT? {
      WakeKeepsSide(s.pcs[t := pc], s.wokenReceivers, s.ctl.toReceive, Taken(s.ctl.toReceive, s.ctl.txLock), false);
    } else {
      WakeKeepsSide(s.pcs[t := pc], s.wokenSenders, s.ctl.toSend, Taken(s.ctl.toSend, s.ctl.rxLock), true);
    }
  }

  lemma {:induction false} UnlockGuarantee(s: State, t: Task, send: bool)
    requires SuspendOk(s.pcs, s.suspender) && MayRun(s, t) && (s.pcs[t].UnlockT? || s.pcs[t].UnlockR?)
    requires Guarantee(s, send)
    ensures Guarantee(RunStep(s, t, false), send)
  {
  }

  lemma {:induction false} UnlockKeeps(s: State, t: Task)
    requires Common(s) && MayRun(s, t) && (s.pcs[t].UnlockT? || s.pcs[t].UnlockR?)
    ensures Kept(s, RunStep(s, t, false))
    ensures RunStep(s, t, true) == RunStep(s, t, false)
  {
    UnlockCommon(s, t);
    if Guarantee(s, false) { UnlockGuarantee(s, t, false); }
    if Guarantee(s, true) { UnlockGuarantee(s, t, true); }
    BothKept(s, RunStep(s, t, false));
  }

  // vTaskSuspendAll, prvLockQueue and xTaskResumeAll.
  predicate Bracket(pc: Pc) {
    pc.Suspend? || pc.LockQueue? || pc.Resume?
  }

  lemma {:induction false} BracketCommon(s: State, t: Task)
    requires Common(s) && MayRun(s, t) && Bracket(s.pcs[t])
    ensures Common(RunStep(s, t, false))
  {
    var pc := RunStep(s, t, false).pcs[t];
    MoveKeepsSide(s.pcs, t, pc, s.wokenReceivers, s.ctl.toReceive, false);
    MoveKeepsSide(s.pcs, t, pc, s.wokenSenders, s.ctl.toSend, true);
  }

  lemma {:induction false} BracketGuarantee(s: State, t: Task, send: bool)
    requires SuspendOk(s.pcs, s.suspender) && MayRun(s, t) && Bracket(s.pcs[t]) && Guarantee(s, send)
    ensures Guarantee(RunStep(s, t, false), send)
  {
  }

  lemma {:induction false} BracketKeeps(s: State, t: Task)
    requires Common(s) && MayRun(s, t) && Bracket(s.pcs[t])
    ensures Kept(s, RunStep(s, t, false))
    ensures RunStep(s, t, true) == RunStep(s, t, false)
  {
    BracketCommon(s, t);
    if Guarantee(s, false) { BracketGuarantee(s, t, false); }
    if Guarantee(s, true) { BracketGuarantee(s, t, true); }
    BothKept(s, RunStep(s, t, false));
  }

  lemma {:induction false} RunKeeps(s: State, t: Task, expired: bool)
    requires Common(s) && Enabled(s, Run(t, expired))
    ensures Kept(s, RunStep(s, t, expired))
  {
    match s.pcs[t]
    case Retry(op, zero) => RetryKeeps(s, t);
    case Suspend(op) => BracketKeeps(s, t);
    case LockQueue(op) => BracketKeeps(s, t);
    case Expiry(op) => PlainMoveKeeps(s, t, if expired then UnlockT(op, Expired) else Test(op));
    case Test(op) => PlainMoveKeeps(s, t, if MustWait(s.ctl, op) then PlaceOnList(op) else UnlockT(op, Again));
    case PlaceOnList(op) => PlaceKeeps(s, t);
    case UnlockT(op, after) => UnlockKeeps(s, t);
    case UnlockR(op, after) => UnlockKeeps(s, t);
    case Resume(op, after) => BracketKeeps(s, t);
    case Blocked(op) => PlainMoveKeeps(s, t, Retry(op, false));
    case Recheck(op) => PlainMoveKeeps(s, t, if s.ctl.count == 0 then Idle else Retry(op, true));
  }

  // At most 127 posts from ISRs can be recorded while the queue is locked.
  predicate PostFits(s: State, l: Label) {
    l.IsrSend? ==> s.ctl.txLock < LOCK_MAX
  }

  // At most 127 receives from ISRs can be.
  predicate ReceiveFits(s: State, l: Label) {
    l.IsrReceive? ==> s.ctl.rxLock < LOCK_MAX
  }

  // A reset makes one sender ready, which is enough when no more are waiting.
  predicate ResetFits(s: State, l: Label) {
    l.ResetQueue? ==> |s.ctl.toSend| <= 1
  }

  lemma {:induction false} IsrSendCommon(s: State, l: Label)
    requires Common(s) && Enabled(s, l) && l.IsrSend?
    ensures Common(Next(s, l))
  {
    WakeKeepsSide(s.pcs, s.wokenReceivers, s.ctl.toReceive, 0, false);
    WakeKeepsSide(s.pcs, s.wokenReceivers, s.ctl.toReceive, Taken(s.ctl.toReceive, 1), false);
  }

  // A post cannot take anything from the senders, whatever becomes of its own counter.
  lemma {:induction false} IsrSendKeeps(s: State, l: Label)
    requires Common(s) && Enabled(s, l) && l.IsrSend?
    ensures Common(Next(s, l))
    ensures Guarantee(s, false) && PostFits(s, l) ==> Guarantee(Next(s, l), false)
    ensures Guarantee(s, true) ==> Guarantee(Next(s, l), true)
  {
    IsrSendCommon(s, l);
  }

  lemma {:induction false} IsrReceiveKeeps(s: State, l: Label)
    requires Common(s) && Enabled(s, l) && l.IsrReceive?
    ensures Common(Next(s, l))
    ensures Guarantee(s, false) ==> Guarantee(Next(s, l), false)
    ensures Guarantee(s, true) && ReceiveFits(s, l) ==> Guarantee(Next(s, l), true)
  {
    WakeKeepsSide(s.pcs, s.wokenSenders, s.ctl.toSend, 0, true);
    WakeKeepsSide(s.pcs, s.wokenSenders, s.ctl.toSend, Taken(s.ctl.toSend, 1), true);
  }

  lemma {:induction false} ResetKeeps(s: State, l: Label)
    requires Common(s) && Enabled(s, l) && l.ResetQueue?
    ensures Common(Next(s, l))
    ensures Guarantee(s, false) ==> Guarantee(Next(s, l), false)
    ensures Guarantee(s, true) && ResetFits(s, l) ==> Guarantee(Next(s, l), true)
  {
    WakeKeepsSide(s.pcs, s.wokenSenders, s.ctl.toSend, Taken(s.ctl.toSend, 1), true);
  }

  // Each guarantee depends on its own counter only.
  lemma {:induction false} StepKeeps(s: State, l: Label)
    requires Common(s) && Enabled(s, l)
    ensures Common(Next(s, l))
    ensures Guarantee(s, false) && PostFits(s, l) ==> Guarantee(Next(s, l), false)
    ensures Guarantee(s, true) && ReceiveFits(s, l) && ResetFits(s, l) ==> Guarantee(Next(s, l), true)
  {
    match l
    case Call(t, op, zero) => PlainMoveKeeps(s, t, Retry(op, zero));
    case Run(t, expired) => RunKeeps(s, t, expired);
    case IsrSend(overwrite) => IsrSendKeeps(s, l);
    case IsrReceive => IsrReceiveKeeps(s, l);
    case TimeoutReceiver(i) => TimeoutKeepsSide(s.pcs, s.wokenReceivers, s.ctl.toReceive, i, false);
    case TimeoutSender(i) => TimeoutKeepsSide(s.pcs, s.wokenSenders, s.ctl.toSend, i, true);
    case ResetQueue(t) => ResetKeeps(s, l);
  }

  // ---------------------------------------------------------------- whole runs

  // Nobody is inside a call, nobody waits, the queue is unlocked.
  ghost predicate Initial(s: State) {
    && |s.keys| == |s.pcs| && (forall t :: 0 <= t < |s.pcs| ==> s.pcs[t].Idle?)
    && s.suspender == {} && s.wokenReceivers == [] && s.wokenSenders == []
    && s.ctl.toReceive == [] && s.ctl.toSend == []
    && s.ctl.txLock == UNLOCKED && s.ctl.rxLock == UNLOCKED
    && 0 < s.ctl.length && s.ctl.count <= s.ctl.length
  }

  ghost predicate Legal(s: State, ls: seq<Label>)
    decreases |ls|
  {
    ls == [] || (Enabled(s, ls[0]) && Legal(Next(s, ls[0]), ls[1..]))
  }

  ghost function End(s: State, ls: seq<Label>): State
    requires Legal(s, ls)
    decreases |ls|
  {
    if ls == [] then s else End(Next(s, ls[0]), ls[1..])
  }

  // Every post of the run fits its counter.
  ghost predicate PostsFit(s: State, ls: seq<Label>)
    requires Legal(s, ls)
    decreases |ls|
  {
    ls == [] || (PostFits(s, ls[0]) && PostsFit(Next(s, ls[0]), ls[1..]))
  }

  // Every receive of the run fits its counter, and every reset finds one sender waiting at most.
  ghost predicate ReceivesFit(s: State, ls: seq<Label>)
    requires Legal(s, ls)
    decreases |ls|
  {
    ls == [] || (ReceiveFits(s, ls[0]) && ResetFits(s, ls[0]) && ReceivesFit(Next(s, ls[0]), ls[1..]))
  }

  lemma {:induction false} RunKeepsGuarantees(s: State, ls: seq<Label>)
    requires Common(s) && Legal(s, ls)
    ensures Common(End(s, ls))
    ensures Guarantee(s, false) && PostsFit(s, ls) ==> Guarantee(End(s, ls), false)
    ensures Guarantee(s, true) && ReceivesFit(s, ls) ==> Guarantee(End(s, ls), true)
    decreases |ls|
  {
    if ls != [] {
      StepKeeps(s, ls[0]);
      RunKeepsGuarantees(Next(s, ls[0]), ls[1..]);
    }
  }

  lemma {:induction false} InitiallyGuaranteed(s: State)
    requires Initial(s)
    ensures Common(s) && Guarantee(s, false) && Guarantee(s, true)
  {
  }

  // In every interleaving of tasks, ISRs and time-outs no receiver wake-up is lost.
  lemma {:induction false} NoLostReceiverWakeUp(start: State, ls: seq<Label>)
    requires Initial(start) && Legal(start, ls) && PostsFit(start, ls)
    ensures ReceiversServed(End(start, ls))
  {
    InitiallyGuaranteed(start);
    RunKeepsGuarantees(start, ls);
  }

  // No sender wake-up is lost either, as long as a reset does not find several senders waiting.
  lemma {:induction false} NoLostSenderWakeUp(start: State, ls: seq<Label>)
    requires Initial(start) && Legal(start, ls) && ReceivesFit(start, ls)
    ensures SendersServed(End(start, ls))
  {
    InitiallyGuaranteed(start);
    RunKeepsGuarantees(start, ls);
  }

  // No task can do anything until an ISR, a tick or a new call comes along.
  ghost predicate AtRest(s: State) {
    forall t, e :: !Enabled(s, Run(t, e))
  }

  lemma {:induction false} SuspenderCanRun(s: State, t: Task)
    requires Common(s) && t in s.suspender
    ensures Enabled(s, Run(t, false))
  {
  }

  lemma {:induction false} RestMeansNobodyPending(s: State)
    requires Common(s) && AtRest(s)
    ensures s.suspender == {} && s.wokenReceivers == [] && s.wokenSenders == []
    ensures Guarantee(s, false) ==> s.ctl.txLock == UNLOCKED
    ensures Guarantee(s, true) ==> s.ctl.rxLock == UNLOCKED
  {
    if t :| t in s.suspender {
      SuspenderCanRun(s, t);
    }
    if s.wokenReceivers != [] {
      WokenCanRun(s, s.wokenReceivers, s.ctl.toReceive, false);
    }
    if s.wokenSenders != [] {
      WokenCanRun(s, s.wokenSenders, s.ctl.toSend, true);
    }
  }

  // The first task released from a list is on neither list, so its next step is possible.
  lemma {:induction false} WokenCanRun(s: State, woken: seq<Waiter>, ws: seq<Waiter>, send: bool)
    requires Common(s) && s.suspender == {} && woken != []
    requires if send then woken == s.wokenSenders && ws == s.ctl.toSend
             else woken == s.wokenReceivers && ws == s.ctl.toReceive
    ensures Enabled(s, Run(woken[0].task, false))
  {
    var line := woken + ws;
    forall i | 0 <= i < |ws| ensures ws[i].task != woken[0].task {
      assert line[|woken| + i] == ws[i] && line[0] == woken[0];
    }
  }

  // What the guarantees mean for a user: when the system is at rest, tasks blocked on a receive
  // find the queue empty and tasks blocked on a send find it full.
  lemma {:induction false} BlockedForAReason(start: State, ls: seq<Label>)
    requires Initial(start) && Legal(start, ls) && AtRest(End(start, ls))
    ensures PostsFit(start, ls) && End(start, ls).ctl.toReceive != [] ==> End(start, ls).ctl.count == 0
    ensures ReceivesFit(start, ls) && End(start, ls).ctl.toSend != [] ==>
              End(start, ls).ctl.count == End(start, ls).ctl.length
  {
    InitiallyGuaranteed(start);
    RunKeepsGuarantees(start, ls);
    RestMeansNobodyPending(End(start, ls));
  }

  // ---------------------------------------------------------------- where the code falls short

  // A reset frees every slot but makes only one sender ready: it keeps the sender guarantee exactly
  // when at most one sender waits, or the senders already woken cover the other slots.
  lemma {:induction false} ResetServesSenders(s: State, t: Task)
    requires Common(s) && Enabled(s, ResetQueue(t))
    ensures SendersServed(Next(s, ResetQueue(t))) <==>
            |s.ctl.toSend| <= 1 || s.ctl.length <= |s.wokenSenders| + 1
  {
  }

  // The counters have eight bits, and one more than 127 makes them negative. A post from an ISR keeps
  // the receiver guarantee exactly when its count still fits, unless nobody waits or the receivers
  // already woken cover all messages.
  lemma {:induction false} PostServesReceivers(s: State, l: Label)
    requires Common(s) && Guarantee(s, false) && Enabled(s, l) && l.IsrSend?
    ensures ReceiversServed(Next(s, l)) <==>
            PostFits(s, l) || s.ctl.toReceive == [] || CountAfterCopy(s.ctl, l.overwrite) <= |s.wokenReceivers|
  {
  }

  // The same for a receive and the senders.
  lemma {:induction false} ReceiveServesSenders(s: State)
    requires Common(s) && Guarantee(s, true) && Enabled(s, IsrReceive)
    ensures SendersServed(Next(s, IsrReceive)) <==>
            ReceiveFits(s, IsrReceive) || s.ctl.toSend == []
            || s.ctl.length - (s.ctl.count - 1) <= |s.wokenSenders|
  {
  }
}
