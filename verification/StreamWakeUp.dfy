/**
  Blocking on a stream buffer (FreeRTOS/FreeRTOS/stream_buffer.c): the registration of a waiting
  receiver and a waiting sender, the trigger level test at the end of a send, and the task
  notifications, on top of the ring of StreamProtocol.
 */
module StreamWakeUp {
  import opened Bytes
  import opened StreamProtocol

  // One of the two tasks: whether xTaskWaitingToReceive or xTaskWaitingToSend names it, whether it
  // is inside xTaskNotifyWait, and whether a notification is pending for it.
  datatype Side = Side(registered: bool, blocked: bool, notified: bool) {
    // It sleeps and nothing is on its way to wake it.
    predicate Asleep() { blocked && !notified }
  }

  // The end of a send: xHead has moved and the trigger level is not tested yet, or the test has
  // succeeded and sbSEND_COMPLETED is still to come.
  datatype Sent = Settled | Untested | Passed

  datatype State = State(
    ring: StreamProtocol.State,
    header: nat,      // xBytesToStoreMessageLength: 0 for a stream, 4 for a message buffer
    trigger: nat,     // xTriggerLevelBytes
    receiver: Side,
    sender: Side,
    required: nat,    // the sender's xRequiredSpace
    sent: Sent,
    taken: bool       // a receive has moved xTail and not reached sbRECEIVE_COMPLETED yet
  )

  datatype Label =
    | Ring(l: StreamProtocol.Label)
    | TestTrigger
    | SendCompleted        // sbSEND_COMPLETED
    | ReceiveCompleted     // sbRECEIVE_COMPLETED
    | RegisterReceiver     // the critical section of xStreamBufferReceive
    | RegisterSender(required: nat) // the critical section of xStreamBufferSend
    | ResumeReceiver(timedOut: bool)
    | ResumeSender(timedOut: bool)
    | DeregisterReceiver   // xTaskWaitingToReceive = NULL
    | DeregisterSender
    | SetTrigger(n: nat)   // xStreamBufferSetTriggerLevel

  function Count(r: StreamProtocol.State): nat
    requires InRange(r)
  {
    BytesInBuffer(|r.buffer|, r.head, r.tail)
  }

  function Space(r: StreamProtocol.State): nat
    requires InRange(r)
  {
    SpacesAvailable(|r.buffer|, r.head, r.tail)
  }

  predicate OfReader(l: StreamProtocol.Label) {
    l.ReaderLook? || l.ReaderMark? || l.ReaderBegin? || l.ReaderByte? || l.ReaderPublish? || l.ReaderRestore?
  }

  // A side that sleeps does nothing, and a call starts after the one before it has ended.
  predicate InTurn(s: State, l: StreamProtocol.Label) {
    if OfReader(l) then !s.receiver.blocked && (l.ReaderLook? || l.ReaderMark? ==> !s.taken)
    else !s.sender.blocked && !s.sent.Passed? && (l.WriterLook? ==> s.sent.Settled?)
  }

  predicate Enabled(s: State, l: Label) {
    InRange(s.ring) &&
    match l
    case Ring(r) => StreamProtocol.Enabled(s.ring, r) && InTurn(s, r)
    case TestTrigger => s.sent.Untested? && s.ring.writer.WriterIdle?
    case SendCompleted => s.sent.Passed?
    case ReceiveCompleted => s.taken && s.ring.reader.ReaderIdle?
    case RegisterReceiver => !s.receiver.blocked && !s.receiver.registered && s.ring.reader.ReaderIdle? && !s.taken
    case RegisterSender(_) => !s.sender.blocked && !s.sender.registered && s.ring.writer.WriterIdle? && s.sent.Settled?
    case ResumeReceiver(timedOut) => s.receiver.blocked && (s.receiver.notified || timedOut)
    case ResumeSender(timedOut) => s.sender.blocked && (s.sender.notified || timedOut)
    case DeregisterReceiver => !s.receiver.blocked && s.receiver.registered
    case DeregisterSender => !s.sender.blocked && s.sender.registered
    case SetTrigger(n) => n <= |s.ring.buffer|
  }

  // xTaskNotify of the registered task
  function Notify(t: Side): Side {
    if t.registered then t.(notified := true, registered := false) else t
  }

  function RingStep(s: State, l: StreamProtocol.Label): State
    requires InRange(s.ring) && StreamProtocol.Enabled(s.ring, l)
  {
    s.(ring := StreamProtocol.Next(s.ring, l),
       sent := if l.WriterPublish? then Untested else s.sent,
       taken := l.ReaderPublish? || (s.taken && !l.ReaderRestore?))
  }

  function Next(s: State, l: Label): State
    requires Enabled(s, l)
  {
    match l
    case Ring(r) => RingStep(s, r)
    case TestTrigger => s.(sent := if Count(s.ring) >= s.trigger then Passed else Settled)
    case SendCompleted => s.(sent := Settled, receiver := Notify(s.receiver))
    case ReceiveCompleted => s.(taken := false, sender := Notify(s.sender))
    case RegisterReceiver =>
      var look := RingStep(s, ReaderLook);
      if Count(s.ring) <= s.header then look.(receiver := Side(true, true, false)) else look
    case RegisterSender(required) =>
      var look := RingStep(s, WriterLook).(required := required);
      if Space(s.ring) < required then look.(sender := Side(true, true, false)) else look
    case ResumeReceiver(_) => s.(receiver := s.receiver.(blocked := false, notified := false))
    case ResumeSender(_) => s.(sender := s.sender.(blocked := false, notified := false))
    case DeregisterReceiver => s.(receiver := s.receiver.(registered := false))
    case DeregisterSender => s.(sender := s.sender.(registered := false))
    case SetTrigger(n) => s.(trigger := if n == 0 then 1 else n)
  }

  // ---------------------------------------------------------------- the invariant

  // No lost wake-up of the receiver: while it sleeps and no send is between moving xHead and the
  // notification, it has too little data to be woken for.
  ghost predicate ReceiverServed(s: State) {
    s.receiver.Asleep() && s.sent.Settled? && InRange(s.ring) ==>
      Count(s.ring) < s.trigger || Count(s.ring) <= s.header
  }

  // The same for the sender, which waits for the space of its whole message.
  ghost predicate SenderServed(s: State) {
    s.sender.Asleep() && !s.taken && InRange(s.ring) ==> Space(s.ring) < s.required
  }

  // The same for the space there will be if the reader goes back to xOriginalTail, which it does
  // without notifying anybody.
  ghost predicate RestoreServed(s: State) {
    s.sender.Asleep() && RestoreSafe(s.ring) && InRange(s.ring) && s.ring.originalTail < |s.ring.buffer| ==>
      SpacesAvailable(|s.ring.buffer|, s.ring.head, s.ring.originalTail) < s.required
  }

  // Whoever is asleep can still be reached.
  ghost predicate Inv(s: State) {
    && StreamProtocol.Inv(s.ring)
    && ReceiverServed(s) && SenderServed(s) && RestoreServed(s)
    && (s.receiver.Asleep() ==> s.receiver.registered)
    && (s.sender.Asleep() ==> s.sender.registered)
  }

  // The caller of xStreamBufferSetTriggerLevel sees that nobody waits or that the data in the buffer does
  // not reach the new level; and the reader goes back only when it is safe.
  predicate Careful(s: State, l: Label)
    requires Enabled(s, l)
  {
    && (l.SetTrigger? ==> !s.receiver.blocked || Count(s.ring) < l.n || Count(s.ring) <= s.header)
    && (l.Ring? ==> SafeStep(s.ring, l.l))
  }

  lemma {:induction false} RingStepKeeps(s: State, l: StreamProtocol.Label)
    requires Inv(s) && InRange(s.ring) && StreamProtocol.Enabled(s.ring, l) && InTurn(s, l) && SafeStep(s.ring, l)
    ensures Inv(RingStep(s, l))
  {
    StreamProtocol.StepKeeps(s.ring, l);
  }

  // If the reader may still go back after the sender has looked, it has taken nothing since the mark.
  lemma {:induction false} RegisterSenderKeeps(s: State, l: Label)
    requires Inv(s) && Enabled(s, l) && l.RegisterSender?
    ensures Inv(Next(s, l))
  {
    var r := StreamProtocol.Next(s.ring, WriterLook);
    LookKeeps(s.ring, WriterLook);
    assert RestoreSafe(r) ==> s.ring.mark == |s.ring.got|;
  }

  lemma {:induction false} StepKeeps(s: State, l: Label)
    requires Inv(s) && Enabled(s, l) && Careful(s, l)
    ensures Inv(Next(s, l))
  {
    match l
    case Ring(r) => RingStepKeeps(s, r);
    case RegisterReceiver => StreamProtocol.StepKeeps(s.ring, ReaderLook);
    case RegisterSender(_) => RegisterSenderKeeps(s, l);
    case _ =>
  }

  // Changing the trigger level keeps the receiver's guarantee exactly when the data already there
  // does not reach the new level, unless the receiver is awake or a notification is still to come.
  lemma {:induction false} SetTriggerServes(s: State, n: nat)
    requires Inv(s) && Enabled(s, SetTrigger(n))
    ensures Inv(Next(s, SetTrigger(n))) <==>
            !s.receiver.Asleep() || !s.sent.Settled? || Count(s.ring) < n || Count(s.ring) <= s.header
  {
  }

  // ---------------------------------------------------------------- whole runs

  predicate Initial(s: State) {
    && StreamProtocol.Initial(s.ring) && 0 < s.trigger && s.sent.Settled? && !s.taken
    && s.receiver == s.sender == Side(false, false, false)
  }

  ghost predicate Legal(s: State, ls: seq<Label>)
    decreases |ls|
  {
    ls == [] || (Enabled(s, ls[0]) && Legal(Next(s, ls[0]), ls[1..]))
  }

  // Every step of the run is a careful one.
  ghost predicate AllCareful(s: State, ls: seq<Label>)
    requires Legal(s, ls)
    decreases |ls|
  {
    ls == [] || (Careful(s, ls[0]) && AllCareful(Next(s, ls[0]), ls[1..]))
  }

  ghost function End(s: State, ls: seq<Label>): State
    requires Legal(s, ls)
    decreases |ls|
  {
    if ls == [] then s else End(Next(s, ls[0]), ls[1..])
  }

  lemma {:induction false} RunKeepsInv(s: State, ls: seq<Label>)
    requires Inv(s) && Legal(s, ls) && AllCareful(s, ls)
    ensures Inv(End(s, ls))
    decreases |ls|
  {
    if ls != [] {
      StepKeeps(s, ls[0]);
      RunKeepsInv(Next(s, ls[0]), ls[1..]);
    }
  }

  // Under every interleaving neither side sleeps through what it waits for.
  lemma {:induction false} NoLostWakeUp(start: State, ls: seq<Label>)
    requires Initial(start) && Legal(start, ls) && AllCareful(start, ls)
    ensures InRange(End(start, ls).ring) && ReceiverServed(End(start, ls)) && SenderServed(End(start, ls))
  {
    RunKeepsInv(start, ls);
  }

  // Both sides sleep for good only if the trigger level and the space asked for do not fit the
  // storage area together.
  lemma {:induction false} NoDeadlock(start: State, ls: seq<Label>)
    requires Initial(start) && Legal(start, ls) && AllCareful(start, ls)
    requires var s := End(start, ls);
      s.receiver.Asleep() && s.sender.Asleep() && s.sent.Settled? && !s.taken
    ensures var s := End(start, ls);
      |s.ring.buffer| < s.required + if s.trigger > s.header then s.trigger else s.header + 1
  {
    RunKeepsInv(start, ls);
  }

  // A notification never comes for nothing: the receiver gets one only from a send after which the trigger
  // level was reached, and only while it is registered; the sender only from a receive that took something.
  lemma {:induction false} NotifiedForAReason(s: State, l: Label)
    requires Enabled(s, l)
    ensures Next(s, l).receiver.notified && !s.receiver.notified ==>
              l.SendCompleted? && s.sent.Passed? && s.receiver.registered && !Next(s, l).receiver.registered
    ensures Next(s, l).sender.notified && !s.sender.notified ==>
              l.ReceiveCompleted? && s.taken && s.sender.registered && !Next(s, l).sender.registered
    ensures Next(s, l).sent.Passed? && !s.sent.Passed? ==> l.TestTrigger? && s.trigger <= Count(s.ring)
    ensures Next(s, l).taken && !s.taken ==> l == Ring(ReaderPublish) && s.ring.reader.Reading?
    ensures Next(s, l).trigger != s.trigger ==> l.SetTrigger? && Next(s, l).trigger == if l.n == 0 then 1 else l.n
  {
  }

  // A side goes to sleep exactly if it finds too little, and a notification it did not take before is gone
  // then; it wakes up only by a notification or because its time is up, and uses the notification up.
  lemma {:induction false} BlocksForAReason(s: State, l: Label)
    requires Enabled(s, l)
    ensures Next(s, l).receiver.blocked && !s.receiver.blocked <==> l.RegisterReceiver? && Count(s.ring) <= s.header
    ensures Next(s, l).sender.blocked && !s.sender.blocked <==> l.RegisterSender? && Space(s.ring) < l.required
    ensures l.RegisterReceiver? && Next(s, l).receiver.blocked ==> Next(s, l).receiver == Side(true, true, false)
    ensures l.RegisterSender? && Next(s, l).sender.blocked ==>
              Next(s, l).sender == Side(true, true, false) && Next(s, l).required == l.required
    ensures s.receiver.blocked && !Next(s, l).receiver.blocked <==>
              l.ResumeReceiver? && s.receiver.blocked && (s.receiver.notified || l.timedOut)
    ensures s.sender.blocked && !Next(s, l).sender.blocked <==>
              l.ResumeSender? && s.sender.blocked && (s.sender.notified || l.timedOut)
    ensures l.ResumeReceiver? ==> Next(s, l) == s.(receiver := Side(s.receiver.registered, false, false))
    ensures l.ResumeSender? ==> Next(s, l) == s.(sender := Side(s.sender.registered, false, false))
    ensures l.DeregisterReceiver? ==> Next(s, l) == s.(receiver := Side(false, false, s.receiver.notified))
    ensures l.DeregisterSender? ==> Next(s, l) == s.(sender := Side(false, false, s.sender.notified))
  {
  }

  // ---------------------------------------------------------------- a careless change

  ghost predicate Reachable(s: State) {
    exists start, ls :: Initial(start) && Legal(start, ls) && End(start, ls) == s
  }

  lemma {:induction false} LegalOn(s: State, ls: seq<Label>, l: Label)
    requires Legal(s, ls) && Enabled(End(s, ls), l)
    ensures Legal(s, ls + [l]) && End(s, ls + [l]) == Next(End(s, ls), l)
    decreases |ls|
  {
    if ls == [] {
      assert [l][1..] == [] && Legal(Next(s, l), []);
    } else {
      LegalOn(Next(s, ls[0]), ls[1..], l);
      assert (ls + [l])[1..] == ls[1..] + [l];
    }
  }

  lemma {:induction false} ReachNext(s: State, l: Label)
    requires Reachable(s) && Enabled(s, l)
    ensures Reachable(Next(s, l))
  {
    var start, ls :| Initial(start) && Legal(start, ls) && End(start, ls) == s;
    LegalOn(start, ls, l);
    assert Legal(start, ls + [l]);
  }

  lemma {:induction false} ReachInitial(s: State)
    requires Initial(s)
    ensures Reachable(s)
  {
    assert Legal(s, []) && End(s, []) == s;
  }

  // A step of a writer that is awake, in a system that is otherwise at rest.
  lemma {:induction false} WriterReaches(s: State, l: StreamProtocol.Label, r: StreamProtocol.State)
    requires Reachable(s) && s.sent.Settled? && !s.sender.blocked && !OfReader(l)
    requires InRange(s.ring) && StreamProtocol.Enabled(s.ring, l) && StreamProtocol.Next(s.ring, l) == r
    ensures Reachable(s.(ring := r, sent := if l.WriterPublish? then Untested else Settled))
  {
    ReachNext(s, Ring(l));
  }

  // One byte is published into an empty ring.
  lemma {:induction false} OneByte(r: StreamProtocol.State, b: byte) returns (r1: StreamProtocol.State,
                                   r2: StreamProtocol.State, r3: StreamProtocol.State, r4: StreamProtocol.State)
    requires InRange(r) && r.writer.WriterIdle? && Count(r) == 0 && 2 < |r.buffer|
    ensures StreamProtocol.Enabled(r, WriterLook) && StreamProtocol.Next(r, WriterLook) == r1 && InRange(r1)
    ensures StreamProtocol.Enabled(r1, WriterBegin([b]))
    ensures StreamProtocol.Next(r1, WriterBegin([b])) == r2 && InRange(r2)
    ensures StreamProtocol.Enabled(r2, WriterByte) && StreamProtocol.Next(r2, WriterByte) == r3 && InRange(r3)
    ensures StreamProtocol.Enabled(r3, WriterPublish) && StreamProtocol.Next(r3, WriterPublish) == r4 && InRange(r4)
    ensures r4.writer.WriterIdle? && |r4.buffer| == |r.buffer| && Count(r4) == 1
  {
    r1 := StreamProtocol.Next(r, WriterLook);
    r2 := StreamProtocol.Next(r1, WriterBegin([b]));
    r3 := StreamProtocol.Next(r2, WriterByte);
    r4 := StreamProtocol.Next(r3, WriterPublish);
  }

  // It does not wake a receiver that waits for more.
  lemma {:induction false} OneArrives(s: State, b: byte) returns (z: State)
    requires Reachable(s) && s.sent.Settled? && !s.sender.blocked && 1 < s.trigger
    requires InRange(s.ring) && s.ring.writer.WriterIdle? && Count(s.ring) == 0 && 2 < |s.ring.buffer|
    ensures Reachable(z) && InRange(z.ring) && |z.ring.buffer| == |s.ring.buffer| && Count(z.ring) == 1
    ensures z == s.(ring := z.ring)
  {
    var r1, r2, r3, r4 := OneByte(s.ring, b);
    WriterReaches(s, WriterLook, r1);
    WriterReaches(s.(ring := r1), WriterBegin([b]), r2);
    WriterReaches(s.(ring := r2), WriterByte, r3);
    WriterReaches(s.(ring := r3), WriterPublish, r4);
    z := s.(ring := r4);
    ReachNext(z.(sent := Untested), TestTrigger);
  }

  // Whatever the size of the stream buffer and the trigger level, a run from the beginning leads to a
  // state where lowering the level to one leaves the receiver asleep beside the byte it waits for.
  lemma {:induction false} LoweringLosesWakeUp(start: State)
    requires Initial(start) && 2 < |start.ring.buffer| && 1 < start.trigger && start.header == 0
    ensures exists z ::
      && Reachable(z) && |z.ring.buffer| == |start.ring.buffer| && z.trigger == start.trigger
      && Enabled(z, SetTrigger(1)) && !Careful(z, SetTrigger(1)) && !ReceiverServed(Next(z, SetTrigger(1)))
  {
    ReachInitial(start);
    ReachNext(start, RegisterReceiver);
    var s := Next(start, RegisterReceiver);
    var z := OneArrives(s, 7);
    assert Enabled(z, SetTrigger(1));
  }
}
