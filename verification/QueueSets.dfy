/**
  Queue sets (FreeRTOS/FreeRTOS/queue.c): posting to a member puts the member's handle into the
  set, at once or, when the member is locked, when it is unlocked. Handles are then selected and
  members received from. Each step is one critical section; an ISR may step while a queue is
  locked, another task may not, because the scheduler is suspended.

  Members are received from only after having been selected, and posted to at the back or the front
  only. Waking the tasks that wait on the set is what QueueProtocol models for any queue.
 */
module QueueSets {
  import opened QueueControl

  // `selected` counts the selections of this member that have not been received yet.
  datatype Member = Member(length: nat, count: nat, inSet: bool, txLock: int, selected: nat)

  // The queue whose lock is held while the scheduler is suspended, if any. The set itself is locked
  // by a task that is about to wait in xQueueSelectFromSet.
  datatype Locked = Nobody | TheSet | OneMember(q: nat)

  datatype State = State(members: seq<Member>, capacity: nat, handles: seq<nat>, locked: Locked, dropped: bool)

  datatype Step =
    | Send(q: nat, front: bool)
    | SendFromISR(q: nat, front: bool)
    | Select                  // xQueueSelectFromSet or xQueueSelectFromSetFromISR finds a handle
    | Receive(q: nat)         // from a task or an ISR
    | LockMember(q: nat)
    | LockSet
    | Unlock
    | Add(q: nat)
    | Remove(q: nat)          // xQueueRemoveFromSet run without interruption

  predicate Enabled(s: State, step: Step) {
    match step
    case Send(q, _) => q < |s.members| && s.locked.Nobody? && s.members[q].count < s.members[q].length
    case SendFromISR(q, _) => q < |s.members| && s.members[q].count < s.members[q].length
    case Select => s.handles != [] && s.handles[0] < |s.members|
    case Receive(q) =>
      q < |s.members| && if s.members[q].inSet then s.members[q].selected > 0 else s.members[q].count > 0
    case LockMember(q) => q < |s.members| && s.locked.Nobody?
    case LockSet => s.locked.Nobody?
    case Unlock => s.locked.TheSet? || (s.locked.OneMember? && s.locked.q < |s.members|)
    case Add(q) => q < |s.members| && s.locked.Nobody? && (CanAdd(s.members[q]) ==> FitsSet(s, q))
    case Remove(q) => q < |s.members| && s.locked.Nobody?
  }

  // How many handles of a queue the set must be able to hold.
  function Needs(m: Member): nat {
    if m.inSet then m.length else 0
  }

  // The lengths of those of the first n queues that are members.
  function Lengths(ms: seq<Member>, n: nat): nat
    requires n <= |ms|
  {
    if n == 0 then 0 else Lengths(ms, n - 1) + Needs(ms[n - 1])
  }

  // Who adds a queue sees to it that the set is as long as its members together, and that no member is
  // longer than its lock can count.
  predicate FitsSet(s: State, q: nat)
    requires q < |s.members|
  {
    Lengths(s.members, |s.members|) + s.members[q].length <= s.capacity && s.members[q].length <= LOCK_MAX
  }

  // prvNotifyQueueSetContainer; `dropped` records that its configASSERT would have failed.
  function Notify(s: State, q: nat, front: bool): State {
    if |s.handles| < s.capacity then s.(handles := if front then [q] + s.handles else s.handles + [q])
    else s.(dropped := true)
  }

  function NotifyTimes(s: State, q: nat, n: nat): State
    decreases n
  {
    if n == 0 then s else NotifyTimes(Notify(s, q, false), q, n - 1)
  }

  function Update(s: State, q: nat, m: Member): State
    requires q < |s.members|
  {
    s.(members := s.members[q := m])
  }

  // xQueueAddToSet and xQueueRemoveFromSet report success.
  predicate CanAdd(m: Member) { !m.inSet && m.count == 0 }
  predicate CanRemove(m: Member) { m.inSet && m.count == 0 }

  function Pending(m: Member): nat {
    if m.txLock > LOCKED_UNMODIFIED then m.txLock else 0
  }

  function Next(s: State, step: Step): State
    requires Enabled(s, step)
  {
    match step
    case Send(q, front) =>
      var m := s.members[q];
      var s1 := Update(s, q, m.(count := m.count + 1));
      if m.inSet then Notify(s1, q, front) else s1
    case SendFromISR(q, front) =>
      var m := s.members[q];
      var s1 := Update(s, q, m.(count := m.count + 1));
      if m.txLock != UNLOCKED then Update(s, q, m.(count := m.count + 1, txLock := Int8Increment(m.txLock)))
      else if m.inSet then Notify(s1, q, front)
      else s1
    case Select =>
      var q := s.handles[0];
      Update(s, q, s.members[q].(selected := s.members[q].selected + 1)).(handles := s.handles[1..])
    case Receive(q) =>
      var m := s.members[q];
      if m.count == 0 then s.(dropped := true)
      else Update(s, q, m.(count := m.count - 1, selected := if m.inSet then m.selected - 1 else m.selected))
    case LockMember(q) => Update(s, q, s.members[q].(txLock := LOCKED_UNMODIFIED)).(locked := OneMember(q))
    case LockSet => s.(locked := TheSet)
    case Unlock =>
      if s.locked.TheSet? then s.(locked := Nobody)
      else
        var q := s.locked.q;
        var m := s.members[q];
        var s1 := if m.inSet then NotifyTimes(s, q, Pending(m)) else s;
        s1.(members := s.members[q := m.(txLock := UNLOCKED)], locked := Nobody)
    case Add(q) => if CanAdd(s.members[q]) then Update(s, q, s.members[q].(inSet := true)) else s
    case Remove(q) => if CanRemove(s.members[q]) then Update(s, q, s.members[q].(inSet := false)) else s
  }

  // ---------------------------------------------------------------- counting

  function Occurrences(handles: seq<nat>, q: nat): nat {
    if handles == [] then 0 else (if handles[0] == q then 1 else 0) + Occurrences(handles[1..], q)
  }

  function AllOccurrences(handles: seq<nat>, n: nat): nat {
    if n == 0 then 0 else AllOccurrences(handles, n - 1) + Occurrences(handles, n - 1)
  }

  lemma {:induction false} OccurrencesOf(a: seq<nat>, b: seq<nat>, q: nat)
    ensures Occurrences(a + b, q) == Occurrences(a, q) + Occurrences(b, q)
  {
    if a == [] {
      assert a + b == b;
    } else {
      OccurrencesOf(a[1..], b, q);
      assert (a + b)[1..] == a[1..] + b;
    }
  }

  lemma {:induction false} OccurrencesNone(handles: seq<nat>, q: nat)
    ensures Occurrences(handles, q) == 0 <==> q !in handles
  {
    if handles != [] {
      OccurrencesNone(handles[1..], q);
    }
  }

  lemma {:induction false} AddHandle(handles: seq<nat>, h: nat, n: nat)
    ensures AllOccurrences([h] + handles, n) == AllOccurrences(handles, n) + if h < n then 1 else 0
  {
    if n > 0 {
      AddHandle(handles, h, n - 1);
      assert ([h] + handles)[1..] == handles;
    }
  }

  lemma {:induction false} HandlesCounted(handles: seq<nat>, n: nat)
    requires forall h :: h in handles ==> h < n
    ensures AllOccurrences(handles, n) == |handles|
  {
    if handles == [] {
      NoOccurrences(n);
    } else {
      assert handles[0] in handles;
      forall h | h in handles[1..] ensures h < n {
        assert h in handles;
      }
      HandlesCounted(handles[1..], n);
      AddHandle(handles[1..], handles[0], n);
      assert [handles[0]] + handles[1..] == handles;
    }
  }

  lemma {:induction false} NoOccurrences(n: nat)
    ensures AllOccurrences([], n) == 0
  {
    if n > 0 {
      NoOccurrences(n - 1);
    }
  }

  // ---------------------------------------------------------------- the invariant

  // What is in a member is announced in the set, waits behind the lock, or has been selected.
  ghost predicate Conserved(handles: seq<nat>, m: Member, q: nat) {
    if m.inSet then m.count == Occurrences(handles, q) + Pending(m) + m.selected
    else Occurrences(handles, q) == 0 && m.selected == 0
  }

  ghost predicate MemberFits(s: State, q: nat)
    requires q < |s.members|
  {
    var m := s.members[q];
    && m.count <= m.length && (m.inSet ==> m.length <= LOCK_MAX)
    && Conserved(s.handles, m, q)
    && (if s.locked == OneMember(q) then m.inSet ==> m.txLock >= LOCKED_UNMODIFIED else m.txLock == UNLOCKED)
  }

  ghost predicate KnownHandles(handles: seq<nat>, n: nat) {
    forall h :: h in handles ==> h < n
  }

  ghost predicate Inv(s: State) {
    && (forall q :: 0 <= q < |s.members| ==> MemberFits(s, q))
    && KnownHandles(s.handles, |s.members|)
    && (s.locked.OneMember? ==> s.locked.q < |s.members|)
    && Lengths(s.members, |s.members|) <= s.capacity
    && !s.dropped
  }

  // ---------------------------------------------------------------- room in the set

  ghost predicate NoMoreThanLength(handles: seq<nat>, ms: seq<Member>) {
    && KnownHandles(handles, |ms|)
    && forall p :: 0 <= p < |ms| ==> Occurrences(handles, p) <= Needs(ms[p])
  }

  lemma {:induction false} OccurrencesBounded(handles: seq<nat>, ms: seq<Member>, q: nat, n: nat)
    requires NoMoreThanLength(handles, ms) && n <= |ms| && q < |ms| && Occurrences(handles, q) < Needs(ms[q])
    ensures AllOccurrences(handles, n) + (if q < n then 1 else 0) <= Lengths(ms, n)
  {
    if n > 0 {
      OccurrencesBounded(handles, ms, q, n - 1);
    }
  }

  // A member that is not fully announced leaves room in a set as long as its members together.
  lemma {:induction false} RoomForHandle(handles: seq<nat>, ms: seq<Member>, q: nat)
    requires NoMoreThanLength(handles, ms) && q < |ms| && Occurrences(handles, q) < Needs(ms[q])
    ensures |handles| < Lengths(ms, |ms|)
  {
    OccurrencesBounded(handles, ms, q, |ms|);
    HandlesCounted(handles, |ms|);
  }

  // s with `extra` more handles of q, and nothing else changed.
  ghost predicate Announced(s: State, s': State, q: nat, extra: nat) {
    && s' == s.(handles := s'.handles)
    && KnownHandles(s'.handles, |s.members|)
    && forall p :: Occurrences(s'.handles, p) == Occurrences(s.handles, p) + if p == q then extra else 0
  }

  lemma {:induction false} NotifyAnnounces(s: State, q: nat, front: bool)
    requires NoMoreThanLength(s.handles, s.members) && q < |s.members|
    requires Occurrences(s.handles, q) < Needs(s.members[q])
    requires Lengths(s.members, |s.members|) <= s.capacity
    ensures Announced(s, Notify(s, q, front), q, 1)
  {
    RoomForHandle(s.handles, s.members, q);
    forall p
      ensures Occurrences(Notify(s, q, front).handles, p) == Occurrences(s.handles, p) + if p == q then 1 else 0 {
      OccurrencesOf(s.handles, [q], p);
      OccurrencesOf([q], s.handles, p);
    }
  }

  lemma {:induction false} NotifyTimesAnnounces(s: State, q: nat, n: nat)
    requires NoMoreThanLength(s.handles, s.members) && q < |s.members|
    requires Occurrences(s.handles, q) + n <= Needs(s.members[q])
    requires Lengths(s.members, |s.members|) <= s.capacity
    ensures Announced(s, NotifyTimes(s, q, n), q, n)
    decreases n
  {
    if n > 0 {
      NotifyAnnounces(s, q, false);
      NotifyTimesAnnounces(Notify(s, q, false), q, n - 1);
    }
  }

  lemma {:induction false} LengthsSame(ms: seq<Member>, ms': seq<Member>, n: nat)
    requires n <= |ms| == |ms'| && forall i :: 0 <= i < n ==> Needs(ms[i]) == Needs(ms'[i])
    ensures Lengths(ms, n) == Lengths(ms', n)
  {
    if n > 0 {
      LengthsSame(ms, ms', n - 1);
    }
  }

  lemma {:induction false} InvBounds(s: State)
    requires Inv(s)
    ensures NoMoreThanLength(s.handles, s.members)
  {
    forall p | 0 <= p < |s.members| ensures Occurrences(s.handles, p) <= Needs(s.members[p]) {
      assert MemberFits(s, p);
    }
  }

  // ---------------------------------------------------------------- steps

  // Replacing member q and announcing it `extra` times.
  lemma {:induction false} Replaced(s: State, s': State, q: nat, m: Member, extra: nat, locked: Locked)
    requires Inv(s) && q < |s.members| && m.length == s.members[q].length
    requires m.inSet && !s.members[q].inSet ==> FitsSet(s, q)
    requires Announced(Update(s, q, m).(locked := locked), s', q, extra)
    requires MemberFits(s', q)
    requires forall p :: 0 <= p < |s.members| && p != q ==> (s.locked == OneMember(p) <==> locked == OneMember(p))
    requires locked.OneMember? ==> locked.q < |s.members|
    ensures Inv(s')
  {
    LengthsUpdate(s.members, q, m, |s.members|);
    forall p | 0 <= p < |s'.members| ensures MemberFits(s', p) {
      assert MemberFits(s, p);
    }
  }

  lemma {:induction false} LengthsUpdate(ms: seq<Member>, q: nat, m: Member, n: nat)
    requires n <= |ms| && q < |ms|
    ensures Lengths(ms[q := m], n) == Lengths(ms, n) + if q < n then Needs(m) - Needs(ms[q]) else 0
  {
    if n > 0 {
      LengthsUpdate(ms, q, m, n - 1);
    }
  }

  lemma {:induction false} PostKeeps(s: State, q: nat, front: bool)
    requires Inv(s) && q < |s.members| && s.members[q].count < s.members[q].length && s.members[q].txLock == UNLOCKED
    ensures var m := s.members[q];
      var s1 := Update(s, q, m.(count := m.count + 1));
      Inv(if m.inSet then Notify(s1, q, front) else s1)
  {
    var m := s.members[q];
    var m' := m.(count := m.count + 1);
    var s1 := Update(s, q, m');
    assert MemberFits(s, q);
    InvBounds(s);
    LengthsSame(s.members, s1.members, |s.members|);
    if m.inSet {
      NotifyAnnounces(s1, q, front);
      Replaced(s, Notify(s1, q, front), q, m', 1, s.locked);
    } else {
      Replaced(s, s1, q, m', 0, s.locked);
    }
  }

  lemma {:induction false} PostLockedKeeps(s: State, q: nat, front: bool)
    requires Inv(s) && Enabled(s, SendFromISR(q, front)) && s.members[q].txLock != UNLOCKED
    ensures Inv(Next(s, SendFromISR(q, front)))
  {
    var m := s.members[q];
    assert MemberFits(s, q);
    Replaced(s, Next(s, SendFromISR(q, front)), q,
             m.(count := m.count + 1, txLock := Int8Increment(m.txLock)), 0, s.locked);
  }

  lemma {:induction false} SelectKeeps(s: State)
    requires Inv(s) && Enabled(s, Select)
    ensures Inv(Next(s, Select))
  {
    var s', q := Next(s, Select), s.handles[0];
    LengthsSame(s.members, s'.members, |s.members|);
    forall h | h in s.handles[1..] ensures h < |s.members| {
      assert h in s.handles;
    }
    forall p | 0 <= p < |s'.members| ensures MemberFits(s', p) {
      assert MemberFits(s, p);
    }
  }

  // A selected member has something to receive.
  lemma {:induction false} ReceiveKeeps(s: State, q: nat)
    requires Inv(s) && Enabled(s, Receive(q))
    ensures s.members[q].count > 0 && Inv(Next(s, Receive(q)))
  {
    var m := s.members[q];
    assert MemberFits(s, q);
    Replaced(s, Next(s, Receive(q)), q,
             m.(count := m.count - 1, selected := if m.inSet then m.selected - 1 else m.selected), 0, s.locked);
  }

  lemma {:induction false} UnlockKeeps(s: State)
    requires Inv(s) && Enabled(s, Unlock)
    ensures Inv(Next(s, Unlock))
  {
    if s.locked.TheSet? {
      forall p | 0 <= p < |s.members| ensures MemberFits(Next(s, Unlock), p) {
        assert MemberFits(s, p);
      }
    } else {
      var q := s.locked.q;
      var m := s.members[q];
      assert MemberFits(s, q);
      InvBounds(s);
      if m.inSet {
        NotifyTimesAnnounces(s, q, Pending(m));
        Replaced(s, Next(s, Unlock), q, m.(txLock := UNLOCKED), Pending(m), Nobody);
      } else {
        Replaced(s, Next(s, Unlock), q, m.(txLock := UNLOCKED), 0, Nobody);
      }
    }
  }

  lemma {:induction false} LockKeeps(s: State, step: Step)
    requires Inv(s) && (step.LockMember? || step.LockSet?) && Enabled(s, step)
    ensures Inv(Next(s, step))
  {
    if step.LockMember? {
      assert MemberFits(s, step.q);
      Replaced(s, Next(s, step), step.q, s.members[step.q].(txLock := LOCKED_UNMODIFIED), 0, OneMember(step.q));
    } else {
      forall p | 0 <= p < |s.members| ensures MemberFits(Next(s, step), p) {
        assert MemberFits(s, p);
      }
    }
  }

  lemma {:induction false} MembershipKeeps(s: State, step: Step)
    requires Inv(s) && (step.Add? || step.Remove?) && Enabled(s, step)
    ensures Inv(Next(s, step))
  {
    var m := s.members[step.q];
    assert MemberFits(s, step.q);
    if step.Add? && CanAdd(m) {
      Replaced(s, Next(s, step), step.q, m.(inSet := true), 0, s.locked);
    }
    if step.Remove? && CanRemove(m) {
      Replaced(s, Next(s, step), step.q, m.(inSet := false), 0, s.locked);
    }
  }

  lemma {:induction false} StepKeeps(s: State, step: Step)
    requires Inv(s) && Enabled(s, step)
    ensures Inv(Next(s, step))
  {
    match step
    case Send(q, front) =>
      assert MemberFits(s, q);
      PostKeeps(s, q, front);
    case SendFromISR(q, front) =>
      if s.members[q].txLock == UNLOCKED {
        PostKeeps(s, q, front);
      } else {
        PostLockedKeeps(s, q, front);
      }
    case Select => SelectKeeps(s);
    case Receive(q) => ReceiveKeeps(s, q);
    case LockMember(q) => LockKeeps(s, step);
    case LockSet => LockKeeps(s, step);
    case Unlock => UnlockKeeps(s);
    case Add(q) => MembershipKeeps(s, step);
    case Remove(q) => MembershipKeeps(s, step);
  }

  // ---------------------------------------------------------------- runs

  ghost predicate Initial(s: State) {
    && (forall q :: 0 <= q < |s.members| ==>
          var m := s.members[q]; m.count == 0 && !m.inSet && m.txLock == UNLOCKED && m.selected == 0)
    && s.handles == [] && s.locked.Nobody? && !s.dropped
  }

  ghost predicate Legal(s: State, steps: seq<Step>)
    decreases |steps|
  {
    steps == [] || (Enabled(s, steps[0]) && Legal(Next(s, steps[0]), steps[1..]))
  }

  ghost function End(s: State, steps: seq<Step>): State
    requires Legal(s, steps)
    decreases |steps|
  {
    if steps == [] then s else End(Next(s, steps[0]), steps[1..])
  }

  lemma {:induction false} NoMembers(ms: seq<Member>, n: nat)
    requires n <= |ms| && forall q :: 0 <= q < |ms| ==> !ms[q].inSet
    ensures Lengths(ms, n) == 0
  {
    if n > 0 {
      NoMembers(ms, n - 1);
    }
  }

  lemma {:induction false} InitialHolds(s: State)
    requires Initial(s)
    ensures Inv(s)
  {
    NoMembers(s.members, |s.members|);
  }

  lemma {:induction false} RunKeepsInv(s: State, steps: seq<Step>)
    requires Inv(s) && Legal(s, steps)
    ensures Inv(End(s, steps))
    decreases |steps|
  {
    if steps != [] {
      StepKeeps(s, steps[0]);
      RunKeepsInv(Next(s, steps[0]), steps[1..]);
    }
  }

  // In every reachable state each message of a member is accounted for once, and the set was never
  // found full nor a selected member empty.
  lemma {:induction false} EveryMessageAnnounced(s: State, steps: seq<Step>, q: nat)
    requires Initial(s) && Legal(s, steps) && q < |End(s, steps).members|
    ensures var z := End(s, steps);
      var m := z.members[q];
      && !z.dropped
      && (m.inSet ==> m.count == Occurrences(z.handles, q) + Pending(m) + m.selected)
      && (m.inSet ==> m.txLock < LOCK_MAX || m.count == m.length)
  {
    InitialHolds(s);
    RunKeepsInv(s, steps);
    assert MemberFits(End(s, steps), q);
  }

  // A removal that succeeds leaves no handle of the queue behind, in the set or in somebody's hands.
  lemma {:induction false} RemovalLeavesNoHandle(s: State, steps: seq<Step>, q: nat)
    requires Initial(s) && Legal(s, steps) && Enabled(End(s, steps), Remove(q))
    ensures var z := End(s, steps);
      CanRemove(z.members[q]) ==> q !in Next(z, Remove(q)).handles && Next(z, Remove(q)).members[q].selected == 0
  {
    var z := End(s, steps);
    InitialHolds(s);
    RunKeepsInv(s, steps);
    StepKeeps(z, Remove(q));
    assert MemberFits(Next(z, Remove(q)), q);
    OccurrencesNone(Next(z, Remove(q)).handles, q);
  }

  // xQueueRemoveFromSet tests the queue before it enters its critical section. What that section
  // alone does:
  function Detach(s: State, q: nat): State
    requires q < |s.members|
  {
    Update(s, q, s.members[q].(inSet := false))
  }

  // The section leaves something behind exactly when the queue holds a message by then.
  lemma {:induction false} DetachLeavesHandleIff(s: State, steps: seq<Step>, q: nat)
    requires Initial(s) && Legal(s, steps)
    requires var z := End(s, steps); q < |z.members| && z.members[q].inSet && z.locked.Nobody?
    ensures var z := End(s, steps);
      (q in Detach(z, q).handles || Detach(z, q).members[q].selected > 0) <==> z.members[q].count > 0
  {
    var z := End(s, steps);
    InitialHolds(s);
    RunKeepsInv(s, steps);
    assert MemberFits(z, q);
    OccurrencesNone(z.handles, q);
  }

  // That happens when an ISR posts between the test and the section.
  lemma {:induction false} RemovalRace()
    ensures exists s: State, steps: seq<Step> ::
      && Initial(s) && Legal(s, steps) && |End(s, steps).members| > 0
      && CanRemove(End(s, steps).members[0]) && Enabled(End(s, steps), SendFromISR(0, false))
      && 0 in Detach(Next(End(s, steps), SendFromISR(0, false)), 0).handles
  {
    var s := State([Member(1, 0, false, UNLOCKED, 0)], 1, [], Nobody, false);
    var steps := [Add(0)];
    var z := Next(s, Add(0));
    assert steps[1..] == [] && End(s, steps) == End(z, []) == z;
    assert Legal(z, []) && Legal(s, steps);
    assert Next(z, SendFromISR(0, false)).handles == [0];
  }

  // ---------------------------------------------------------------- the order of the handles

  // Member q posts, and nothing keeps it from being announced at once.
  predicate PostsAtOnce(s: State, step: Step, front: bool) {
    match step
    case Send(q, f) => f == front && q < |s.members| && s.members[q].inSet
    case SendFromISR(q, f) => f == front && q < |s.members| && s.members[q].inSet && s.members[q].txLock == UNLOCKED
    case _ => false
  }

  // The handles a step puts behind those in the set.
  function AtBack(s: State, step: Step): seq<nat>
    requires Enabled(s, step)
  {
    if PostsAtOnce(s, step, false) then [step.q]
    else if step.Unlock? && s.locked.OneMember? && s.members[s.locked.q].inSet then
      seq(if s.members[s.locked.q].txLock > 0 then s.members[s.locked.q].txLock else 0, _ => s.locked.q)
    else []
  }

  function AtFront(s: State, step: Step): seq<nat> {
    if PostsAtOnce(s, step, true) then [step.q] else []
  }

  function Chosen(s: State, step: Step): seq<nat> {
    if step.Select? && s.handles != [] then [s.handles[0]] else []
  }

  // The handles of a queue that is announced n times follow those that are there.
  lemma {:induction false} NotifiedBehind(s: State, q: nat, n: nat)
    requires NoMoreThanLength(s.handles, s.members) && q < |s.members|
    requires Occurrences(s.handles, q) + n <= Needs(s.members[q])
    requires Lengths(s.members, |s.members|) <= s.capacity
    ensures NotifyTimes(s, q, n).handles == s.handles + seq(n, _ => q)
    decreases n
  {
    if n > 0 {
      var s1 := Notify(s, q, false);
      NotifyAnnounces(s, q, false);
      NotifiedOnce(s, q, false);
      NotifiedBehind(s1, q, n - 1);
      assert [q] + seq(n - 1, _ => q) == seq(n, _ => q);
      assert (s.handles + [q]) + seq(n - 1, _ => q) == s.handles + ([q] + seq(n - 1, _ => q));
    }
  }

  lemma {:induction false} NotifiedOnce(s: State, q: nat, front: bool)
    requires NoMoreThanLength(s.handles, s.members) && q < |s.members|
    requires Occurrences(s.handles, q) < Needs(s.members[q]) && Lengths(s.members, |s.members|) <= s.capacity
    ensures Notify(s, q, front).handles == if front then [q] + s.handles else s.handles + [q]
  {
    RoomForHandle(s.handles, s.members, q);
  }

  lemma {:induction false} PostsInOrder(s: State, step: Step)
    requires Inv(s) && Enabled(s, step) && (step.Send? || step.SendFromISR?)
    ensures Next(s, step).handles == AtFront(s, step) + s.handles + AtBack(s, step)
  {
    var m := s.members[step.q];
    var s1 := Update(s, step.q, m.(count := m.count + 1));
    assert MemberFits(s, step.q);
    InvBounds(s);
    LengthsSame(s.members, s1.members, |s.members|);
    if m.inSet && m.txLock == UNLOCKED {
      NotifiedOnce(s1, step.q, step.front);
    }
    assert [] + s.handles + [] == s.handles;
  }

  lemma {:induction false} UnlocksInOrder(s: State)
    requires Inv(s) && Enabled(s, Unlock)
    ensures Next(s, Unlock).handles == s.handles + AtBack(s, Unlock)
  {
    if s.locked.OneMember? {
      assert MemberFits(s, s.locked.q);
      InvBounds(s);
      if s.members[s.locked.q].inSet {
        NotifiedBehind(s, s.locked.q, Pending(s.members[s.locked.q]));
      }
    }
    assert s.handles + [] == s.handles;
  }

  // A post to the back goes behind the handles in the set, one to the front before them, an unlock puts
  // the counted ones behind them, and a selection takes the first.
  lemma {:induction false} HandlesInOrder(s: State, step: Step)
    requires Inv(s) && Enabled(s, step)
    ensures Chosen(s, step) + Next(s, step).handles == AtFront(s, step) + s.handles + AtBack(s, step)
  {
    if step.Send? || step.SendFromISR? {
      PostsInOrder(s, step);
      Alone(AtFront(s, step) + s.handles + AtBack(s, step));
    } else if step.Unlock? {
      UnlocksInOrder(s);
      Alone(s.handles);
      Alone(Next(s, step).handles);
    } else if step.Select? {
      assert s.handles == [s.handles[0]] + s.handles[1..];
      Alone(s.handles);
    } else {
      Alone(s.handles);
    }
  }

  lemma {:induction false} Alone(handles: seq<nat>)
    ensures [] + handles == handles + [] == handles
  {
  }

  // All posts of the run go to the back.
  predicate BackOnly(steps: seq<Step>) {
    forall i :: 0 <= i < |steps| ==>
      (steps[i].Send? ==> !steps[i].front) && (steps[i].SendFromISR? ==> !steps[i].front)
  }

  ghost function Announcements(s: State, steps: seq<Step>): seq<nat>
    requires Legal(s, steps)
    decreases |steps|
  {
    if steps == [] then [] else AtBack(s, steps[0]) + Announcements(Next(s, steps[0]), steps[1..])
  }

  ghost function Selections(s: State, steps: seq<Step>): seq<nat>
    requires Legal(s, steps)
    decreases |steps|
  {
    if steps == [] then [] else Chosen(s, steps[0]) + Selections(Next(s, steps[0]), steps[1..])
  }

  lemma {:induction false} RunInOrder(s: State, steps: seq<Step>)
    requires Inv(s) && Legal(s, steps) && BackOnly(steps)
    ensures Selections(s, steps) + End(s, steps).handles == s.handles + Announcements(s, steps)
    decreases |steps|
  {
    if steps == [] {
      Alone(s.handles);
    } else {
      var s1, rest := Next(s, steps[0]), steps[1..];
      StepKeeps(s, steps[0]);
      HandlesInOrder(s, steps[0]);
      RunInOrder(s1, rest);
      Alone(s.handles);
      Regroup(Chosen(s, steps[0]), Selections(s1, rest), End(s1, rest).handles);
      Regroup(Chosen(s, steps[0]), s1.handles, Announcements(s1, rest));
      Regroup(s.handles, AtBack(s, steps[0]), Announcements(s1, rest));
    }
  }

  lemma {:induction false} Regroup(a: seq<nat>, b: seq<nat>, c: seq<nat>)
    ensures (a + b) + c == a + (b + c)
  {
  }

  // Members are selected in the order in which their posts were announced, and the handles in the set are
  // the announcements that have not been selected yet.
  lemma {:induction false} SelectedInOrder(s: State, steps: seq<Step>)
    requires Initial(s) && Legal(s, steps) && BackOnly(steps)
    ensures Selections(s, steps) + End(s, steps).handles == Announcements(s, steps)
  {
    InitialHolds(s);
    RunInOrder(s, steps);
    Alone(Announcements(s, steps));
  }

  // ---------------------------------------------------------------- what is in a queue, and membership

  // The posts to a queue less the receives from it.
  function Balance(step: Step, q: nat): int {
    match step
    case Send(p, _) => if p == q then 1 else 0
    case SendFromISR(p, _) => if p == q then 1 else 0
    case Receive(p) => if p == q then -1 else 0
    case _ => 0
  }

  ghost function Posted(steps: seq<Step>, q: nat): int {
    if steps == [] then 0 else Balance(steps[0], q) + Posted(steps[1..], q)
  }

  lemma {:induction false} StepCounts(s: State, step: Step, q: nat)
    requires Inv(s) && Enabled(s, step) && q < |s.members|
    ensures |Next(s, step).members| == |s.members|
    ensures Next(s, step).members[q].count == s.members[q].count + Balance(step, q)
    ensures Next(s, step).members[q].inSet ==
            if step == Add(q) then s.members[q].inSet || s.members[q].count == 0
            else if step == Remove(q) then s.members[q].inSet && s.members[q].count > 0 else s.members[q].inSet
  {
    if step.Receive? {
      ReceiveKeeps(s, step.q);
    } else if step.Unlock? && s.locked.OneMember? {
      UnlockLeaves(s, s.locked.q, Pending(s.members[s.locked.q]));
    }
  }

  lemma {:induction false} UnlockLeaves(s: State, q: nat, n: nat)
    ensures NotifyTimes(s, q, n).members == s.members
    decreases n
  {
    if n > 0 {
      UnlockLeaves(Notify(s, q, false), q, n - 1);
    }
  }

  // A queue holds what has been posted to it and not received, and it joins the set only while it is empty
  // and leaves it only then.
  lemma {:induction false} CountIsBalance(s: State, steps: seq<Step>, q: nat)
    requires Inv(s) && Legal(s, steps) && q < |s.members|
    ensures |End(s, steps).members| == |s.members|
    ensures End(s, steps).members[q].count == s.members[q].count + Posted(steps, q)
    decreases |steps|
  {
    if steps != [] {
      StepKeeps(s, steps[0]);
      StepCounts(s, steps[0], q);
      CountIsBalance(Next(s, steps[0]), steps[1..], q);
    }
  }

  // A lock begins with its own count at zero, and an unlock ends it, whatever is locked.
  lemma {:induction false} LocksInTurn(s: State, step: Step)
    requires Inv(s) && Enabled(s, step)
    ensures Next(s, step).locked == match step
                                    case LockMember(q) => OneMember(q)
                                    case LockSet => TheSet
                                    case Unlock => Nobody
                                    case _ => s.locked
    ensures step.LockMember? ==> Next(s, step).members[step.q].txLock == LOCKED_UNMODIFIED
    ensures step.Unlock? ==>
              forall q :: 0 <= q < |Next(s, step).members| ==> Next(s, step).members[q].txLock == UNLOCKED
  {
    StepKeeps(s, step);
    if step.Unlock? {
      forall q | 0 <= q < |Next(s, step).members| ensures Next(s, step).members[q].txLock == UNLOCKED {
        assert MemberFits(Next(s, step), q);
      }
    } else if (step.Send? || step.SendFromISR?) && s.members[step.q].inSet && s.members[step.q].txLock == UNLOCKED {
      PostsInOrder(s, step);
    }
  }
}
