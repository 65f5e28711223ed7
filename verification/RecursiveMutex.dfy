/**
  Recursive mutexes (FreeRTOS/FreeRTOS/queue.c). The holder is tested, and the call count read and
  written, without protection; only taking and giving the underlying mutex are critical sections.
  Any number of tasks, any interleaving.
 */
module RecursiveMutex {

  type Task = nat

  const UINT_RANGE: nat := 0x1_0000_0000 // UBaseType_t

  datatype Holder = Free | HeldBy(t: Task)

  // Where a task is in its call.
  datatype Pc =
    | Outside
    | TakeTest         // before the test of pxMutexHolder in xQueueTakeMutexRecursive
    | Taking           // in xQueueSemaphoreTake, running or blocked
    | TakeCount        // before uxRecursiveCallCount is read
    | TakeStore(v: nat)
    | GiveTest
    | GiveCount
    | GiveStore(v: nat)
    | GiveCheck        // before the test for zero
    | Giving           // before the critical section of xQueueGenericSend

  // depth[t]: the takes of task t that succeeded less its gives that succeeded, at call boundaries.
  datatype State = State(count: nat, holder: Holder, calls: nat, pc: map<Task, Pc>, depth: map<Task, nat>)

  datatype Step =
    | Take(t: Task)   // call xQueueTakeMutexRecursive
    | Give(t: Task)   // call xQueueGiveMutexRecursive
    | Run(t: Task)    // the task's next action
    | Fail(t: Task)   // its block time ran out

  predicate Enabled(s: State, step: Step) {
    step.t in s.pc && step.t in s.depth &&
    match step
    case Take(t) => s.pc[t].Outside? && s.depth[t] + 1 < UINT_RANGE
    case Give(t) => s.pc[t].Outside?
    case Run(t) => !s.pc[t].Outside?
    case Fail(t) => s.pc[t].Taking?
  }

  function Go(s: State, t: Task, p: Pc): State {
    s.(pc := s.pc[t := p])
  }

  function Next(s: State, step: Step): State
    requires Enabled(s, step)
  {
    var t := step.t;
    match step
    case Take(_) => Go(s, t, TakeTest)
    case Give(_) => Go(s, t, GiveTest)
    case Fail(_) => Go(s, t, Outside)
    case Run(_) =>
      match s.pc[t]
      case Outside => s
      case TakeTest => Go(s, t, if s.holder == HeldBy(t) then TakeCount else Taking)
      case Taking =>
        if s.count > 0 then Go(s, t, TakeCount).(count := s.count - 1, holder := HeldBy(t)) else s
      case TakeCount => Go(s, t, TakeStore(s.calls))
      case TakeStore(v) => Go(s, t, Outside).(calls := (v + 1) % UINT_RANGE, depth := s.depth[t := s.depth[t] + 1])
      case GiveTest => Go(s, t, if s.holder == HeldBy(t) then GiveCount else Outside)
      case GiveCount => Go(s, t, GiveStore(s.calls))
      case GiveStore(v) => Go(s, t, GiveCheck).(calls := (v + UINT_RANGE - 1) % UINT_RANGE)
      case GiveCheck =>
        if s.calls == 0 then Go(s, t, Giving)
        else Go(s, t, Outside).(depth := s.depth[t := if s.depth[t] > 0 then s.depth[t] - 1 else 0])
      case Giving =>
        var s1 := Go(s, t, Outside).(depth := s.depth[t := if s.depth[t] > 0 then s.depth[t] - 1 else 0]);
        if s.count < 1 then s1.(count := s.count + 1, holder := Free) else s1
  }

  // ---------------------------------------------------------------- the invariant

  // What the holder's place in its call says about the call count.
  ghost predicate HolderFits(p: Pc, calls: nat, depth: nat) {
    match p
    case Outside => calls == depth > 0
    case TakeTest => calls == depth > 0 && depth + 1 < UINT_RANGE
    case Taking => false
    case TakeCount => calls == depth && depth + 1 < UINT_RANGE
    case TakeStore(v) => v == calls == depth && depth + 1 < UINT_RANGE
    case GiveTest => calls == depth > 0
    case GiveCount => calls == depth > 0
    case GiveStore(v) => v == calls == depth > 0
    case GiveCheck => calls + 1 == depth
    case Giving => calls == 0 && depth == 1
  }

  ghost predicate OtherFits(p: Pc, depth: nat) {
    depth == 0 && (p.Outside? || p.TakeTest? || p.Taking? || p.GiveTest?)
  }

  ghost predicate Inv(s: State) {
    && s.pc.Keys == s.depth.Keys
    && (if s.holder.Free? then s.count == 1 && s.calls == 0 else s.count == 0 && s.holder.t in s.pc)
    && (forall t :: t in s.pc ==> s.depth[t] < UINT_RANGE)
    && forall t :: t in s.pc ==>
         if s.holder == HeldBy(t) then HolderFits(s.pc[t], s.calls, s.depth[t]) else OtherFits(s.pc[t], s.depth[t])
  }

  lemma {:induction false} ReleaseKeeps(s: State, t: Task)
    requires Inv(s) && Enabled(s, Run(t)) && s.holder == HeldBy(t) && s.pc[t].Giving?
    ensures Inv(Next(s, Run(t)))
  {
    assert HolderFits(s.pc[t], s.calls, s.depth[t]);
  }

  lemma {:induction false} HolderRunKeeps(s: State, t: Task)
    requires Inv(s) && Enabled(s, Run(t)) && s.holder == HeldBy(t) && !s.pc[t].Giving?
    ensures Inv(Next(s, Run(t)))
  {
    HolderSteps(s, t);
    var n := Next(s, Run(t));
    forall u | u in s.pc && u != t ensures OtherFits(n.pc[u], n.depth[u]) {
      assert OtherFits(s.pc[u], s.depth[u]);
    }
  }

  lemma {:induction false} HolderSteps(s: State, t: Task)
    requires Enabled(s, Run(t)) && s.pc.Keys == s.depth.Keys && HolderFits(s.pc[t], s.calls, s.depth[t])
    requires s.holder == HeldBy(t) && !s.pc[t].Giving? && s.depth[t] < UINT_RANGE
    ensures var n := Next(s, Run(t));
      && n.holder == s.holder && n.count == s.count && n.pc.Keys == s.pc.Keys == n.depth.Keys
      && HolderFits(n.pc[t], n.calls, n.depth[t]) && n.depth[t] < UINT_RANGE
      && forall u :: u in s.pc && u != t ==> n.pc[u] == s.pc[u] && n.depth[u] == s.depth[u]
  {
  }

  lemma {:induction false} OtherRunKeeps(s: State, t: Task)
    requires Inv(s) && Enabled(s, Run(t)) && s.holder != HeldBy(t)
    ensures Inv(Next(s, Run(t)))
  {
    assert OtherFits(s.pc[t], s.depth[t]);
  }

  lemma {:induction false} StepKeeps(s: State, step: Step)
    requires Inv(s) && Enabled(s, step)
    ensures Inv(Next(s, step))
  {
    var t := step.t;
    assert if s.holder == HeldBy(t) then HolderFits(s.pc[t], s.calls, s.depth[t]) else OtherFits(s.pc[t], s.depth[t]);
    if step.Run? {
      if s.holder != HeldBy(t) {
        OtherRunKeeps(s, t);
      } else if s.pc[t].Giving? {
        ReleaseKeeps(s, t);
      } else {
        HolderRunKeeps(s, t);
      }
    }
  }

  // ---------------------------------------------------------------- runs

  // After prvInitialiseMutex.
  ghost predicate Initial(s: State) {
    && s.count == 1 && s.holder == Free && s.calls == 0 && s.pc.Keys == s.depth.Keys
    && forall t :: t in s.pc ==> s.pc[t].Outside? && s.depth[t] == 0
  }

  ghost predicate Legal(s: State, steps: seq<Step>)
    decreases |steps|
  {
    steps == [] || (Enabled(s, steps[0]) && Legal(Next(s, steps[0]), steps[1..]))
  }

  ghost function End(s: State, steps: seq<Step>): State
    requires Legal(s, steps)
    decreases |steps|
  {
    if steps == [] then s else End(Next(s, steps[0]), steps[1..])
  }

  lemma {:induction false} RunKeepsInv(s: State, steps: seq<Step>)
    requires Inv(s) && Legal(s, steps)
    ensures Inv(End(s, steps))
    decreases |steps|
  {
    if steps != [] {
      StepKeeps(s, steps[0]);
      RunKeepsInv(Next(s, steps[0]), steps[1..]);
    }
  }

  // The mutex is available exactly when nobody holds it, two tasks are never inside at once, and
  // between calls the call count is how deep its holder has nested.
  lemma {:induction false} OneHolder(s: State, steps: seq<Step>, t: Task, u: Task)
    requires Initial(s) && Legal(s, steps) && t in End(s, steps).depth && u in End(s, steps).depth
    ensures var z := End(s, steps);
      && (z.count == 1 <==> z.holder.Free?) && z.count <= 1
      && (z.depth[t] > 0 && z.depth[u] > 0 ==> t == u && z.holder == HeldBy(t))
      && (t in z.pc && z.pc[t].Outside? ==> z.depth[t] == if z.holder == HeldBy(t) then z.calls else 0)
  {
    RunKeepsInv(s, steps);
  }

  // The unprotected test of the holder is exact: it passes for the task that is inside, whatever
  // other tasks do meanwhile, and for no other.
  lemma {:induction false} TestIsExact(s: State, steps: seq<Step>, t: Task)
    requires Initial(s) && Legal(s, steps)
    requires t in End(s, steps).pc && t in End(s, steps).depth
    requires End(s, steps).pc[t].TakeTest? || End(s, steps).pc[t].GiveTest?
    ensures var z := End(s, steps); z.holder == HeldBy(t) <==> z.depth[t] > 0
  {
    RunKeepsInv(s, steps);
  }

  // The mutex changes from held to free only when its holder gives it back for the outermost take,
  // and that give always succeeds in making it free.
  lemma {:induction false} ReleasedAtOutermostGive(s: State, steps: seq<Step>, step: Step)
    requires Initial(s) && Legal(s, steps) && Enabled(End(s, steps), step)
    ensures var z := End(s, steps);
      z.holder.HeldBy? && Next(z, step).holder.Free? <==> step.Run? && z.pc[step.t].Giving?
    ensures var z := End(s, steps);
      step.Run? && z.pc[step.t].Giving? ==> z.holder == HeldBy(step.t) && z.depth[step.t] == 1
    ensures var z := End(s, steps);
      step.Run? && z.pc[step.t].GiveCheck? ==> (Next(z, step).pc[step.t].Giving? <==> z.depth[step.t] == 1)
  {
    RunKeepsInv(s, steps);
  }

  // An interleaved take or give of another task never makes the holder lose an update of the count:
  // what it read is still there when it writes.
  lemma {:induction false} NoLostUpdate(s: State, steps: seq<Step>, t: Task)
    requires Initial(s) && Legal(s, steps) && t in End(s, steps).pc
    ensures var z := End(s, steps);
      (z.pc[t].TakeStore? ==> z.pc[t].v == z.calls) && (z.pc[t].GiveStore? ==> z.pc[t].v == z.calls)
  {
    RunKeepsInv(s, steps);
  }

  // ---------------------------------------------------------------- the depth, from the run

  // A take returns success; a give does, after it has passed the test of the holder.
  predicate Takes(s: State, step: Step, t: Task) {
    step == Run(t) && Enabled(s, step) && s.pc[t].TakeStore?
  }

  predicate Gives(s: State, step: Step, t: Task) {
    step == Run(t) && Enabled(s, step) && (s.pc[t].GiveCheck? || s.pc[t].Giving?) && Next(s, step).pc[t].Outside?
  }

  // The takes of task t in the run that succeeded less its gives that succeeded.
  ghost function Nesting(s: State, steps: seq<Step>, t: Task): int
    requires Legal(s, steps)
    decreases |steps|
  {
    if steps == [] then 0
    else
      (if Takes(s, steps[0], t) then 1 else 0) - (if Gives(s, steps[0], t) then 1 else 0)
      + Nesting(Next(s, steps[0]), steps[1..], t)
  }

  lemma {:induction false} DepthStep(s: State, step: Step, t: Task)
    requires Inv(s) && Enabled(s, step) && t in s.depth
    ensures t in Next(s, step).depth
    ensures Next(s, step).depth[t] == s.depth[t] + (if Takes(s, step, t) then 1 else 0)
                                      - (if Gives(s, step, t) then 1 else 0)
  {
    var u := step.t;
    assert if s.holder == HeldBy(u) then HolderFits(s.pc[u], s.calls, s.depth[u]) else OtherFits(s.pc[u], s.depth[u]);
  }

  lemma {:induction false} DepthIsNesting(s: State, steps: seq<Step>, t: Task)
    requires Inv(s) && Legal(s, steps) && t in s.depth
    ensures t in End(s, steps).depth && End(s, steps).depth[t] == s.depth[t] + Nesting(s, steps, t)
    decreases |steps|
  {
    if steps != [] {
      DepthStep(s, steps[0], t);
      StepKeeps(s, steps[0]);
      DepthIsNesting(Next(s, steps[0]), steps[1..], t);
    }
  }

  // In every run a task between two calls holds the mutex exactly when it has taken it more often than
  // given it back, and the call count is by how much.
  lemma {:induction false} HeldWhileNested(s: State, steps: seq<Step>, t: Task)
    requires Initial(s) && Legal(s, steps) && t in End(s, steps).pc && End(s, steps).pc[t].Outside?
    ensures var z := End(s, steps);
      && Nesting(s, steps, t) >= 0
      && (z.holder == HeldBy(t) <==> Nesting(s, steps, t) > 0)
      && (z.holder == HeldBy(t) ==> z.calls == Nesting(s, steps, t))
  {
    RunKeepsInv(s, steps);
    SameTasks(s, steps);
    DepthIsNesting(s, steps, t);
  }

  lemma {:induction false} SameTasks(s: State, steps: seq<Step>)
    requires Inv(s) && Legal(s, steps)
    ensures End(s, steps).depth.Keys == s.depth.Keys
    decreases |steps|
  {
    if steps != [] {
      StepKeeps(s, steps[0]);
      SameTasks(Next(s, steps[0]), steps[1..]);
    }
  }

  // ---------------------------------------------------------------- one call, uninterrupted

  // One call and its actions.
  predicate OneCall(steps: seq<Step>, call: Step) {
    steps != [] && steps[0] == call && forall i :: 0 < i < |steps| ==> steps[i] == Run(call.t)
  }

  predicate Onwards(steps: seq<Step>, t: Task) {
    forall i :: 0 <= i < |steps| ==> steps[i] == Run(t)
  }

  // The actions of task t lead from s to z.
  ghost predicate Leads(s: State, t: Task, z: State) {
    exists steps :: Onwards(steps, t) && Legal(s, steps) && End(s, steps) == z
  }

  lemma {:induction false} LeadsOn(s: State, t: Task, z: State)
    requires Enabled(s, Run(t)) && Leads(Next(s, Run(t)), t, z)
    ensures Leads(s, t, z)
  {
    var steps :| Onwards(steps, t) && Legal(Next(s, Run(t)), steps) && End(Next(s, Run(t)), steps) == z;
    var all := [Run(t)] + steps;
    assert all[1..] == steps;
    assert Onwards(all, t) && Legal(s, all);
  }

  lemma {:induction false} Arrived(s: State, t: Task)
    ensures Leads(s, t, s)
  {
    assert Onwards([], t) && Legal(s, []) && End(s, []) == s;
  }

  lemma {:induction false} Calls(s: State, call: Step, z: State) returns (steps: seq<Step>)
    requires Enabled(s, call) && Leads(Next(s, call), call.t, z)
    ensures OneCall(steps, call) && Legal(s, steps) && End(s, steps) == z
  {
    var rest :| Onwards(rest, call.t) && Legal(Next(s, call), rest) && End(Next(s, call), rest) == z;
    steps := [call] + rest;
    assert steps[1..] == rest;
  }

  // The unprotected counting of a take and of a give.
  lemma {:induction false} CountsUp(s: State, t: Task)
    requires t in s.pc && t in s.depth && s.pc[t].TakeCount? && s.calls + 1 < UINT_RANGE
    ensures Leads(s, t, Go(s, t, Outside).(calls := s.calls + 1, depth := s.depth[t := s.depth[t] + 1]))
  {
    var s1 := Next(s, Run(t));
    var z := Next(s1, Run(t));
    assert z.pc == s.pc[t := Outside];
    Arrived(z, t);
    LeadsOn(s1, t, z);
    LeadsOn(s, t, z);
  }

  lemma {:induction false} CountsDown(s: State, t: Task, z: State)
    requires t in s.pc && t in s.depth && s.pc[t].GiveTest? && s.holder == HeldBy(t) && 0 < s.calls < UINT_RANGE
    requires Leads(Go(s, t, GiveCheck).(calls := s.calls - 1), t, z)
    ensures Leads(s, t, z)
  {
    var s1 := Next(s, Run(t));
    var s2 := Next(s1, Run(t));
    var s3 := Next(s2, Run(t));
    assert s3.pc == s.pc[t := GiveCheck];
    assert s3 == Go(s, t, GiveCheck).(calls := s.calls - 1);
    LeadsOn(s2, t, z);
    LeadsOn(s1, t, z);
    LeadsOn(s, t, z);
  }

  // A take of a mutex that is free or one's own counts one more and returns inside it.
  lemma {:induction false} TakeAlone(s: State, t: Task) returns (steps: seq<Step>)
    requires Inv(s) && Enabled(s, Take(t)) && (s.holder.Free? || s.holder == HeldBy(t))
    ensures OneCall(steps, Take(t)) && Legal(s, steps)
    ensures var z := End(s, steps);
      && z.holder == HeldBy(t) && z.calls == s.calls + 1 && z.pc == s.pc
  {
    assert if s.holder.Free? then s.calls == 0 else HolderFits(s.pc[t], s.calls, s.depth[t]);
    var s1 := Next(s, Take(t));
    var s2 := Next(s1, Run(t));
    var s3 := if s.holder.Free? then Next(s2, Run(t)) else s2;
    CountsUp(s3, t);
    var z := Go(s3, t, Outside).(calls := s3.calls + 1, depth := s3.depth[t := s3.depth[t] + 1]);
    if s.holder.Free? {
      LeadsOn(s2, t, z);
    }
    LeadsOn(s1, t, z);
    steps := Calls(s, Take(t), z);
    assert z.pc == s.pc;
  }

  // The end of a give, after the count has been written.
  lemma {:induction false} CheckEnds(s: State, t: Task) returns (z: State)
    requires t in s.pc && t in s.depth && s.pc[t].GiveCheck? && s.count == 0 && s.holder == HeldBy(t)
    ensures Leads(s, t, z) && z.calls == s.calls && z.pc == s.pc[t := Outside]
    ensures z.holder == (if s.calls == 0 then Free else HeldBy(t)) && z.count == if s.calls == 0 then 1 else 0
  {
    var s1 := Next(s, Run(t));
    if s.calls == 0 {
      z := Next(s1, Run(t));
      Arrived(z, t);
      LeadsOn(s1, t, z);
    } else {
      z := s1;
      Arrived(z, t);
    }
    LeadsOn(s, t, z);
    assert z.pc == s.pc[t := Outside];
  }

  // A give of the holder counts one less and frees the mutex if it was the last one.
  lemma {:induction false} GiveAlone(s: State, t: Task) returns (steps: seq<Step>)
    requires Inv(s) && Enabled(s, Give(t)) && s.holder == HeldBy(t)
    ensures OneCall(steps, Give(t)) && Legal(s, steps)
    ensures var z := End(s, steps);
      && z.calls == s.calls - 1 && z.pc == s.pc
      && z.holder == (if s.calls == 1 then Free else HeldBy(t)) && z.count == if s.calls == 1 then 1 else 0
  {
    assert HolderFits(s.pc[t], s.calls, s.depth[t]);
    var s1 := Next(s, Give(t));
    var z := CheckEnds(Go(s1, t, GiveCheck).(calls := s1.calls - 1), t);
    CountsDown(s1, t, z);
    steps := Calls(s, Give(t), z);
    assert z.pc == s.pc;
  }

  // A give of anybody else changes nothing, and a take waits.
  lemma {:induction false} NotTheHolder(s: State, t: Task) returns (steps: seq<Step>)
    requires Inv(s) && Enabled(s, Give(t)) && s.holder != HeldBy(t)
    ensures OneCall(steps, Give(t)) && Legal(s, steps) && End(s, steps) == s
    ensures Enabled(s, Take(t)) && s.holder.HeldBy? ==>
              var w := Next(Next(s, Take(t)), Run(t)); w.pc[t].Taking? && Enabled(w, Run(t)) && Next(w, Run(t)) == w
  {
    var s1 := Next(s, Give(t));
    var z := Next(s1, Run(t));
    assert z.pc == s.pc;
    Arrived(z, t);
    LeadsOn(s1, t, z);
    steps := Calls(s, Give(t), z);
  }

  // These are actions of task t that end with its block time running out.
  predicate EndsInFail(steps: seq<Step>, t: Task) {
    && steps != [] && steps[|steps| - 1] == Fail(t)
    && forall i :: 0 <= i < |steps| - 1 ==> steps[i] == Run(t)
  }

  // Whoever has taken the mutex does not time out any more.
  lemma {:induction false} PastTaking(s: State, steps: seq<Step>, t: Task)
    requires EndsInFail(steps, t) && t in s.pc && (s.pc[t].TakeCount? || s.pc[t].TakeStore? || s.pc[t].Outside?)
    ensures !Legal(s, steps)
    decreases |steps|
  {
    if Enabled(s, steps[0]) {
      PastTaking(Next(s, steps[0]), steps[1..], t);
    }
  }

  lemma {:induction false} WaitsInVain(s: State, z: State, steps: seq<Step>, t: Task)
    requires t in s.pc && s.pc[t].Outside? && Legal(z, steps) && EndsInFail(steps, t)
    requires z == Go(s, t, TakeTest) || z == Go(s, t, Taking)
    ensures End(z, steps) == s
    decreases |steps|
  {
    var n, rest := Next(z, steps[0]), steps[1..];
    if rest == [] {
      assert n.pc == s.pc;
    } else if n.pc[t].TakeCount? {
      PastTaking(n, rest, t);
    } else {
      assert n.pc == s.pc[t := Taking];
      WaitsInVain(s, n, rest, t);
    }
  }

  // A take that gives up leaves no trace.
  lemma {:induction false} FailedTake(s: State, t: Task, steps: seq<Step>)
    requires Enabled(s, Take(t)) && Legal(Next(s, Take(t)), steps) && EndsInFail(steps, t)
    ensures End(Next(s, Take(t)), steps) == s
  {
    WaitsInVain(s, Next(s, Take(t)), steps, t);
  }
}
