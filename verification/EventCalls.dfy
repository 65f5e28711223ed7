/**
  What each call on an event group does, in bits and tasks, on top of the runs of EventProtocol.
 */
module EventCalls {
  import opened RingList
  import opened EventBits
  import opened EventProtocol

  // All the bits of the mask are set, or one of them is.
  ghost predicate Met(bits: Word, mask: Word, all: bool) {
    if all then forall b :: b in mask ==> b in bits else exists b :: b in mask && b in bits
  }

  // A blocked task whose condition these bits meet, and which will return them.
  ghost predicate LetGo(p: Phase, p': Phase, bits: Word) {
    && p.Waiting? && Met(bits, p.mask, p.all) && p'.Woken?
    && p'.mask == p.mask && p'.clear == p.clear && p'.all == p.all
    && UNBLOCKED_DUE_TO_BIT_SET in p'.item && Mask(p'.item) == bits
  }

  ghost predicate LetGoOrSame(p: Phase, p': Phase, bits: Word) {
    LetGo(p, p', bits) || (p' == p && (p.Waiting? ==> !Met(bits, p.mask, p.all)))
  }

  // A walk releases exactly the blocked tasks whose condition the bits meet.
  lemma {:induction false} ReleasedExactly(s: State, bits: Word, u: Task)
    requires Inv(s) && Plain(bits) && u in s.tasks
    ensures LetGoOrSame(s.tasks[u], WokenBy(s.group.waiting, s.group.bits + bits, u, s.tasks[u]), s.group.bits + bits)
  {
    var p, now := s.tasks[u], s.group.bits + bits;
    if p.Waiting? {
      var w := EntryOf(s, u);
      ConditionMeans(now, p.mask, p.all);
      EncodeRoundTrip({}, p.clear, p.all, now);
      if v :| v in s.group.waiting && v.who == u && Matches(v.value, now) {
        assert EntryFits(v, s.tasks) && EntryFits(w, s.tasks);
      }
    }
  }

  // A bit that is set and that no task released by these bits has asked to be cleared.
  ghost predicate Left(s: State, bits: Word, x: nat) {
    x in bits && !exists u :: u in s.tasks && Claims(s.tasks[u], bits, x)
  }

  // xEventGroupSetBits
  lemma {:induction false} SetExactly(s: State, t: Task, bits: Word, u: Task, x: nat)
    requires Inv(s) && Enabled(s, DoSet(t, bits)) && u in s.tasks
    ensures var z, now := Next(s, DoSet(t, bits)).state, s.group.bits + bits;
      && (x in z.group.bits <==> Left(s, now, x))
      && z.tasks.Keys == s.tasks.Keys
      && if u == t then z.tasks[u].Setting? else LetGoOrSame(s.tasks[u], z.tasks[u], now)
  {
    ClaimedOrLeft(s, bits, x);
    ReleasedExactly(s, bits, u);
  }

  // xEventGroupClearBits
  lemma {:induction false} ClearExactly(s: State, t: Task, bits: Word)
    requires Enabled(s, DoClear(t, bits))
    ensures var n := Next(s, DoClear(t, bits));
      && n.reply == Returns(s.group.bits) && n.state == s.(group := s.group.(bits := n.state.group.bits))
      && forall b :: b in n.state.group.bits <==> b in s.group.bits && b !in bits
  {
  }

  // xEventGroupWaitBits: if the condition is met it returns the bits as they were, and clears those it
  // waited for if asked to; otherwise it blocks, or without a block time returns and changes nothing.
  lemma {:induction false} WaitExactly(s: State, step: Step)
    requires Enabled(s, step) && step.DoWait?
    ensures var z, reply := Next(s, step).state, Next(s, step).reply;
      if Met(s.group.bits, step.mask, step.all) then
        && reply == Returns(s.group.bits) && z.tasks == s.tasks && z.group.waiting == s.group.waiting
        && forall b :: b in z.group.bits <==> b in s.group.bits && !(step.clear && b in step.mask)
      else if step.mayBlock then
        && reply == Blocks && z.tasks == s.tasks[step.t := Waiting(step.mask, step.clear, step.all)]
        && z.group.bits == s.group.bits && Joined(s.group.waiting, z.group.waiting, step.t)
      else reply == Returns(s.group.bits) && z == s
  {
    ConditionMeans(s.group.bits, step.mask, step.all);
  }

  // A new entry of task t at the end.
  ghost predicate Joined(before: seq<Waiter<Task>>, after: seq<Waiter<Task>>, t: Task) {
    |after| == |before| + 1 && after[..|before|] == before && after[|before|].who == t
  }

  // xEventGroupSync: if its own bits complete the mask it returns all of them and leaves none of the mask
  // set; otherwise it blocks, or without a block time returns what is left.
  lemma {:induction false} SyncExactly(s: State, step: Step, u: Task, x: nat)
    requires Inv(s) && Enabled(s, step) && step.DoSync? && u in s.tasks
    ensures var z, reply, now := Next(s, step).state, Next(s, step).reply, s.group.bits + step.bits;
      var met := Met(now, step.mask, true);
      && (x in z.group.bits <==> Left(s, now, x) && !(met && x in step.mask))
      && z.tasks.Keys == s.tasks.Keys
      && (if u != step.t then LetGoOrSame(s.tasks[u], z.tasks[u], now)
          else z.tasks[u] == if met || !step.mayBlock then Outside else Waiting(step.mask, true, true))
      && reply == (if met then Returns(now) else if step.mayBlock then Blocks else Returns(z.group.bits))
  {
    ConditionMeans(s.group.bits + step.bits, step.mask, true);
    ClaimedOrLeft(s, step.bits, x);
    ReleasedExactly(s, step.bits, u);
  }

  // A time-out takes the task off the list, not released, and changes nothing else.
  lemma {:induction false} TimeOutExactly(s: State, k: nat)
    requires Inv(s) && Enabled(s, TimeOut(k))
    ensures var z, t := Next(s, TimeOut(k)).state, s.group.waiting[k].who;
      var p := s.tasks[t];
      && z.group.bits == s.group.bits && z.tasks.Keys == s.tasks.Keys
      && (forall w :: w in z.group.waiting <==> w in s.group.waiting && w.who != t)
      && (forall u :: u in s.tasks && u != t ==> z.tasks[u] == s.tasks[u])
      && z.tasks[t].Woken? && UNBLOCKED_DUE_TO_BIT_SET !in z.tasks[t].item
      && z.tasks[t].mask == p.mask && z.tasks[t].clear == p.clear && z.tasks[t].all == p.all
  {
    var w := s.group.waiting[k];
    var p := s.tasks[w.who];
    assert EntryFits(w, s.tasks);
    EncodeRoundTrip(p.mask, p.clear, p.all, {});
    OneLeaves(s.group.waiting, k);
  }

  // The second half of a call that blocked. A released task returns the bits that released it and leaves
  // the group alone; one that timed out returns the bits as they are now, and clears those it waited for
  // if they are met by now and it asked for that.
  lemma {:induction false} ResumeExactly(s: State, t: Task)
    requires Inv(s) && Enabled(s, Resume(t))
    ensures var z, reply, p := Next(s, Resume(t)).state, Next(s, Resume(t)).reply, s.tasks[t];
      && z.tasks == s.tasks[t := Outside] && z.group.waiting == s.group.waiting
      && if UNBLOCKED_DUE_TO_BIT_SET in p.item then reply == Returns(Mask(p.item)) && z.group.bits == s.group.bits
         else
           && reply == Returns(s.group.bits)
           && forall b :: b in z.group.bits <==>
                b in s.group.bits && !(p.clear && Met(s.group.bits, p.mask, p.all) && b in p.mask)
  {
    ConditionMeans(s.group.bits, s.tasks[t].mask, s.tasks[t].all);
    assert Mask(s.group.bits) == s.group.bits;
  }
}
