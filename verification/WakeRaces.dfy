/**
 * Two races between waking and the thread that is woken: a wake-up that comes between queueing and
 * blocking is lost, and one that comes after an exit marks a zombie ready.
 */
module WakeRaces {
  import opened Base
  import opened Queues
  import opened Scheduler
  import opened SchedulerInvariant
  import opened SchedulerRuns

  ghost predicate Leads(s: State, step: Step, s': State) {
    WellFormed(s) && Enabled(s, step) && s' == Next(s, step)
  }

  /** These steps, one after the other, lead from the one state to the other. */
  ghost predicate Follows(s: State, steps: seq<Step>, s': State) {
    Linked(Leads, s, steps, s')
  }

  ghost predicate Linked<S(!new), T>(leads: (S, T, S) -> bool, s: S, steps: seq<T>, s': S)
    decreases |steps|
  {
    if steps == [] then s' == s
    else exists s1 :: leads(s, steps[0], s1) && Linked(leads, s1, steps[1..], s')
  }

  lemma {:induction false} LinkedOn<S(!new), T>(leads: (S, T, S) -> bool, s: S, first: seq<T>, s1: S, second: seq<T>,
    s2: S)
    requires Linked(leads, s, first, s1) && Linked(leads, s1, second, s2)
    ensures Linked(leads, s, first + second, s2)
    decreases |first|
  {
    if first == [] {
      assert first + second == second;
    } else {
      assert (first + second)[1..] == first[1..] + second;
      var r :| leads(s, first[0], r) && Linked(leads, r, first[1..], s1);
      LinkedOn(leads, r, first[1..], s1, second, s2);
    }
  }

  lemma FollowsOne(s: State, step: Step, s': State)
    requires Leads(s, step, s')
    ensures Follows(s, [step], s')
  {
    assert [step][1..] == [];
    assert Linked(Leads, s', [step][1..], s');
  }

  lemma {:induction false} FollowsOn(s: State, first: seq<Step>, s1: State, second: seq<Step>, s2: State)
    requires Follows(s, first, s1) && Follows(s1, second, s2)
    ensures Follows(s, first + second, s2)
  {
    LinkedOn(Leads, s, first, s1, second, s2);
  }

  lemma FollowsTwo(s: State, a: Step, s1: State, b: Step, s2: State)
    requires Leads(s, a, s1) && Leads(s1, b, s2)
    ensures Follows(s, [a, b], s2)
  {
    FollowsOne(s, a, s1);
    FollowsOne(s1, b, s2);
    FollowsOn(s, [a], s1, [b], s2);
    assert [a] + [b] == [a, b];
  }

  lemma FollowsThree(s: State, a: Step, s1: State, b: Step, s2: State, c: Step, s3: State)
    requires Leads(s, a, s1) && Leads(s1, b, s2) && Leads(s2, c, s3)
    ensures Follows(s, [a, b, c], s3)
  {
    FollowsTwo(s, a, s1, b, s2);
    FollowsOne(s2, c, s3);
    FollowsOn(s, [a, b], s2, [c], s3);
    assert [a, b] + [c] == [a, b, c];
  }

  // --- a wake-up that is lost

  /** Nobody who empties a queue would find the thread. */
  ghost predicate OffQueues(s: State, t: nat) {
    forall q :: q in s.queues ==> t !in s.queues[q].waiters
  }

  /** Nobody is about to wake the thread. */
  ghost predicate Unheld(s: State, t: nat) {
    forall w :: w in s.threads ==> Holds(s.threads[w].pc) != Some(t)
  }

  /** Blocked, and no wake-up can reach it. */
  ghost predicate Stranded(s: State, t: nat) {
    t in s.threads && s.threads[t].state == Blocked && OffQueues(s, t) && Unheld(s, t)
  }

  /** Blocking strands the thread exactly when it has been taken off its queue and let go of already. */
  lemma BlockStrands(s: State)
    requires Inv(s) && Enabled(s, Block)
    ensures Stranded(Next(s, Block), s.current) <==> OffQueues(s, s.current) && Unheld(s, s.current)
  {
    var s' := Next(s, Block);
    assert forall w :: w in s.threads ==> Holds(s'.threads[w].pc) == Holds(s.threads[w].pc);
  }

  /** The steps that go to a thread by name. */
  predicate Names(step: Step, t: nat) {
    (step.Signal? || step.Continue? || step.InterruptSignal?) && step.thread == t
  }

  lemma {:induction false} WakeWaitersPasses(s: State, q: nat, t: nat, stale: bool)
    requires CoreBut(s, stale) && q in s.queues && t in s.threads && OffQueues(s, t)
    ensures t in WakeWaiters(s, q).threads && WakeWaiters(s, q).threads[t] == s.threads[t]
    ensures OffQueues(WakeWaiters(s, q), t)
    decreases |s.queues[q].waiters|
  {
    if s.queues[q].waiters != [] {
      var u := s.queues[q].waiters[0];
      TakeKeeps(s, q, stale);
      UnblockKeeps(TakeWaiter(s, q), u, stale);
      UnblockOther(TakeWaiter(s, q), u, t);
      WakeWaitersPasses(Unblock(TakeWaiter(s, q), u), q, t, stale);
    }
  }

  lemma UnblockOther(s: State, u: nat, t: nat)
    requires u in s.threads && t in s.threads && t != u
    ensures t in Unblock(s, u).threads && Unblock(s, u).threads[t] == s.threads[t]
  {
    var th := s.threads[u];
    if th.state != Running && th.state != Ready {
      var s1 := if th.state == Sleeping && th.waitLinked then RemoveSleeper(s, u) else s;
      assert s1.threads[t] == s.threads[t];
    }
  }

  lemma InterruptPasses(s: State, q: nat, t: nat)
    requires Inv(s) && q in s.queues && t in s.threads && OffQueues(s, t)
    ensures var s' := StepInterruptWake(s, q);
      t in s'.threads && s'.threads[t] == s.threads[t] && OffQueues(s', t) && SameMarks(s, s')
  {
    BumpKeeps(s, q);
    WakeWaitersPasses(BumpGeneration(s, q), q, t, q == POLL);
    if q != POLL {
      var s1 := WakeWaiters(BumpGeneration(s, q), q);
      WakeWaitersKeeps(BumpGeneration(s, q), q, false);
      BumpKeeps(s1, POLL);
      WakeWaitersPasses(BumpGeneration(s1, POLL), POLL, t, true);
    }
    InterruptMarks(s, q);
  }

  lemma {:induction false} WakeDuePasses(s: State, now: nat, list: seq<nat>, t: nat)
    requires Core(s) && NoDup(list) && (forall u :: u in list ==> u in s.sleepers) && t in s.threads && t !in list
    ensures t in WakeDue(s, now, list).threads && WakeDue(s, now, list).threads[t] == s.threads[t]
    decreases |list|
  {
    if list != [] {
      TailNoDup(list);
      if s.threads[list[0]].wakeAt <= now {
        WakeSleeperIsUnblock(s, list[0]);
        UnblockKeeps(s, list[0], false);
        UnblockOther(s, list[0], t);
        WakeDuePasses(WakeSleeper(s, list[0]), now, list[1..], t);
      } else {
        WakeDuePasses(s, now, list[1..], t);
      }
    }
  }

  /** A switch leaves a blocked thread blocked. */
  lemma SwitchPassesBy(s: State, t: nat)
    requires Core(s) && t in s.threads && s.threads[t].state == Blocked
    ensures t in Switch(s).threads && Switch(s).threads[t].state == Blocked
  {
    assert ThreadOk(s, t) && ThreadOk(s, s.idle);
  }

  lemma ChargePassesBy(s: State, t: nat)
    requires Core(s) && t in s.threads && s.threads[t].state == Blocked
    ensures t in Charge(s).threads && Charge(s).threads[t].state == Blocked
  {
    var th := s.threads[s.current];
    assert ThreadOk(s, s.current);
    var left := if th.quantum > 0 then th.quantum - 1 else 0;
    QuantumKeeps(s, left);
    SwitchPassesBy(Update(s, s.current, th.(quantum := left)), t);
  }

  lemma TickStrands(s: State, now: nat, t: nat)
    requires Inv(s) && Stranded(s, t)
    ensures Stranded(Charge(WakeDue(s, now, s.sleepers)), t)
  {
    assert ThreadOk(s, t);
    WakeDueKeeps(s, now, s.sleepers);
    WakeDuePasses(s, now, s.sleepers, t);
    ChargePassesBy(WakeDue(s, now, s.sleepers), t);
    TickPlaces(s, now);
  }

  lemma YieldStrands(s: State, t: nat)
    requires Inv(s) && Stranded(s, t)
    ensures Stranded(Switch(s), t)
  {
    SwitchPassesBy(s, t);
    SwitchPlaces(s);
  }

  lemma TakeStrands(s: State, q: nat, t: nat, pc: Pc)
    requires Inv(s) && Stranded(s, t) && q in s.queues && s.queues[q].waiters != [] && s.current != t
    requires Holds(pc) == Some(s.queues[q].waiters[0])
    ensures s.current in TakeWaiter(s, q).threads && Stranded(SetPc(TakeWaiter(s, q), pc), t)
  {
  }

  lemma ReleaseStrands(s: State, t: nat)
    requires Inv(s) && Stranded(s, t) && Enabled(s, Release)
    ensures Stranded(StepRelease(s), t)
  {
    var u := Holds(s.threads[s.current].pc).value;
    assert WakeOk(s, s.current);
    UnblockOther(s, u, t);
    UnblockPlaces(s, u);
  }

  lemma ResumeStrands(s: State, t: nat)
    requires Inv(s) && Enabled(s, Resume) && Stranded(s, t)
    ensures Stranded(StepResume(s), t)
  {
    assert ThreadOk(s, t);
    if s.threads[s.current].pc.Blocking? {
      var q := s.threads[s.current].pc.queue;
      assert ThreadOk(s, s.current);
      assert QueueOk(s, q, false);
      MinusNoDup(s.queues[q].waiters, s.current);
    }
  }

  lemma ReapStrands(s: State, t: nat)
    requires Inv(s) && Enabled(s, Reap) && Stranded(s, t)
    ensures Stranded(StepReap(s), t)
  {
    assert ThreadOk(s, t) && ThreadOk(s, s.zombies[0]);
  }

  lemma RestStrands(s: State, step: Step, t: nat)
    requires Inv(s) && Enabled(s, step) && Stranded(s, t) && RestStep(step)
    ensures Stranded(Next(s, step), t)
  {
    assert ThreadOk(s, t);
  }

  lemma BeginStrands(s: State, step: Step, t: nat)
    requires Inv(s) && Enabled(s, step) && Stranded(s, t) && BeginStep(step) && !Names(step, t)
    ensures Stranded(Next(s, step), t)
  {
    assert ThreadOk(s, t);
  }

  lemma JoinStrands(s: State, step: Step, t: nat)
    requires Inv(s) && Enabled(s, step) && Stranded(s, t) && (step.Spawn? || step.Wait? || step.WaitSince?)
    ensures Stranded(Next(s, step), t)
  {
    assert ThreadOk(s, t);
  }

  lemma WakerStrands(s: State, step: Step, t: nat)
    requires Inv(s) && Enabled(s, step) && Stranded(s, t) && WakerStep(step)
    ensures Stranded(Next(s, step), t)
  {
    match step {
      case Release => ReleaseStrands(s, t);
      case InterruptWake(q) => InterruptPasses(s, q, t);
      case DrainTake =>
        var q := s.threads[s.current].pc.wake.queue;
        if s.queues[q].waiters != [] { TakeStrands(s, q, t, Waking(Drain(q, Some(s.queues[q].waiters[0])))); }
      case WakeOne(q) =>
        if s.queues[q].waiters != [] { TakeStrands(s, q, t, Waking(One(s.queues[q].waiters[0]))); }
    }
  }

  lemma SignalStrands(s: State, u: nat, t: nat)
    requires Inv(s) && Enabled(s, InterruptSignal(u)) && Stranded(s, t) && u != t
    ensures Stranded(Unblock(s, u), t)
  {
    UnblockOther(s, u, t);
    UnblockPlaces(s, u);
  }

  lemma OwnStrands(s: State, step: Step, t: nat)
    requires Inv(s) && Enabled(s, step) && Stranded(s, t) && !Names(step, t)
    requires RestStep(step) || BeginStep(step) || step.Spawn? || step.Wait? || step.WaitSince?
    ensures Stranded(Next(s, step), t)
  {
    if RestStep(step) {
      RestStrands(s, step, t);
    } else if BeginStep(step) {
      BeginStrands(s, step, t);
    } else {
      JoinStrands(s, step, t);
    }
  }

  /** The steps that are neither waking nor the current thread's own. */
  predicate TurnStep(step: Step) {
    step.Tick? || step.Yield? || step.Resume? || step.Reap? || step.InterruptSignal?
  }

  lemma TurnStrands(s: State, step: Step, t: nat)
    requires Inv(s) && Enabled(s, step) && Stranded(s, t) && !Names(step, t) && TurnStep(step)
    ensures Stranded(Next(s, step), t)
  {
    match step {
      case Tick(now) => TickStrands(s, now, t);
      case Yield => YieldStrands(s, t);
      case Resume => ResumeStrands(s, t);
      case Reap => ReapStrands(s, t);
      case InterruptSignal(u) => SignalStrands(s, u, t);
    }
  }

  /** Once stranded, a thread stays so whatever is woken, until something names it. */
  lemma StrandedStays(s: State, step: Step, t: nat)
    requires Inv(s) && Enabled(s, step) && Stranded(s, t) && !Names(step, t)
    ensures Stranded(Next(s, step), t)
  {
    if WakerStep(step) {
      WakerStrands(s, step, t);
    } else if TurnStep(step) {
      TurnStrands(s, step, t);
    } else {
      OwnStrands(s, step, t);
    }
  }

  /** Over whole runs: nothing but a signal or a continue by name ever gets it going again. */
  lemma {:induction false} StrandedForGood(states: seq<State>, steps: seq<Step>, i: nat, j: nat, t: nat)
    requires Run(states, steps) && i <= j < |states| && Stranded(states[i], t)
    requires forall k :: i <= k < j ==> !Names(steps[k], t)
    ensures Stranded(states[j], t)
  {
    if i < j {
      StrandedForGood(states, steps, i, j - 1, t);
      RunKeeps(states, steps, j - 1);
      assert Steps(states[j - 1], steps[j - 1], states[j]);
      StrandedStays(states[j - 1], steps[j - 1], t);
    }
  }

  // --- exactly which wake-ups are lost

  ghost predicate InQueues(s: State, t: nat) {
    exists q :: q in s.queues && t in s.queues[q].waiters
  }

  /** One thread, and only one, is about to wake it. */
  ghost predicate HeldBy(s: State, w: nat, t: nat) {
    && w in s.threads && Holds(s.threads[w].pc) == Some(t)
    && forall v :: v in s.threads && v != w ==> Holds(s.threads[v].pc) != Some(t)
  }

  /** On its queue, or on its way from there to being woken. */
  ghost predicate Pending(s: State, t: nat) {
    (InQueues(s, t) && Unheld(s, t)) || (OffQueues(s, t) && exists w :: HeldBy(s, w, t))
  }

  /** The wake-up has come and gone. */
  ghost predicate Missed(s: State, t: nat) {
    OffQueues(s, t) && Unheld(s, t)
  }

  /** The step wakes the thread, off its queue or out of the waker's hand. */
  ghost predicate Wakes(s: State, step: Step, t: nat)
    requires s.current in s.threads
  {
    || (step.Release? && Holds(s.threads[s.current].pc) == Some(t))
    || (step.InterruptWake? && exists q :: q in s.queues && (q == step.queue || q == POLL) && t in s.queues[q].waiters)
  }

  /** The step takes the thread off its queue, into the waker's hand or to be woken at once. */
  ghost predicate Takes(s: State, step: Step, t: nat)
    requires WellFormed(s) && Enabled(s, step) && s.current in s.threads
  {
    || (step.DrainTake? && HeadsQueue(s, s.threads[s.current].pc.wake.queue, t))
    || (step.WakeOne? && HeadsQueue(s, step.queue, t))
    || (step.InterruptWake? && Wakes(s, step, t))
  }

  ghost predicate HeadsQueue(s: State, q: nat, t: nat) {
    q in s.queues && s.queues[q].waiters != [] && s.queues[q].waiters[0] == t
  }

  /**
   * A pending wake-up stays pending until the thread is woken; then it is missed, and stays so. The
   * thread stays on its queue until it is taken off.
   */
  ghost predicate Moves(s: State, s': State, t: nat, woken: bool, taken: bool) {
    && (InQueues(s', t) <==> InQueues(s, t) && !taken)
    && (Pending(s, t) ==> if woken then Missed(s', t) else Pending(s', t))
    && (Missed(s, t) ==> !woken && Missed(s', t))
  }

  /** Queues and who is about to wake whom, as far as the thread is concerned, are as they were. */
  ghost predicate SameFor(s: State, s': State, t: nat) {
    && (forall q :: q in s.queues || q in s'.queues ==>
         q in s.queues && q in s'.queues && (t in s'.queues[q].waiters <==> t in s.queues[q].waiters))
    && (forall w {:trigger s'.threads[w]} :: w in s'.threads && Holds(s'.threads[w].pc) == Some(t) ==>
         w in s.threads && Holds(s.threads[w].pc) == Some(t))
    && (forall w {:trigger s.threads[w]} :: w in s.threads && Holds(s.threads[w].pc) == Some(t) ==>
         w in s'.threads && Holds(s'.threads[w].pc) == Some(t))
  }

  lemma SameStatus(s: State, s': State, t: nat)
    requires SameFor(s, s', t)
    ensures Moves(s, s', t, false, false)
  {
    if w :| HeldBy(s, w, t) { assert HeldBy(s', w, t); }
  }

  /** A thread that has queued up and not yet blocked; the steps of others leave it there. */
  ghost predicate Lingers(s: State, step: Step, t: nat)
    requires WellFormed(s) && Enabled(s, step)
  {
    && t in s.threads && s.threads[t].pc.Enqueued? && !Names(step, t)
    && t in Next(s, step).threads && Next(s, step).threads[t].pc == s.threads[t].pc
  }

  lemma OneQueue(s: State, t: nat, q: nat, r: nat)
    requires Core(s) && q in s.queues && r in s.queues && t in s.queues[q].waiters && t in s.queues[r].waiters
    ensures q == r
  {
    assert QueueOk(s, q, false) && QueueOk(s, r, false);
    assert WaiterOk(s, q, t, false) && WaiterOk(s, r, t, false);
  }

  /** Emptying one queue changes no other and nobody's place. */
  ghost predicate Emptied(s: State, s': State, q: nat) {
    && SameMarks(s, s') && s'.queues.Keys == s.queues.Keys
    && forall r :: r in s.queues ==> s'.queues[r].waiters == if r == q then [] else s.queues[r].waiters
  }

  lemma BumpAndEmpty(s: State, q: nat)
    requires q in s.queues && forall t :: t in s.queues[q].waiters ==> t in s.threads
    ensures Emptied(s, WakeWaiters(BumpGeneration(s, q), q), q)
  {
    WakeWaitersMarks(BumpGeneration(s, q), q);
  }

  lemma InterruptQueues(s: State, q: nat)
    requires Inv(s) && q in s.queues
    ensures SameMarks(s, StepInterruptWake(s, q)) && StepInterruptWake(s, q).queues.Keys == s.queues.Keys
    ensures forall r :: r in s.queues ==>
      StepInterruptWake(s, q).queues[r].waiters == if r == q || r == POLL then [] else s.queues[r].waiters
  {
    WaitersExist(s, q);
    WaitersExist(s, POLL);
    BumpAndEmpty(s, q);
    var s1 := WakeWaiters(BumpGeneration(s, q), q);
    if q != POLL { BumpAndEmpty(s1, POLL); }
  }

  lemma InterruptStatus(s: State, q: nat, t: nat)
    requires Inv(s) && q in s.queues && t in s.threads
    ensures Moves(s, StepInterruptWake(s, q), t, Wakes(s, InterruptWake(q), t), Wakes(s, InterruptWake(q), t))
  {
    if Wakes(s, InterruptWake(q), t) {
      InterruptWakesIt(s, q, t);
    } else {
      InterruptSame(s, q, t);
      SameStatus(s, StepInterruptWake(s, q), t);
    }
  }

  lemma InterruptWakesIt(s: State, q: nat, t: nat)
    requires Inv(s) && q in s.queues && t in s.threads && Wakes(s, InterruptWake(q), t)
    ensures InQueues(s, t) && OffQueues(StepInterruptWake(s, q), t)
    ensures Unheld(s, t) ==> Missed(StepInterruptWake(s, q), t)
  {
    InterruptQueues(s, q);
    var r :| r in s.queues && (r == q || r == POLL) && t in s.queues[r].waiters;
    forall x | x in s.queues && t in s.queues[x].waiters ensures x == r { OneQueue(s, t, x, r); }
  }

  lemma InterruptSame(s: State, q: nat, t: nat)
    requires Inv(s) && q in s.queues && t in s.threads && !Wakes(s, InterruptWake(q), t)
    ensures SameFor(s, StepInterruptWake(s, q), t)
  {
    InterruptQueues(s, q);
  }

  lemma TakeStatus(s: State, q: nat, t: nat, pc: Pc)
    requires Inv(s) && AtSome(s) && t in s.threads && q in s.queues && s.queues[q].waiters != []
    requires Holds(s.threads[s.current].pc).None? && Holds(pc) == Some(s.queues[q].waiters[0])
    ensures s.current in TakeWaiter(s, q).threads &&
      Moves(s, SetPc(TakeWaiter(s, q), pc), t, false, HeadsQueue(s, q, t))
  {
    var s' := SetPc(TakeWaiter(s, q), pc);
    assert QueueOk(s, q, false);
    TailNoDup(s.queues[q].waiters);
    assert forall w :: w in s.threads && w != s.current ==> Holds(s'.threads[w].pc) == Holds(s.threads[w].pc);
    if t == s.queues[q].waiters[0] {
      forall x | x in s.queues && t in s.queues[x].waiters ensures x == q { OneQueue(s, t, x, q); }
      assert InQueues(s, t);
      if Unheld(s, t) { assert HeldBy(s', s.current, t); }
    } else {
      SameStatus(s, s', t);
    }
  }

  /** Only the current thread's place changes, and it holds nobody after. */
  lemma LetGo(s: State, s': State, t: nat, u: nat)
    requires s.current in s.threads && Holds(s.threads[s.current].pc) == Some(u)
    requires s'.queues == s.queues && s'.threads.Keys == s.threads.Keys && Holds(s'.threads[s.current].pc).None?
    requires forall w :: w in s.threads && w != s.current ==> s'.threads[w].pc == s.threads[w].pc
    ensures Moves(s, s', t, t == u, false)
  {
    if t != u { SameStatus(s, s', t); }
  }

  lemma ReleaseStatus(s: State, t: nat)
    requires Inv(s) && Enabled(s, Release) && t in s.threads
    ensures Moves(s, StepRelease(s), t, Wakes(s, Release, t), false)
  {
    var u := Holds(s.threads[s.current].pc).value;
    assert WakeOk(s, s.current);
    UnblockPlaces(s, u);
    var s1, pc := Unblock(s, u), StepRelease(s).threads[s.current].pc;
    assert s1.current == s.current by { UnblockCurrent(s, u); }
    assert StepRelease(s) == SetPc(s1, pc) && Holds(pc).None?;
    LetGo(s, SetPc(s1, pc), t, u);
  }

  lemma DrainTakeStatus(s: State, t: nat)
    requires Inv(s) && Enabled(s, DrainTake) && t in s.threads
    ensures Moves(s, StepDrainTake(s), t, false, Takes(s, DrainTake, t))
  {
    var q := s.threads[s.current].pc.wake.queue;
    if s.queues[q].waiters == [] {
      SameStatus(s, StepDrainTake(s), t);
    } else {
      TakeStatus(s, q, t, Waking(Drain(q, Some(s.queues[q].waiters[0]))));
    }
  }

  lemma WakeOneStatus(s: State, q: nat, t: nat)
    requires Inv(s) && Enabled(s, WakeOne(q)) && t in s.threads
    ensures Moves(s, StepWakeOne(s, q), t, false, Takes(s, WakeOne(q), t))
  {
    if s.queues[q].waiters == [] {
      SameStatus(s, StepWakeOne(s, q), t);
    } else {
      TakeStatus(s, q, t, Waking(One(s.queues[q].waiters[0])));
    }
  }

  lemma ResumeStatus(s: State, t: nat)
    requires Inv(s) && Enabled(s, Resume) && t in s.threads && t != s.current
    ensures SameFor(s, StepResume(s), t)
  {
    if s.threads[s.current].pc.Blocking? {
      var q := s.threads[s.current].pc.queue;
      assert ThreadOk(s, s.current);
      assert QueueOk(s, q, false);
      MinusNoDup(s.queues[q].waiters, s.current);
    }
  }

  lemma ReapStatus(s: State, t: nat)
    requires Inv(s) && Enabled(s, Reap)
    ensures SameFor(s, StepReap(s), t)
  {
    assert ThreadOk(s, s.zombies[0]);
  }

  lemma WaitStatus(s: State, q: nat, seen: Option<nat>, t: nat)
    requires Inv(s) && AtSome(s) && q in s.queues && t != s.current && Holds(s.threads[s.current].pc).None?
    ensures SameFor(s, StepWait(s, q, seen), t)
  {
  }

  /** Nobody's place but the current thread's changes, and it neither had the thread in hand nor has. */
  lemma OnlyCurrent(s: State, s': State, t: nat)
    requires s'.threads.Keys == s.threads.Keys && s.current in s.threads && s'.queues.Keys == s.queues.Keys
    requires forall q :: q in s.queues ==> s'.queues[q].waiters == s.queues[q].waiters
    requires forall w :: w in s.threads && w != s.current ==> s'.threads[w].pc == s.threads[w].pc
    requires Holds(s.threads[s.current].pc) != Some(t) && Holds(s'.threads[s.current].pc) != Some(t)
    ensures Moves(s, s', t, false, false)
  {
    SameStatus(s, s', t);
  }

  /** Steps in which the current thread stops what it does, and steps in which it begins to wake somebody. */
  predicate RestStep(step: Step) {
    step.ReadGeneration? || step.PollReturn? || step.Block? || step.Stop? || step.Sleep? || step.Exit?
  }

  predicate BeginStep(step: Step) {
    step.Signal? || step.Continue? || step.WakeAll? || step.BumpPoll?
  }

  lemma RestStatus(s: State, step: Step, t: nat)
    requires Inv(s) && Enabled(s, step) && RestStep(step)
    ensures Moves(s, Next(s, step), t, false, false)
  {
    OnlyCurrent(s, Next(s, step), t);
  }

  lemma BeginStatus(s: State, step: Step, t: nat)
    requires Inv(s) && Enabled(s, step) && BeginStep(step) && !Names(step, t)
    ensures Moves(s, Next(s, step), t, false, false)
  {
    OnlyCurrent(s, Next(s, step), t);
  }

  /** Steps that wake somebody, or are about to. */
  predicate WakerStep(step: Step) {
    step.InterruptWake? || step.Release? || step.DrainTake? || step.WakeOne?
  }

  lemma PlacesStatus(s: State, step: Step, t: nat)
    requires Inv(s) && Enabled(s, step) && LeavesPlaces(step)
    ensures Moves(s, Next(s, step), t, false, false)
  {
    StepPlaces(s, step);
    PlacesMove(s, Next(s, step), t);
  }

  lemma PlacesMove(s: State, s': State, t: nat)
    requires SamePlaces(s, s')
    ensures Moves(s, s', t, false, false)
  {
    SameStatus(s, s', t);
  }

  lemma QueueStatus(s: State, step: Step, t: nat)
    requires Inv(s) && Enabled(s, step) && t in s.threads && t != s.current
    requires step.Resume? || step.Reap? || step.Wait?
    ensures SameFor(s, Next(s, step), t)
  {
    match step {
      case Resume => ResumeStatus(s, t);
      case Reap => ReapStatus(s, t);
      case Wait(q) => WaitStatus(s, q, None, t);
    }
  }

  lemma WakerStatus(s: State, step: Step, t: nat)
    requires Inv(s) && Enabled(s, step) && t in s.threads
    requires WakerStep(step)
    ensures Moves(s, Next(s, step), t, Wakes(s, step, t), Takes(s, step, t))
  {
    match step {
      case InterruptWake(q) => InterruptStatus(s, q, t);
      case Release => ReleaseStatus(s, t);
      case DrainTake => DrainTakeStatus(s, t);
      case WakeOne(q) => WakeOneStatus(s, q, t);
    }
  }

  /** A thread stays queued up only through the steps of others. */
  lemma LingersIdle(s: State, step: Step, t: nat)
    requires Inv(s) && Enabled(s, step) && Lingers(s, step, t)
    ensures step.Resume? || step.Wait? || step.WaitSince? ==> t != s.current
    ensures step.Reap? ==> t != s.current
  {
    assert ThreadOk(s, s.idle);
  }

  lemma SpawnStatus(s: State, u: nat, t: nat)
    requires Inv(s) && u !in s.threads
    ensures SameFor(s, StepSpawn(s, u), t)
  {
  }

  /** What each step makes of a wake-up for a thread that has queued up and not yet blocked. */
  lemma StatusMoves(s: State, step: Step, t: nat)
    requires Inv(s) && Enabled(s, step) && Lingers(s, step, t)
    ensures Moves(s, Next(s, step), t, Wakes(s, step, t), Takes(s, step, t))
  {
    LingersIdle(s, step, t);
    if WakerStep(step) { WakerStatus(s, step, t); } else { QuietStatus(s, step, t); }
  }

  lemma QuietStatus(s: State, step: Step, t: nat)
    requires Inv(s) && Enabled(s, step) && t in s.threads && !WakerStep(step) && !Names(step, t)
    requires step.Resume? || step.Wait? || step.WaitSince? || step.Reap? ==> t != s.current
    ensures Moves(s, Next(s, step), t, false, false)
  {
    if LeavesPlaces(step) {
      PlacesStatus(s, step, t);
    } else if RestStep(step) {
      RestStatus(s, step, t);
    } else if BeginStep(step) {
      BeginStatus(s, step, t);
    } else if step.Spawn? {
      SpawnStatus(s, step.thread, t);
      SameStatus(s, Next(s, step), t);
    } else if step.WaitSince? {
      WaitSinceStatus(s, t);
    } else {
      QueueStatus(s, step, t);
      SameStatus(s, Next(s, step), t);
    }
  }

  lemma WaitSinceStatus(s: State, t: nat)
    requires Inv(s) && Enabled(s, WaitSince) && t != s.current
    ensures Moves(s, StepWaitSince(s), t, false, false)
  {
    var mark := s.threads[s.current].pc.mark;
    if s.queues[POLL].generation == mark { WaitStatus(s, POLL, Some(mark), t); }
    SameStatus(s, StepWaitSince(s), t);
  }

  ghost predicate WakesAt(states: seq<State>, steps: seq<Step>, k: int, t: nat) {
    0 <= k < |steps| && k < |states| && states[k].current in states[k].threads && Wakes(states[k], steps[k], t)
  }

  ghost predicate WokenBetween(states: seq<State>, steps: seq<Step>, i: int, j: int, t: nat) {
    exists k {:trigger WakesAt(states, steps, k, t)} :: i <= k < j && WakesAt(states, steps, k, t)
  }

  ghost predicate TakesAt(states: seq<State>, steps: seq<Step>, k: int, t: nat) {
    && 0 <= k < |steps| && k < |states| && WellFormed(states[k]) && Enabled(states[k], steps[k])
    && states[k].current in states[k].threads && Takes(states[k], steps[k], t)
  }

  ghost predicate TakenBetween(states: seq<State>, steps: seq<Step>, i: int, j: int, t: nat) {
    exists k {:trigger TakesAt(states, steps, k, t)} :: i <= k < j && TakesAt(states, steps, k, t)
  }

  ghost predicate LingersAt(states: seq<State>, steps: seq<Step>, k: int, t: nat)
    requires Run(states, steps) && 0 <= k < |steps|
  {
    Steps(states[k], steps[k], states[k + 1]) && Lingers(states[k], steps[k], t)
  }

  /** Between these steps the thread stays queued up, and nobody names it. */
  ghost predicate LingersBetween(states: seq<State>, steps: seq<Step>, i: nat, j: nat, t: nat)
    requires Run(states, steps) && j <= |steps|
  {
    forall k {:trigger LingersAt(states, steps, k, t)} :: i <= k < j ==> LingersAt(states, steps, k, t)
  }

  lemma WokenNext(states: seq<State>, steps: seq<Step>, i: nat, j: nat, t: nat)
    requires i <= j
    ensures WokenBetween(states, steps, i, j + 1, t) <==>
      WokenBetween(states, steps, i, j, t) || WakesAt(states, steps, j, t)
  {
    if WokenBetween(states, steps, i, j + 1, t) {
      var k :| i <= k < j + 1 && WakesAt(states, steps, k, t);
      assert k == j || WokenBetween(states, steps, i, j, t);
    }
  }

  ghost predicate Status(s: State, t: nat, woken: bool) {
    if woken then Missed(s, t) else Pending(s, t)
  }

  lemma StatusNext(s: State, s': State, t: nat, before: bool, woken: bool, taken: bool)
    requires Status(s, t, before) && Moves(s, s', t, woken, taken)
    ensures Status(s', t, before || woken)
  {
  }

  ghost predicate MovesAt(states: seq<State>, steps: seq<Step>, k: int, t: nat)
    requires 0 <= k < |states| - 1
  {
    Moves(states[k], states[k + 1], t, WakesAt(states, steps, k, t), TakesAt(states, steps, k, t))
  }

  lemma {:induction false} StatusAt(states: seq<State>, steps: seq<Step>, i: nat, j: nat, t: nat)
    requires i <= j < |states| && Pending(states[i], t)
    requires forall k {:trigger MovesAt(states, steps, k, t)} :: i <= k < j ==> MovesAt(states, steps, k, t)
    ensures Status(states[j], t, WokenBetween(states, steps, i, j, t))
  {
    if i < j {
      StatusAt(states, steps, i, j - 1, t);
      assert MovesAt(states, steps, j - 1, t);
      WokenNext(states, steps, i, j - 1, t);
      StatusNext(states[j - 1], states[j], t, WokenBetween(states, steps, i, j - 1, t),
        WakesAt(states, steps, j - 1, t), TakesAt(states, steps, j - 1, t));
    }
  }

  /** A thread that was on a queue still is, exactly if no step has taken it off. */
  lemma {:induction false} QueuedAt(states: seq<State>, steps: seq<Step>, i: nat, j: nat, t: nat)
    requires i <= j < |states| && InQueues(states[i], t)
    requires forall k {:trigger MovesAt(states, steps, k, t)} :: i <= k < j ==> MovesAt(states, steps, k, t)
    ensures InQueues(states[j], t) <==> !TakenBetween(states, steps, i, j, t)
  {
    if i < j {
      QueuedAt(states, steps, i, j - 1, t);
      assert MovesAt(states, steps, j - 1, t);
      TakenNext(states, steps, i, j - 1, t);
    }
  }

  lemma TakenNext(states: seq<State>, steps: seq<Step>, i: nat, j: nat, t: nat)
    requires i <= j
    ensures TakenBetween(states, steps, i, j + 1, t) <==>
      TakenBetween(states, steps, i, j, t) || TakesAt(states, steps, j, t)
  {
    if TakenBetween(states, steps, i, j + 1, t) {
      var k :| i <= k < j + 1 && TakesAt(states, steps, k, t);
      assert k == j || TakenBetween(states, steps, i, j, t);
    }
  }

  lemma StatusStep(states: seq<State>, steps: seq<Step>, k: nat, t: nat)
    requires Run(states, steps) && k < |steps| && LingersAt(states, steps, k, t)
    ensures MovesAt(states, steps, k, t)
  {
    RunKeeps(states, steps, k);
    StatusMoves(states[k], steps[k], t);
  }

  lemma StatusSteps(states: seq<State>, steps: seq<Step>, i: nat, j: nat, t: nat)
    requires Run(states, steps) && i <= j <= |steps| && LingersBetween(states, steps, i, j, t)
    ensures forall k {:trigger MovesAt(states, steps, k, t)} :: i <= k < j ==> MovesAt(states, steps, k, t)
  {
    forall k | i <= k < j ensures MovesAt(states, steps, k, t) {
      assert LingersAt(states, steps, k, t);
      StatusStep(states, steps, k, t);
    }
  }

  /** The current thread puts itself on a queue. */
  ghost predicate QueuesUp(s: State, step: Step)
    requires WellFormed(s) && Enabled(s, step)
  {
    (step.Wait? || step.WaitSince?) && s.current in Next(s, step).threads &&
      Next(s, step).threads[s.current].pc.Enqueued?
  }

  /** Having queued up, a thread is on a queue, and pending if nobody has it in hand from before. */
  lemma QueuedPending(s: State, step: Step)
    requires Inv(s) && Enabled(s, step) && QueuesUp(s, step)
    ensures InQueues(Next(s, step), s.current) && (Unheld(s, s.current) ==> Pending(Next(s, step), s.current))
  {
    NotWaiting(s);
    var s' := Next(s, step);
    var q := if step.Wait? then step.queue else POLL;
    assert s'.queues[q].waiters[|s.queues[q].waiters|] == s.current;
    assert forall w :: w in s.threads ==> Holds(s'.threads[w].pc) == Holds(s.threads[w].pc) || w == s.current;
  }

  /** A thread queues up at step `i` and blocks at step `j`, and nobody names it in between. */
  ghost predicate WaitsFrom(states: seq<State>, steps: seq<Step>, i: nat, j: nat, t: nat) {
    && Run(states, steps) && i < j < |steps| && steps[j] == Block
    && states[i].current == t && states[j].current == t
    && Steps(states[i], steps[i], states[i + 1]) && QueuesUp(states[i], steps[i])
    && LingersBetween(states, steps, i + 1, j, t)
  }

  /**
   * In every run, such a thread is stranded by blocking exactly when a step in between took it off its
   * queue and by then nobody has it in hand, from that step or from before.
   */
  lemma LostExactly(states: seq<State>, steps: seq<Step>, i: nat, j: nat, t: nat)
    requires WaitsFrom(states, steps, i, j, t)
    ensures Stranded(states[j + 1], t) <==> TakenBetween(states, steps, i + 1, j, t) && Unheld(states[j], t)
  {
    RunKeeps(states, steps, i);
    RunKeeps(states, steps, j);
    assert Steps(states[j], steps[j], states[j + 1]);
    QueuedPending(states[i], steps[i]);
    StatusSteps(states, steps, i + 1, j, t);
    QueuedAt(states, steps, i + 1, j, t);
    BlockStrands(states[j]);
  }

  /** If nobody had it in hand when it queued up, that is exactly when it was woken in between. */
  lemma LostIfWoken(states: seq<State>, steps: seq<Step>, i: nat, j: nat, t: nat)
    requires WaitsFrom(states, steps, i, j, t) && Unheld(states[i], t)
    ensures Stranded(states[j + 1], t) <==> WokenBetween(states, steps, i + 1, j, t)
  {
    RunKeeps(states, steps, i);
    RunKeeps(states, steps, j);
    assert Steps(states[j], steps[j], states[j + 1]);
    QueuedPending(states[i], steps[i]);
    StatusSteps(states, steps, i + 1, j, t);
    StatusAt(states, steps, i + 1, j, t);
    BlockStrands(states[j]);
  }

  /**
   * The shortest such run: a wake-up from an interrupt between the two halves of a wait. It strands the
   * thread exactly when no waker has it in hand from before.
   */
  lemma LostWakeup(s: State, q: nat) returns (s1: State, s2: State, s3: State)
    requires Inv(s) && At(s, Free) && q in s.queues && q != POLL
    ensures Leads(s, Wait(q), s1) && Leads(s1, InterruptWake(q), s2) && Leads(s2, Block, s3)
    ensures Stranded(s3, s.current) <==> Unheld(s, s.current)
  {
    var t := s.current;
    NotWaiting(s);
    s1 := Next(s, Wait(q));
    NextKeeps(s, Wait(q));
    assert s1.queues[q].waiters[|s.queues[q].waiters|] == t;
    s2, s3 := WokenThenBlocks(s1, q, q);
    assert Unheld(s1, t) <==> Unheld(s, t) by { WaitHolds(s, q, None, t); }
  }

  /** Nobody takes or lets go of anybody by queueing up. */
  lemma WaitHolds(s: State, q: nat, seen: Option<nat>, t: nat)
    requires Inv(s) && AtSome(s) && q in s.queues && Holds(s.threads[s.current].pc).None?
    ensures Unheld(StepWait(s, q, seen), t) <==> Unheld(s, t)
  {
    var s' := StepWait(s, q, seen);
    assert forall w :: w in s.threads ==> Holds(s'.threads[w].pc) == Holds(s.threads[w].pc);
  }

  /** The same for a poller that has just looked. */
  lemma LostPollWakeup(s: State, q: nat) returns (s1: State, s2: State, s3: State, s4: State)
    requires Inv(s) && At(s, Free) && q in s.queues
    ensures Leads(s, ReadGeneration, s1) && Leads(s1, WaitSince, s2) && Leads(s2, InterruptWake(q), s3) &&
      Leads(s3, Block, s4)
    ensures Stranded(s4, s.current) <==> Unheld(s, s.current)
  {
    var t := s.current;
    NotWaiting(s);
    s1 := Next(s, ReadGeneration);
    NextKeeps(s, ReadGeneration);
    assert Unheld(s1, t) <==> Unheld(s, t) by {
      assert forall w :: w in s.threads ==> Holds(s1.threads[w].pc) == Holds(s.threads[w].pc);
    }
    s2 := PollQueues(s1);
    s3, s4 := WokenThenBlocks(s2, q, POLL);
  }

  /** A poller whose mark is current queues up. */
  lemma PollQueues(s: State) returns (s': State)
    requires Inv(s) && AtSome(s) && POLL in s.queues &&
      s.threads[s.current].pc == Polling(s.queues[POLL].generation)
    ensures Leads(s, WaitSince, s') && Inv(s') && AtSome(s') && s'.current == s.current
    ensures s'.threads[s.current].pc.Enqueued? && s'.queues.Keys == s.queues.Keys
    ensures s.current in s'.queues[POLL].waiters && (Unheld(s', s.current) <==> Unheld(s, s.current))
  {
    NotWaiting(s);
    s' := Next(s, WaitSince);
    NextKeeps(s, WaitSince);
    assert s'.queues[POLL].waiters[|s.queues[POLL].waiters|] == s.current;
    WaitHolds(s, POLL, Some(s.queues[POLL].generation), s.current);
  }

  lemma WokenThenBlocks(s: State, q: nat, r: nat) returns (s1: State, s2: State)
    requires Inv(s) && AtSome(s) && s.threads[s.current].pc.Enqueued? && q in s.queues && (r == q || r == POLL)
    requires r in s.queues && s.current in s.queues[r].waiters
    ensures Leads(s, InterruptWake(q), s1) && Leads(s1, Block, s2)
    ensures Stranded(s2, s.current) <==> Unheld(s, s.current)
  {
    InterruptWakesIt(s, q, s.current);
    InterruptQueues(s, q);
    s1 := Next(s, InterruptWake(q));
    NextKeeps(s, InterruptWake(q));
    InterruptRuns(s, q);
    s2 := Next(s1, Block);
    BlockStrands(s1);
  }

  /** An interrupt leaves the running thread running where it was. */
  lemma InterruptRuns(s: State, q: nat)
    requires Inv(s) && AtSome(s) && q in s.queues
    ensures var s' := StepInterruptWake(s, q);
      && AtSome(s') && s'.current == s.current
      && s'.threads[s.current].pc == s.threads[s.current].pc
  {
    InterruptBehind(s, q);
    InterruptMarks(s, q);
    BumpKeeps(s, q);
    WakeWaitersRuns(BumpGeneration(s, q), q, q == POLL);
    if q != POLL {
      WakeWaitersKeeps(BumpGeneration(s, q), q, false);
      var s1 := WakeWaiters(BumpGeneration(s, q), q);
      BumpKeeps(s1, POLL);
      WakeWaitersRuns(BumpGeneration(s1, POLL), POLL, true);
    }
  }

  lemma {:induction false} WakeWaitersRuns(s: State, q: nat, stale: bool)
    requires CoreBut(s, stale) && q in s.queues && s.threads[s.current].state == Running
    ensures var s' := WakeWaiters(s, q);
      s'.current == s.current && s'.idle == s.idle && s.current in s'.threads && s'.threads[s.current].state == Running
    decreases |s.queues[q].waiters|
  {
    if s.queues[q].waiters != [] {
      var t := s.queues[q].waiters[0];
      TakeKeeps(s, q, stale);
      UnblockKeeps(TakeWaiter(s, q), t, stale);
      UnblockCurrent(TakeWaiter(s, q), t);
      WakeWaitersRuns(Unblock(TakeWaiter(s, q), t), q, stale);
    }
  }

  // --- a wake-up that comes after the exit

  /** Whoever is ready is in line. */
  ghost predicate ReadyQueued(s: State) {
    forall t :: t in s.threads && s.threads[t].state == Ready && t != s.idle ==> t in s.runQueue
  }

  ghost predicate ReadyCorpse(s: State, t: nat) {
    t in s.threads && s.threads[t].pc == Dead && s.threads[t].state == Ready
  }

  /** The only way to be ready and not in line is to have exited. */
  lemma ReadyIffNoCorpse(s: State)
    requires Core(s)
    ensures ReadyQueued(s) <==> forall t :: !ReadyCorpse(s, t)
  {
    forall t | t in s.threads
      ensures s.threads[t].state == Ready && t != s.idle && t !in s.runQueue <==> ReadyCorpse(s, t) {
      assert ThreadOk(s, t);
    }
  }

  /** The step lets go of a thread that has exited. */
  ghost predicate WakesCorpse(s: State, step: Step)
    requires s.current in s.threads
  {
    step.Release? && Holds(s.threads[s.current].pc).Some? && var t := Holds(s.threads[s.current].pc).value;
    t in s.threads && s.threads[t].pc == Dead
  }

  ghost predicate SameCorpses(s: State, s': State) {
    forall t :: ReadyCorpse(s', t) ==> ReadyCorpse(s, t)
  }

  lemma UnblockCorpses(s: State, u: nat)
    requires u in s.threads && s.threads[u].pc != Dead
    ensures SameCorpses(s, Unblock(s, u))
  {
    UnblockPlaces(s, u);
    forall t | ReadyCorpse(Unblock(s, u), t) ensures ReadyCorpse(s, t) {
      UnblockOther(s, u, t);
    }
  }

  lemma {:induction false} WakeWaitersCorpses(s: State, q: nat, stale: bool)
    requires CoreBut(s, stale) && q in s.queues
    ensures SameCorpses(s, WakeWaiters(s, q))
    decreases |s.queues[q].waiters|
  {
    if s.queues[q].waiters != [] {
      var u := s.queues[q].waiters[0];
      assert QueueOk(s, q, stale);
      assert WaiterOk(s, q, u, stale);
      TakeKeeps(s, q, stale);
      UnblockKeeps(TakeWaiter(s, q), u, stale);
      UnblockCorpses(TakeWaiter(s, q), u);
      WakeWaitersCorpses(Unblock(TakeWaiter(s, q), u), q, stale);
    }
  }

  lemma InterruptCorpses(s: State, q: nat)
    requires Inv(s) && q in s.queues
    ensures SameCorpses(s, StepInterruptWake(s, q))
  {
    BumpKeeps(s, q);
    var s1 := WakeWaiters(BumpGeneration(s, q), q);
    WakeWaitersCorpses(BumpGeneration(s, q), q, q == POLL);
    assert SameCorpses(s, BumpGeneration(s, q));
    if q != POLL {
      WakeWaitersKeeps(BumpGeneration(s, q), q, false);
      BumpKeeps(s1, POLL);
      assert SameCorpses(s1, BumpGeneration(s1, POLL));
      WakeWaitersCorpses(BumpGeneration(s1, POLL), POLL, true);
    }
  }

  lemma SwitchCorpses(s: State)
    requires Core(s)
    ensures SameCorpses(s, Switch(s))
  {
    assert ThreadOk(s, s.current) && ThreadOk(s, s.idle);
  }

  lemma {:induction false} WakeDueCorpses(s: State, now: nat, list: seq<nat>)
    requires Core(s) && NoDup(list) && forall u :: u in list ==> u in s.sleepers
    ensures SameCorpses(s, WakeDue(s, now, list))
    decreases |list|
  {
    if list != [] {
      TailNoDup(list);
      assert ThreadOk(s, list[0]);
      if s.threads[list[0]].wakeAt <= now {
        WakeSleeperIsUnblock(s, list[0]);
        UnblockKeeps(s, list[0], false);
        UnblockCorpses(s, list[0]);
        WakeDueCorpses(WakeSleeper(s, list[0]), now, list[1..]);
      } else {
        WakeDueCorpses(s, now, list[1..]);
      }
    }
  }

  lemma TickCorpses(s: State, now: nat)
    requires Inv(s)
    ensures SameCorpses(s, Charge(WakeDue(s, now, s.sleepers)))
  {
    WakeDueKeeps(s, now, s.sleepers);
    WakeDueCorpses(s, now, s.sleepers);
    ChargeCorpses(WakeDue(s, now, s.sleepers));
  }

  lemma ChargeCorpses(s: State)
    requires Core(s)
    ensures SameCorpses(s, Charge(s))
  {
    var th := s.threads[s.current];
    assert ThreadOk(s, s.current);
    var left := if th.quantum > 0 then th.quantum - 1 else 0;
    QuantumKeeps(s, left);
    SwitchCorpses(Update(s, s.current, th.(quantum := left)));
  }

  lemma ReleaseCorpses(s: State)
    requires Inv(s) && Enabled(s, Release)
    ensures !WakesCorpse(s, Release) ==> SameCorpses(s, StepRelease(s))
    ensures WakesCorpse(s, Release) ==> ReadyCorpse(StepRelease(s), Holds(s.threads[s.current].pc).value)
  {
    var t := Holds(s.threads[s.current].pc).value;
    assert WakeOk(s, s.current);
    UnblockPlaces(s, t);
    if s.threads[t].pc != Dead {
      UnblockCorpses(s, t);
    } else {
      assert ThreadOk(s, t);
    }
  }

  lemma StepCorpses(s: State, step: Step)
    requires Inv(s) && Enabled(s, step) && !WakesCorpse(s, step)
    ensures SameCorpses(s, Next(s, step))
  {
    match step {
      case Tick(now) => TickCorpses(s, now);
      case Yield => SwitchCorpses(s);
      case InterruptWake(q) => InterruptCorpses(s, q);
      case InterruptSignal(u) => assert ThreadOk(s, u); UnblockCorpses(s, u);
      case Release => ReleaseCorpses(s);
      case _ =>
    }
  }

  /** A step keeps everyone who is ready in line exactly when it does not let go of a thread that has exited. */
  lemma ReadyExactly(s: State, step: Step)
    requires Inv(s) && Enabled(s, step) && ReadyQueued(s)
    ensures ReadyQueued(Next(s, step)) <==> !WakesCorpse(s, step)
  {
    NextKeeps(s, step);
    ReadyIffNoCorpse(s);
    ReadyIffNoCorpse(Next(s, step));
    if WakesCorpse(s, step) { ReleaseCorpses(s); } else { StepCorpses(s, step); }
  }

  /** Where the two threads of the story stand: `a` goes to wait, `b` is the one that wakes. */
  ghost predicate Stage(s: State, current: nat, a: nat, tha: Thread, b: nat, thb: Thread, line: seq<nat>) {
    && Inv(s) && a != b && a != s.idle && b != s.idle && s.sleepers == [] && s.current == current
    && a in s.threads && b in s.threads && s.threads[a] == tha && s.threads[b] == thb && s.runQueue == line
  }

  lemma GoesToWait(s: State, a: nat, tha: Thread, b: nat, thb: Thread, q: nat) returns (s3: State)
    requires Stage(s, a, a, tha, b, thb, [b]) && tha.state == Running && tha.pc == Free && thb.state == Ready
    requires q in s.queues && q != POLL && s.queues[q].waiters == []
    ensures Follows(s, [Wait(q), Block, Yield], s3)
    ensures Stage(s3, b, a, tha.(state := Blocked, pc := Blocking(q, None), waitLinked := true), b,
      thb.(state := Running, quantum := QUANTUM, runLinked := false), [])
    ensures q in s3.queues && s3.queues[q].waiters == [a]
  {
    NotWaiting(s);
    var s1 := Next(s, Wait(q));
    NextKeeps(s, Wait(q));
    var s2 := Next(s1, Block);
    NextKeeps(s1, Block);
    s3 := Next(s2, Yield);
    NextKeeps(s2, Yield);
    FollowsThree(s, Wait(q), s1, Block, s2, Yield, s3);
  }

  lemma StartsDraining(s: State, a: nat, tha: Thread, b: nat, thb: Thread, q: nat) returns (s1: State)
    requires Stage(s, b, a, tha, b, thb, []) && thb.state == Running && thb.pc == Free
    requires q in s.queues && s.queues[q].waiters == [a]
    ensures Leads(s, WakeAll(q), s1) && q in s1.queues && s1.queues[q].waiters == [a]
    ensures Stage(s1, b, a, tha, b, thb.(pc := Waking(Drain(q, None))), [])
  {
    s1 := Next(s, WakeAll(q));
    NextKeeps(s, WakeAll(q));
  }

  lemma TakesInHand(s: State, a: nat, tha: Thread, b: nat, thb: Thread, q: nat) returns (s1: State)
    requires Stage(s, b, a, tha, b, thb, []) && thb.state == Running && thb.pc == Waking(Drain(q, None))
    requires q in s.queues && s.queues[q].waiters == [a]
    ensures Leads(s, DrainTake, s1)
    ensures Stage(s1, b, a, tha.(waitLinked := false), b, thb.(pc := Waking(Drain(q, Some(a)))), [])
  {
    s1 := Next(s, DrainTake);
    NextKeeps(s, DrainTake);
  }

  lemma Signalled(s: State, a: nat, tha: Thread, b: nat, thb: Thread) returns (s1: State)
    requires Stage(s, b, a, tha, b, thb, []) && tha.state == Blocked && !tha.runLinked
    ensures Leads(s, InterruptSignal(a), s1)
    ensures Stage(s1, b, a, tha.(state := Ready, runLinked := true), b, thb, [a])
  {
    s1 := Next(s, InterruptSignal(a));
    NextKeeps(s, InterruptSignal(a));
  }

  lemma TakenInHand(s: State, a: nat, tha: Thread, b: nat, thb: Thread, q: nat) returns (s3: State)
    requires Stage(s, b, a, tha, b, thb, []) && thb.state == Running && thb.pc == Free
    requires tha.state == Blocked && !tha.runLinked && q in s.queues && s.queues[q].waiters == [a]
    ensures Follows(s, [WakeAll(q), DrainTake, InterruptSignal(a)], s3)
    ensures Stage(s3, b, a, tha.(state := Ready, waitLinked := false, runLinked := true), b,
      thb.(pc := Waking(Drain(q, Some(a)))), [a])
  {
    var s1 := StartsDraining(s, a, tha, b, thb, q);
    var s2 := TakesInHand(s1, a, tha, b, thb.(pc := Waking(Drain(q, None))), q);
    s3 := Signalled(s2, a, tha.(waitLinked := false), b, thb.(pc := Waking(Drain(q, Some(a)))));
    FollowsThree(s, WakeAll(q), s1, DrainTake, s2, InterruptSignal(a), s3);
  }

  /** A tick with time left. */
  lemma TimeLeft(s: State, a: nat, tha: Thread, b: nat, thb: Thread, n: nat) returns (s1: State)
    requires Stage(s, b, a, tha, b, thb.(quantum := n), [a]) && n > 1
    ensures Leads(s, Tick(0), s1) && Stage(s1, b, a, tha, b, thb.(quantum := n - 1), [a])
  {
    s1 := Next(s, Tick(0));
    NextKeeps(s, Tick(0));
  }

  lemma TimeUp(s: State, a: nat, tha: Thread, b: nat, thb: Thread) returns (s1: State)
    requires Stage(s, b, a, tha, b, thb.(quantum := 1), [a]) && thb.state == Running && !thb.runLinked
    ensures Leads(s, Tick(0), s1)
    ensures Stage(s1, a, a, tha.(state := Running, quantum := QUANTUM, runLinked := false), b,
      thb.(state := Ready, quantum := 0, runLinked := true), [b])
  {
    s1 := Next(s, Tick(0));
    NextKeeps(s, Tick(0));
  }

  /** The waker's time runs out. */
  lemma Preempted(s: State, a: nat, tha: Thread, b: nat, thb: Thread) returns (s5: State)
    requires Stage(s, b, a, tha, b, thb, [a]) && thb.quantum == 5 && thb.state == Running && !thb.runLinked
    ensures Follows(s, [Tick(0), Tick(0), Tick(0), Tick(0), Tick(0)], s5)
    ensures Stage(s5, a, a, tha.(state := Running, quantum := QUANTUM, runLinked := false), b,
      thb.(state := Ready, quantum := 0, runLinked := true), [b])
  {
    assert thb.(quantum := 5) == thb;
    var s1 := TimeLeft(s, a, tha, b, thb, 5);
    var s2 := TimeLeft(s1, a, tha, b, thb, 4);
    var s3 := TimeLeft(s2, a, tha, b, thb, 3);
    var s4 := TimeLeft(s3, a, tha, b, thb, 2);
    s5 := TimeUp(s4, a, tha, b, thb);
    var t: Step := Tick(0);
    FollowsThree(s, t, s1, t, s2, t, s3);
    FollowsOne(s3, t, s4);
    FollowsOne(s4, t, s5);
    FollowsOn(s3, [t], s4, [t], s5);
    FollowsOn(s, [t, t, t], s3, [t] + [t], s5);
    assert [t, t, t] + ([t] + [t]) == [t, t, t, t, t];
  }

  lemma Exits(s: State, a: nat, tha: Thread, b: nat, thb: Thread, q: nat) returns (s3: State)
    requires Stage(s, a, a, tha, b, thb, [b]) && tha.state == Running && tha.pc == Blocking(q, None) && !tha.waitLinked
    requires thb.state == Ready
    ensures Follows(s, [Resume, Exit, Yield], s3) && Inv(s3)
    ensures s3.current == b && b in s3.threads && s3.threads[b].state == Running && s3.threads[b].pc == thb.pc &&
      b != s3.idle
    ensures a in s3.threads && s3.threads[a].pc == Dead && a != s3.idle
  {
    assert ThreadOk(s, a);
    var s1 := Next(s, Resume);
    NextKeeps(s, Resume);
    assert Stage(s1, a, a, tha.(pc := Free), b, thb, [b]);
    var s2 := Next(s1, Exit);
    NextKeeps(s1, Exit);
    assert s2.runQueue == [b] && s2.threads[a].pc == Dead && s2.threads[a].state == Zombie && s2.threads[b] == thb;
    s3 := Next(s2, Yield);
    NextKeeps(s2, Yield);
    FollowsThree(s, Resume, s1, Exit, s2, Yield, s3);
  }

  lemma MarkedReady(s: State, a: nat, b: nat, q: nat) returns (s1: State)
    requires Inv(s) && s.current == b && b in s.threads && s.threads[b].state == Running && b != s.idle
    requires s.threads[b].pc == Waking(Drain(q, Some(a))) && a in s.threads && s.threads[a].pc == Dead && a != s.idle
    ensures Follows(s, [Release], s1) && Inv(s1) && ReadyCorpse(s1, a) && a in s1.zombies && !ReadyQueued(s1)
  {
    ReleaseCorpses(s);
    s1 := Next(s, Release);
    NextKeeps(s, Release);
    FollowsOne(s, Release, s1);
    assert ThreadOk(s1, a);
    ReadyIffNoCorpse(s1);
  }

  /**
   * From any state in which a thread runs and `b` alone is in line: the thread waits, `b` takes it in
   * hand and is preempted, a signal wakes it first, it runs and exits, and `b` then marks a zombie ready.
   */
  lemma ZombieMarkedReady(s: State, b: nat, q: nat) returns (s': State)
    requires Inv(s) && At(s, Free) && s.runQueue == [b] && s.sleepers == [] && b in s.threads && s.threads[b].pc == Free
    requires q in s.queues && q != POLL && s.queues[q].waiters == []
    ensures Follows(s, [Wait(q), Block, Yield] + [WakeAll(q), DrainTake, InterruptSignal(s.current)] +
      [Tick(0), Tick(0), Tick(0), Tick(0), Tick(0)] + [Resume, Exit, Yield] + [Release], s')
    ensures Inv(s') && ReadyCorpse(s', s.current) && s.current in s'.zombies && !ReadyQueued(s')
  {
    var a := s.current;
    assert ThreadOk(s, a) && ThreadOk(s, b);
    NotWaiting(s);
    var s3 := GoesToWait(s, a, s.threads[a], b, s.threads[b], q);
    var s6 := TakenInHand(s3, a, s3.threads[a], b, s3.threads[b], q);
    var s11 := Preempted(s6, a, s6.threads[a], b, s6.threads[b]);
    var s14 := Exits(s11, a, s11.threads[a], b, s11.threads[b], q);
    s' := MarkedReady(s14, a, b, q);
    var one, two: seq<Step> := [Wait(q), Block, Yield], [WakeAll(q), DrainTake, InterruptSignal(a)];
    var three, four: seq<Step> := [Tick(0), Tick(0), Tick(0), Tick(0), Tick(0)], [Resume, Exit, Yield];
    FollowsOn(s, one, s3, two, s6);
    FollowsOn(s, one + two, s6, three, s11);
    FollowsOn(s, one + two + three, s11, four, s14);
    FollowsOn(s, one + two + three + four, s14, [Release], s');
  }
}
