/** What every section of the scheduler keeps. */
module SchedulerInvariant {
  import opened Base
  import opened Queues
  import opened Scheduler

  /** The wait queue a thread has put itself on and not yet left. */
  function QueueOf(pc: Pc): Option<nat> {
    if pc.Enqueued? || pc.Blocking? then Some(pc.queue) else None
  }

  /** The poll generation the thread had read when it queued up. */
  function SeenOf(pc: Pc): Option<nat> {
    if pc.Enqueued? || pc.Blocking? then pc.seen else None
  }

  ghost predicate OnQueue(s: State, t: nat)
    requires t in s.threads
  {
    var q := QueueOf(s.threads[t].pc);
    q.Some? && q.value in s.queues && t in s.queues[q.value].waiters
  }

  /** The state of a thread says which lists it is on, and each node is on at most one. */
  ghost predicate ThreadOk(s: State, t: nat)
    requires t in s.threads
  {
    var th := s.threads[t];
    && (th.runLinked <==> t in s.runQueue || t in s.zombies)
    && (t in s.runQueue <==> th.state == Ready && t != s.idle && th.pc != Dead)
    && (t in s.zombies <==> th.pc == Dead)
    && (t in s.sleepers <==> th.state == Sleeping)
    && (th.waitLinked <==> t in s.sleepers || OnQueue(s, t))
    && (th.state == Running ==> t == s.current && th.pc != Dead)
    && (th.state == Sleeping ==> th.pc == Napping)
    && (th.state == Blocked ==> th.pc.Blocking?)
    && (th.state == Stopped ==> th.pc == Halted)
    && (th.state == Zombie ==> th.pc == Dead)
    && (th.pc == Dead ==> th.state in {Zombie, Ready})
    && (th.pc.Waking? ==> th.state in {Running, Ready} && s.current != s.idle)
    && (QueueOf(th.pc).Some? ==> QueueOf(th.pc).value in s.queues)
    && (t == s.idle ==> th.state in {Ready, Running} && th.pc == Free)
    && th.quantum <= QUANTUM
  }

  ghost predicate DrainsPoll(pc: Pc) {
    pc.Waking? && pc.wake.Drain? && pc.wake.queue == POLL
  }

  /** Some thread is emptying the poll queue. */
  ghost predicate PollDraining(s: State) {
    exists w :: w in s.threads && DrainsPoll(s.threads[w].pc)
  }

  /** `stale`: an interrupt handler is emptying the poll queue. */
  ghost predicate WaiterOk(s: State, q: nat, t: nat, stale: bool)
    requires q in s.queues
  {
    && t in s.threads && QueueOf(s.threads[t].pc) == Some(q)
    && (q == POLL ==>
          && SeenOf(s.threads[t].pc).Some?
          && (SeenOf(s.threads[t].pc).value == s.queues[POLL].generation || PollDraining(s) || stale))
  }

  ghost predicate QueueOk(s: State, q: nat, stale: bool)
    requires q in s.queues
  {
    NoDup(s.queues[q].waiters) && forall t :: t in s.queues[q].waiters ==> WaiterOk(s, q, t, stale)
  }

  /** A waker only ever holds a thread that still exists. */
  ghost predicate WakeOk(s: State, t: nat)
    requires t in s.threads
  {
    && (Holds(s.threads[t].pc).Some? ==> Holds(s.threads[t].pc).value in s.threads)
    && (s.threads[t].pc.Waking? && s.threads[t].pc.wake.Drain? ==> s.threads[t].pc.wake.queue in s.queues)
  }

  ghost predicate Lists(s: State) {
    && NoDup(s.runQueue) && NoDup(s.zombies) && NoDup(s.sleepers)
    && (forall t :: t in s.runQueue || t in s.zombies || t in s.sleepers ==> t in s.threads)
  }

  ghost predicate Inv(s: State) {
    Core(s) && s.threads[s.current].quantum >= 1
  }

  ghost predicate Core(s: State) {
    CoreBut(s, false)
  }

  ghost predicate CoreBut(s: State, stale: bool) {
    && s.current in s.threads && s.idle in s.threads && POLL in s.queues && !s.corrupt
    && Lists(s)
    && (forall t {:trigger ThreadOk(s, t)} :: t in s.threads ==> ThreadOk(s, t))
    && (forall q {:trigger QueueOk(s, q, stale)} :: q in s.queues ==> QueueOk(s, q, stale))
    && (forall t {:trigger WakeOk(s, t)} :: t in s.threads ==> WakeOk(s, t))
  }

  // --- what does not change

  /** Nothing a queue or a waker depends on has changed. */
  ghost predicate Undisturbed(s: State, s': State) {
    && s'.queues == s.queues && s'.threads.Keys >= s.threads.Keys
    && (forall t :: t in s.threads ==>
         && (QueueOf(s.threads[t].pc).Some? ==>
               && QueueOf(s'.threads[t].pc) == QueueOf(s.threads[t].pc)
               && SeenOf(s'.threads[t].pc) == SeenOf(s.threads[t].pc))
         && (DrainsPoll(s.threads[t].pc) ==> DrainsPoll(s'.threads[t].pc)))
    && (forall t :: t in s'.threads && s'.threads[t].pc.Waking? ==>
          t in s.threads && s'.threads[t].pc == s.threads[t].pc)
  }

  lemma QueuesKept(s: State, s': State, stale: bool)
    requires CoreBut(s, stale) && Undisturbed(s, s')
    ensures forall q {:trigger QueueOk(s', q, stale)} :: q in s'.queues ==> QueueOk(s', q, stale)
    ensures forall t {:trigger WakeOk(s', t)} :: t in s'.threads ==> WakeOk(s', t)
  {
    if PollDraining(s) { StillDraining(s, s'); }
    forall q | q in s'.queues ensures QueueOk(s', q, stale) {
      assert QueueOk(s, q, stale);
      forall u | u in s'.queues[q].waiters ensures WaiterOk(s', q, u, stale) {
        assert WaiterOk(s, q, u, stale);
      }
    }
    forall t | t in s'.threads ensures WakeOk(s', t) {
      if s'.threads[t].pc.Waking? { assert WakeOk(s, t); }
    }
  }

  lemma StillDraining(s: State, s': State)
    requires PollDraining(s)
    requires forall t :: t in s.threads && DrainsPoll(s.threads[t].pc) ==>
      t in s'.threads && DrainsPoll(s'.threads[t].pc)
    ensures PollDraining(s')
  {
    var w :| w in s.threads && DrainsPoll(s.threads[w].pc);
    assert w in s'.threads && DrainsPoll(s'.threads[w].pc);
  }

  // --- the scheduler

  lemma SpawnKeeps(s: State, t: nat)
    requires Core(s) && t !in s.threads
    ensures Core(StepSpawn(s, t))
  {
    var s' := StepSpawn(s, t);
    AppendNoDup(s.runQueue, t);
    forall u | u in s'.threads ensures ThreadOk(s', u) {
      if u != t { assert ThreadOk(s, u); }
    }
    QueuesKept(s, s', false);
  }

  /** The current thread going to the back of the line. */
  function Requeue(s: State): State
    requires s.current in s.threads
  {
    var ready := Update(s, s.current, s.threads[s.current].(state := Ready));
    if s.current != s.idle then AppendRun(ready, s.current) else ready
  }

  lemma RequeueKeeps(s: State)
    requires Core(s) && s.threads[s.current].state == Running
    ensures Core(Requeue(s))
  {
    var s' := Requeue(s);
    assert ThreadOk(s, s.current);
    AppendNoDup(s.runQueue, s.current);
    forall u | u in s'.threads ensures ThreadOk(s', u) {
      RequeueThread(s, u);
    }
    QueuesKept(s, s', false);
  }

  lemma RequeueThread(s: State, u: nat)
    requires Core(s) && s.threads[s.current].state == Running && u in s.threads
    ensures u in Requeue(s).threads && ThreadOk(Requeue(s), u)
  {
    assert ThreadOk(s, s.current) && ThreadOk(s, u);
  }

  /** The first in line, or the idle thread, gets the processor. */
  function Dispatch(s: State): State
    requires s.idle in s.threads && forall t :: t in s.runQueue ==> t in s.threads
  {
    if s.runQueue == [] then
      Update(s, s.idle, s.threads[s.idle].(state := Running, quantum := QUANTUM)).(current := s.idle)
    else
      var next := s.runQueue[0];
      Update(s, next, s.threads[next].(state := Running, quantum := QUANTUM, runLinked := false)).(
        current := next, runQueue := s.runQueue[1..])
  }

  /** With nobody in line and nobody running, nobody is in the middle of a wake-up: only then does idle run. */
  lemma NoWaker(s: State, u: nat)
    requires Core(s) && s.threads[s.current].state != Running && s.runQueue == [] && u in s.threads
    ensures !s.threads[u].pc.Waking?
  {
    assert ThreadOk(s, u) && ThreadOk(s, s.idle);
  }

  lemma DispatchThread(s: State, u: nat)
    requires Core(s) && s.threads[s.current].state != Running && u in s.threads
    ensures u in Dispatch(s).threads && ThreadOk(Dispatch(s), u)
  {
    var s' := Dispatch(s);
    assert ThreadOk(s, s'.current) && ThreadOk(s, u);
    if s.runQueue != [] { TailNoDup(s.runQueue); } else { NoWaker(s, u); }
  }

  lemma DispatchKeeps(s: State)
    requires Core(s) && s.threads[s.current].state != Running
    ensures Core(Dispatch(s))
  {
    var s' := Dispatch(s);
    if s.runQueue != [] { TailNoDup(s.runQueue); }
    forall u | u in s'.threads ensures ThreadOk(s', u) {
      DispatchThread(s, u);
    }
    QueuesKept(s, s', false);
  }

  lemma SwitchKeeps(s: State)
    requires Core(s)
    ensures Inv(Switch(s))
  {
    if s.threads[s.current].state == Running {
      RequeueKeeps(s);
      DispatchKeeps(Requeue(s));
      assert Switch(s) == Dispatch(Requeue(s));
    } else {
      DispatchKeeps(s);
      assert Switch(s) == Dispatch(s);
    }
  }

  /**
   * Waking a thread, from wherever it sleeps or blocks: the right list, and only that list, loses it. One
   * that has exited is marked ready and stays where it is, on the list of zombies.
   */
  lemma UnblockKeeps(s: State, t: nat, stale: bool)
    requires CoreBut(s, stale) && t in s.threads
    ensures CoreBut(Unblock(s, t), stale)
  {
    var s' := Unblock(s, t);
    assert ThreadOk(s, t);
    if s.threads[t].state !in {Running, Ready} {
      UnblockLists(s, t, stale);
      forall u | u in s'.threads ensures ThreadOk(s', u) {
        UnblockThread(s, t, u, stale);
      }
      QueuesKept(s, s', stale);
    }
  }

  lemma UnblockLists(s: State, t: nat, stale: bool)
    requires CoreBut(s, stale) && t in s.threads && s.threads[t].state !in {Running, Ready}
    ensures Lists(Unblock(s, t)) && !Unblock(s, t).corrupt && Undisturbed(s, Unblock(s, t))
    ensures forall u :: u in Unblock(s, t).runQueue <==> u in s.runQueue || (u == t && s.threads[t].pc != Dead)
    ensures forall u :: u in Unblock(s, t).sleepers <==> u in s.sleepers && u != t
  {
    assert ThreadOk(s, t);
    if s.threads[t].pc != Dead { AppendNoDup(s.runQueue, t); }
    MinusNoDup(s.sleepers, t);
  }

  lemma UnblockThread(s: State, t: nat, u: nat, stale: bool)
    requires CoreBut(s, stale) && t in s.threads && s.threads[t].state !in {Running, Ready} && u in s.threads
    ensures u in Unblock(s, t).threads && ThreadOk(Unblock(s, t), u)
  {
    UnblockLists(s, t, stale);
    assert ThreadOk(s, t) && ThreadOk(s, u);
  }

  lemma WakeSleeperIsUnblock(s: State, t: nat)
    requires Core(s) && t in s.sleepers
    ensures t in s.threads && WakeSleeper(s, t) == Unblock(s, t)
    ensures forall u :: u in WakeSleeper(s, t).sleepers <==> u in s.sleepers && u != t
  {
    assert ThreadOk(s, t);
    MinusNoDup(s.sleepers, t);
  }

  lemma {:induction false} WakeDueKeeps(s: State, now: nat, list: seq<nat>)
    requires Core(s) && NoDup(list) && forall t :: t in list ==> t in s.sleepers
    ensures Core(WakeDue(s, now, list))
    decreases |list|
  {
    if list != [] {
      TailNoDup(list);
      if s.threads[list[0]].wakeAt <= now {
        WakeSleeperIsUnblock(s, list[0]);
        UnblockKeeps(s, list[0], false);
        WakeDueKeeps(WakeSleeper(s, list[0]), now, list[1..]);
      } else {
        WakeDueKeeps(s, now, list[1..]);
      }
    }
  }

  lemma QuantumKeeps(s: State, quantum: nat)
    requires Core(s) && quantum <= QUANTUM
    ensures Core(Update(s, s.current, s.threads[s.current].(quantum := quantum)))
  {
    var s' := Update(s, s.current, s.threads[s.current].(quantum := quantum));
    forall u | u in s'.threads ensures ThreadOk(s', u) {
      assert ThreadOk(s, u);
    }
    QueuesKept(s, s', false);
  }

  lemma ChargeKeeps(s: State)
    requires Core(s)
    ensures Inv(Charge(s))
  {
    var th := s.threads[s.current];
    assert ThreadOk(s, s.current);
    var left := if th.quantum > 0 then th.quantum - 1 else 0;
    var s1 := Update(s, s.current, th.(quantum := left));
    QuantumKeeps(s, left);
    QuantumKeeps(s1, QUANTUM);
    assert Update(s1, s.current, th.(quantum := QUANTUM)) ==
      Update(s1, s.current, s1.threads[s.current].(quantum := QUANTUM));
    SwitchKeeps(s1);
  }

  lemma TickKeeps(s: State, now: nat)
    requires Core(s)
    ensures Inv(Charge(WakeDue(s, now, s.sleepers)))
  {
    WakeDueKeeps(s, now, s.sleepers);
    ChargeKeeps(WakeDue(s, now, s.sleepers));
  }

  // --- what a thread does between sections

  /** Moving between positions off every queue, or marking oneself blocked or stopped. */
  lemma SetThreadKeeps(s: State, state: ThreadState, pc: Pc)
    requires Inv(s) && AtSome(s) && s.threads[s.current].pc != Dead
    requires QueueOf(pc) == QueueOf(s.threads[s.current].pc) && SeenOf(pc) == SeenOf(s.threads[s.current].pc)
    requires !DrainsPoll(s.threads[s.current].pc) || s.queues[POLL].waiters == [] || DrainsPoll(pc)
    requires Holds(pc).Some? ==> Holds(pc).value in s.threads
    requires pc.Waking? && pc.wake.Drain? ==> pc.wake.queue in s.queues
    requires (state == Running && pc != Dead) || (state == Blocked && pc.Blocking?) ||
      (state == Stopped && pc == Halted)
    ensures Inv(Update(s, s.current, s.threads[s.current].(state := state, pc := pc)))
  {
    var s' := Update(s, s.current, s.threads[s.current].(state := state, pc := pc));
    forall u | u in s'.threads ensures ThreadOk(s', u) {
      assert ThreadOk(s, u);
    }
    forall q | q in s'.queues ensures QueueOk(s', q, false) {
      SetThreadQueue(s, s', q);
    }
    forall t | t in s'.threads ensures WakeOk(s', t) {
      assert WakeOk(s, t);
    }
  }

  lemma SetThreadQueue(s: State, s': State, q: nat)
    requires Core(s) && s'.queues == s.queues && q in s.queues && s'.threads.Keys == s.threads.Keys
    requires forall t :: t in s.threads && t != s.current ==> s'.threads[t] == s.threads[t]
    requires QueueOf(s'.threads[s.current].pc) == QueueOf(s.threads[s.current].pc)
    requires SeenOf(s'.threads[s.current].pc) == SeenOf(s.threads[s.current].pc)
    requires s.queues[POLL].waiters == [] ||
      (DrainsPoll(s.threads[s.current].pc) ==> DrainsPoll(s'.threads[s.current].pc))
    ensures QueueOk(s', q, false)
  {
    assert QueueOk(s, q, false);
    if s.queues[POLL].waiters != [] && PollDraining(s) { StillDraining(s, s'); }
    forall u | u in s'.queues[q].waiters ensures WaiterOk(s', q, u, false) {
      assert WaiterOk(s, q, u, false);
    }
  }

  /** A running thread at no queue position is on no waiting list. */
  lemma NotWaiting(s: State)
    requires Core(s) && AtSome(s) && QueueOf(s.threads[s.current].pc).None?
    ensures !s.threads[s.current].waitLinked && !s.threads[s.current].runLinked
    ensures s.current !in s.sleepers && s.current !in s.runQueue && s.current !in s.zombies
    ensures forall q :: q in s.queues ==> s.current !in s.queues[q].waiters
  {
    assert ThreadOk(s, s.current);
    forall q | q in s.queues ensures s.current !in s.queues[q].waiters {
      assert QueueOk(s, q, false);
    }
  }

  lemma WaitThread(s: State, q: nat, seen: Option<nat>, u: nat)
    requires Core(s) && AtSome(s) && QueueOf(s.threads[s.current].pc).None?
    requires q in s.queues && u in s.threads
    ensures u in StepWait(s, q, seen).threads && ThreadOk(StepWait(s, q, seen), u)
  {
    var s' := StepWait(s, q, seen);
    NotWaiting(s);
    assert ThreadOk(s, u);
    assert forall x :: x in s'.queues[q].waiters <==> x in s.queues[q].waiters || x == s.current;
  }

  lemma WaitQueues(s: State, q: nat, seen: Option<nat>, r: nat)
    requires Core(s) && AtSome(s) && QueueOf(s.threads[s.current].pc).None? && q in s.queues && r in s.queues
    requires !s.threads[s.current].pc.Waking?
    requires q == POLL ==> seen == Some(s.queues[POLL].generation)
    ensures QueueOk(StepWait(s, q, seen), r, false)
  {
    var s' := StepWait(s, q, seen);
    NotWaiting(s);
    assert QueueOk(s, r, false);
    if PollDraining(s) { StillDraining(s, s'); }
    if r == q { AppendNoDup(s.queues[q].waiters, s.current); }
    forall u | u in s'.queues[r].waiters ensures WaiterOk(s', r, u, false) {
      if u != s.current { assert WaiterOk(s, r, u, false); }
    }
  }

  /** Queueing up, with the poll generation checked in the same section. */
  lemma WaitKeeps(s: State, q: nat, seen: Option<nat>)
    requires Inv(s) && AtSome(s) && QueueOf(s.threads[s.current].pc).None? && !s.threads[s.current].pc.Waking?
    requires q in s.queues && (q == POLL ==> seen == Some(s.queues[POLL].generation))
    ensures Inv(StepWait(s, q, seen))
  {
    var s' := StepWait(s, q, seen);
    forall u | u in s'.threads ensures ThreadOk(s', u) {
      WaitThread(s, q, seen, u);
    }
    forall r | r in s'.queues ensures QueueOk(s', r, false) {
      WaitQueues(s, q, seen, r);
    }
    forall w | w in s'.threads ensures WakeOk(s', w) {
      assert WakeOk(s, w);
    }
  }

  lemma SleepKeeps(s: State, deadline: nat)
    requires Inv(s) && At(s, Free)
    ensures Inv(StepSleep(s, deadline))
  {
    var s' := StepSleep(s, deadline);
    NotWaiting(s);
    AppendNoDup(s.sleepers, s.current);
    forall u | u in s'.threads ensures ThreadOk(s', u) {
      assert ThreadOk(s, u);
    }
    QueuesKept(s, s', false);
  }

  /** Leaving the queue one had joined: the only queue the splice is ever applied to. */
  lemma DetachThread(s: State, u: nat)
    requires Core(s) && AtSome(s) && s.threads[s.current].pc.Blocking? && u in s.threads
    ensures u in StepResume(s).threads && ThreadOk(StepResume(s), u)
  {
    var q := s.threads[s.current].pc.queue;
    assert ThreadOk(s, u) && ThreadOk(s, s.current);
    assert QueueOk(s, q, false);
    MinusNoDup(s.queues[q].waiters, s.current);
  }

  lemma DetachQueues(s: State, r: nat)
    requires Core(s) && AtSome(s) && s.threads[s.current].pc.Blocking? && r in s.queues
    ensures r in StepResume(s).queues && QueueOk(StepResume(s), r, false)
  {
    var s' := StepResume(s);
    var q := s.threads[s.current].pc.queue;
    assert ThreadOk(s, s.current);
    assert QueueOk(s, q, false) && QueueOk(s, r, false);
    MinusNoDup(s.queues[q].waiters, s.current);
    if PollDraining(s) { StillDraining(s, s'); }
    forall u | u in s'.queues[r].waiters ensures WaiterOk(s', r, u, false) {
      assert WaiterOk(s, r, u, false);
    }
  }

  lemma ResumeKeeps(s: State)
    requires Inv(s) && Enabled(s, Resume)
    ensures Inv(StepResume(s))
  {
    var s' := StepResume(s);
    assert ThreadOk(s, s.current);
    if s.threads[s.current].pc.Blocking? {
      forall u | u in s'.threads ensures ThreadOk(s', u) {
        DetachThread(s, u);
      }
      forall r | r in s'.queues ensures QueueOk(s', r, false) {
        DetachQueues(s, r);
      }
      forall w | w in s'.threads ensures WakeOk(s', w) {
        assert WakeOk(s, w);
      }
    } else {
      SetThreadKeeps(s, Running, Free);
    }
  }

  lemma ExitKeeps(s: State)
    requires Inv(s) && At(s, Free)
    ensures Inv(StepExit(s))
  {
    var s' := StepExit(s);
    NotWaiting(s);
    AppendNoDup(s.zombies, s.current);
    forall u | u in s'.threads ensures ThreadOk(s', u) {
      assert ThreadOk(s, u);
    }
    QueuesKept(s, s', false);
  }

  lemma ReapKeeps(s: State)
    requires Inv(s) && Enabled(s, Reap)
    ensures Inv(StepReap(s))
  {
    var s' := StepReap(s);
    var z := s.zombies[0];
    assert ThreadOk(s, z) && ThreadOk(s, s.idle);
    TailNoDup(s.zombies);
    forall u | u in s'.threads ensures ThreadOk(s', u) && WakeOk(s', u) {
      assert ThreadOk(s, u);
    }
    forall q | q in s'.queues ensures QueueOk(s', q, false) {
      assert QueueOk(s, q, false);
      forall u | u in s'.queues[q].waiters ensures WaiterOk(s', q, u, false) {
        ReapWaiter(s, q, u);
      }
    }
  }

  lemma ReapWaiter(s: State, q: nat, u: nat)
    requires Inv(s) && Enabled(s, Reap) && q in s.queues && u in s.queues[q].waiters
    ensures q in StepReap(s).queues && WaiterOk(StepReap(s), q, u, false)
  {
    assert QueueOk(s, q, false);
    assert WaiterOk(s, q, u, false);
    assert ThreadOk(s, u) && ThreadOk(s, s.zombies[0]);
    forall w | w in s.threads ensures !DrainsPoll(s.threads[w].pc) { assert ThreadOk(s, w); }
  }

  // --- waking

  lemma StartDrainKeeps(s: State, q: nat)
    requires Inv(s) && q in s.queues && (At(s, Free) || At(s, Waking(Bump)))
    ensures Inv(SetPc(BumpGeneration(s, q), Waking(Drain(q, None))))
  {
    var s' := SetPc(BumpGeneration(s, q), Waking(Drain(q, None)));
    forall u | u in s'.threads ensures ThreadOk(s', u) && WakeOk(s', u) {
      assert ThreadOk(s, u) && WakeOk(s, u);
    }
    assert q == POLL ==> DrainsPoll(s'.threads[s.current].pc);
    if PollDraining(s) { StillDraining(s, s'); }
    forall r | r in s'.queues ensures QueueOk(s', r, false) {
      assert QueueOk(s, r, false);
      forall u | u in s'.queues[r].waiters ensures WaiterOk(s', r, u, false) {
        assert WaiterOk(s, r, u, false);
      }
    }
  }

  lemma TakeThread(s: State, q: nat, u: nat, stale: bool)
    requires CoreBut(s, stale) && q in s.queues && s.queues[q].waiters != [] && u in s.threads
    ensures u in TakeWaiter(s, q).threads && ThreadOk(TakeWaiter(s, q), u)
  {
    var t := s.queues[q].waiters[0];
    assert QueueOk(s, q, stale);
    assert WaiterOk(s, q, t, stale);
    assert ThreadOk(s, u) && ThreadOk(s, t);
    TailNoDup(s.queues[q].waiters);
  }

  lemma TakeQueues(s: State, q: nat, r: nat, stale: bool)
    requires CoreBut(s, stale) && q in s.queues && s.queues[q].waiters != [] && r in s.queues
    ensures r in TakeWaiter(s, q).queues && QueueOk(TakeWaiter(s, q), r, stale)
  {
    var s' := TakeWaiter(s, q);
    assert QueueOk(s, q, stale) && QueueOk(s, r, stale);
    assert WaiterOk(s, q, s.queues[q].waiters[0], stale);
    TailNoDup(s.queues[q].waiters);
    if PollDraining(s) { StillDraining(s, s'); }
    forall u | u in s'.queues[r].waiters ensures WaiterOk(s', r, u, stale) {
      assert WaiterOk(s, r, u, stale);
    }
  }

  /** The first waiter comes off its queue and is on no list. */
  lemma TakeKeeps(s: State, q: nat, stale: bool)
    requires CoreBut(s, stale) && q in s.queues && s.queues[q].waiters != []
    ensures CoreBut(TakeWaiter(s, q), stale) && s.queues[q].waiters[0] in s.threads
  {
    var s' := TakeWaiter(s, q);
    assert QueueOk(s, q, stale);
    assert WaiterOk(s, q, s.queues[q].waiters[0], stale);
    forall u | u in s'.threads ensures ThreadOk(s', u) && WakeOk(s', u) {
      TakeThread(s, q, u, stale);
      assert WakeOk(s, u);
    }
    forall r | r in s'.queues ensures QueueOk(s', r, stale) {
      TakeQueues(s, q, r, stale);
    }
  }

  /** A thread takes the next waiter in hand; finding none it goes on, and on the poll queue nobody stale is left. */
  lemma DrainTakeKeeps(s: State)
    requires Inv(s) && Enabled(s, DrainTake)
    ensures Inv(StepDrainTake(s))
  {
    var q := s.threads[s.current].pc.wake.queue;
    if s.queues[q].waiters == [] {
      SetThreadKeeps(s, Running, if q == POLL then Free else Waking(Bump));
    } else {
      TakeKeeps(s, q, false);
      SetThreadKeeps(TakeWaiter(s, q), Running, Waking(Drain(q, Some(s.queues[q].waiters[0]))));
    }
  }

  lemma WakeOneKeeps(s: State, q: nat)
    requires Inv(s) && At(s, Free) && q in s.queues
    ensures Inv(StepWakeOne(s, q))
  {
    if s.queues[q].waiters != [] {
      TakeKeeps(s, q, false);
      SetThreadKeeps(TakeWaiter(s, q), Running, Waking(One(s.queues[q].waiters[0])));
    }
  }

  /** The thread in hand is woken, wherever it has got to meanwhile: asleep, blocked elsewhere, running or gone. */
  lemma ReleaseKeeps(s: State)
    requires Inv(s) && Enabled(s, Release)
    ensures Inv(StepRelease(s))
  {
    var pc := s.threads[s.current].pc;
    var t := Holds(pc).value;
    assert WakeOk(s, s.current);
    UnblockKeeps(s, t, false);
    UnblockCurrent(s, t);
    SetThreadKeeps(Unblock(s, t), Running, if pc.wake.Drain? then Waking(Drain(pc.wake.queue, None)) else Free);
  }

  lemma {:induction false} WakeWaitersKeeps(s: State, q: nat, stale: bool)
    requires CoreBut(s, stale) && q in s.queues
    ensures CoreBut(WakeWaiters(s, q), stale) && WakeWaiters(s, q).current == s.current
    ensures WakeWaiters(s, q).threads[s.current].quantum == s.threads[s.current].quantum
    decreases |s.queues[q].waiters|
  {
    if s.queues[q].waiters != [] {
      var t := s.queues[q].waiters[0];
      TakeKeeps(s, q, stale);
      UnblockKeeps(TakeWaiter(s, q), t, stale);
      UnblockCurrent(TakeWaiter(s, q), t);
      WakeWaitersKeeps(Unblock(TakeWaiter(s, q), t), q, stale);
    }
  }

  lemma BumpKeeps(s: State, q: nat)
    requires Core(s) && q in s.queues
    ensures CoreBut(BumpGeneration(s, q), q == POLL)
  {
    var s' := BumpGeneration(s, q);
    forall u | u in s'.threads ensures ThreadOk(s', u) && WakeOk(s', u) {
      assert ThreadOk(s, u) && WakeOk(s, u);
    }
    if PollDraining(s) { StillDraining(s, s'); }
    forall r | r in s'.queues ensures QueueOk(s', r, q == POLL) {
      assert QueueOk(s, r, false);
      forall u | u in s'.queues[r].waiters ensures WaiterOk(s', r, u, q == POLL) {
        assert WaiterOk(s, r, u, false);
      }
    }
  }

  /** With the poll queue empty nobody on it is stale. */
  lemma NobodyStale(s: State)
    requires CoreBut(s, true) && s.queues[POLL].waiters == []
    ensures Core(s)
  {
    forall q | q in s.queues ensures QueueOk(s, q, false) {
      assert QueueOk(s, q, true);
      forall u | u in s.queues[q].waiters ensures WaiterOk(s, q, u, false) {
        assert WaiterOk(s, q, u, true);
      }
    }
  }

  lemma PollWakeKeeps(s: State)
    requires Inv(s)
    ensures Inv(WakeWaiters(BumpGeneration(s, POLL), POLL))
  {
    BumpKeeps(s, POLL);
    WakeWaitersKeeps(BumpGeneration(s, POLL), POLL, true);
    NobodyStale(WakeWaiters(BumpGeneration(s, POLL), POLL));
  }

  /** A wake-up from an interrupt handler, whatever the current thread was in the middle of. */
  lemma InterruptWakeKeeps(s: State, q: nat)
    requires Inv(s) && q in s.queues
    ensures Inv(StepInterruptWake(s, q))
  {
    if q == POLL {
      PollWakeKeeps(s);
    } else {
      BumpKeeps(s, q);
      WakeWaitersKeeps(BumpGeneration(s, q), q, false);
      PollWakeKeeps(WakeWaiters(BumpGeneration(s, q), q));
    }
  }

  /** Waking never touches who is current, nor a running thread. */
  lemma UnblockCurrent(s: State, t: nat)
    requires s.current in s.threads && t in s.threads
    ensures Unblock(s, t).current == s.current && Unblock(s, t).idle == s.idle && s.current in Unblock(s, t).threads
    ensures Unblock(s, t).threads[s.current].quantum == s.threads[s.current].quantum
    ensures s.threads[s.current].state == Running ==> Unblock(s, t).threads[s.current] == s.threads[s.current]
  {
    var th := s.threads[t];
    if th.state != Running && th.state != Ready {
      var s1 := if th.state == Sleeping && th.waitLinked then RemoveSleeper(s, t) else s;
      assert s1.current == s.current && s1.idle == s.idle &&
        s1.threads[s.current].quantum == s.threads[s.current].quantum;
      assert t != s.current ==> s1.threads[s.current] == s.threads[s.current];
      var s2 := Update(s1, t, s1.threads[t].(state := Ready));
      assert Unblock(s, t) == AppendRun(s2, t);
    }
  }
}
