/** Whole runs of the scheduler: the invariant, waiting that ends, and polls that miss nothing. */
module SchedulerRuns {
  import opened Base
  import opened Queues
  import opened Scheduler
  import opened SchedulerInvariant

  /** Every section keeps the invariant. */
  lemma NextKeeps(s: State, step: Step)
    requires Inv(s) && Enabled(s, step)
    ensures Inv(Next(s, step))
  {
    match step {
      case Spawn(t) => SpawnKeeps(s, t);
      case Tick(now) => TickKeeps(s, now);
      case Yield => SwitchKeeps(s);
      case Wait(q) => WaitKeeps(s, q, None);
      case ReadGeneration => SetThreadKeeps(s, Running, Polling(s.queues[POLL].generation));
      case PollReturn => SetThreadKeeps(s, Running, Free);
      case WaitSince =>
        SetThreadKeeps(s, Running, Free);
        if s.queues[POLL].generation == s.threads[s.current].pc.mark {
          WaitKeeps(s, POLL, Some(s.queues[POLL].generation));
        }
      case Block =>
        var pc := s.threads[s.current].pc;
        SetThreadKeeps(s, Blocked, Blocking(pc.queue, pc.seen));
      case Stop => SetThreadKeeps(s, Stopped, Halted);
      case Sleep(deadline) => SleepKeeps(s, deadline);
      case Resume => ResumeKeeps(s);
      case Exit => ExitKeeps(s);
      case Reap => ReapKeeps(s);
      case Signal(t) => SetThreadKeeps(s, Running, Waking(One(t)));
      case Continue(t) => SetThreadKeeps(s, Running, Waking(One(t)));
      case WakeAll(q) => StartDrainKeeps(s, q);
      case WakeOne(q) => WakeOneKeeps(s, q);
      case BumpPoll => StartDrainKeeps(s, POLL);
      case DrainTake => DrainTakeKeeps(s);
      case Release => ReleaseKeeps(s);
      case InterruptWake(q) => InterruptWakeKeeps(s, q);
      case InterruptSignal(t) =>
        UnblockKeeps(s, t, false);
        UnblockCurrent(s, t);
    }
  }

  // --- runs

  ghost predicate Steps(s: State, step: Step, s': State) {
    WellFormed(s) && Enabled(s, step) && s' == Next(s, step)
  }

  ghost predicate Run(states: seq<State>, steps: seq<Step>) {
    && |states| == |steps| + 1 && Inv(states[0])
    && forall i {:trigger steps[i]} :: 0 <= i < |steps| ==> Steps(states[i], steps[i], states[i + 1])
  }

  /** The state the machine boots into: `kmain` running, idle waiting, every queue empty. */
  ghost predicate Boot(s: State) {
    && s.idle != s.current && s.threads == map[s.idle := Resting(Ready), s.current := Resting(Running)]
    && s.runQueue == [] && s.zombies == [] && s.sleepers == [] && !s.corrupt
    && POLL in s.queues && forall q :: q in s.queues ==> s.queues[q].waiters == []
  }

  function Resting(state: ThreadState): Thread {
    Thread(state, QUANTUM, 0, false, false, Free)
  }

  lemma BootHolds(s: State)
    requires Boot(s)
    ensures Inv(s)
  {
  }

  lemma {:induction false} RunKeeps(states: seq<State>, steps: seq<Step>, i: nat)
    requires Run(states, steps) && i < |states|
    ensures Inv(states[i])
  {
    if i > 0 {
      RunKeeps(states, steps, i - 1);
      assert Steps(states[i - 1], steps[i - 1], states[i]);
      NextKeeps(states[i - 1], steps[i - 1]);
    }
  }

  // --- waiting for the processor ends

  /** Ticks and yields left before `t` runs, at most. */
  ghost function Rank(s: State, t: nat): nat
    requires s.current in s.threads && t in s.runQueue
  {
    s.threads[s.current].quantum + QUANTUM * Position(s.runQueue, t)
  }

  /** Nobody got in ahead of anyone, and the current thread was not charged. */
  ghost predicate Behind(s: State, s': State) {
    && s.runQueue <= s'.runQueue && s'.current == s.current && s'.idle == s.idle
    && s.current in s.threads && s.current in s'.threads
    && s'.threads[s.current].quantum == s.threads[s.current].quantum
  }

  lemma UnblockBehind(s: State, t: nat)
    requires s.current in s.threads && t in s.threads
    ensures Behind(s, Unblock(s, t))
  {
    UnblockCurrent(s, t);
  }

  lemma {:induction false} WakeDueBehind(s: State, now: nat, list: seq<nat>)
    requires Core(s) && NoDup(list) && forall t :: t in list ==> t in s.sleepers
    ensures Behind(s, WakeDue(s, now, list))
    decreases |list|
  {
    if list != [] {
      TailNoDup(list);
      if s.threads[list[0]].wakeAt <= now {
        var s1 := WakeSleeper(s, list[0]);
        WakeSleeperIsUnblock(s, list[0]);
        UnblockKeeps(s, list[0], false);
        UnblockBehind(s, list[0]);
        WakeDueBehind(s1, now, list[1..]);
      } else {
        WakeDueBehind(s, now, list[1..]);
      }
    }
  }

  lemma {:induction false} WakeWaitersBehind(s: State, q: nat, stale: bool)
    requires CoreBut(s, stale) && q in s.queues
    ensures Behind(s, WakeWaiters(s, q))
    decreases |s.queues[q].waiters|
  {
    if s.queues[q].waiters != [] {
      var t := s.queues[q].waiters[0];
      TakeKeeps(s, q, stale);
      UnblockKeeps(TakeWaiter(s, q), t, stale);
      UnblockBehind(TakeWaiter(s, q), t);
      WakeWaitersBehind(Unblock(TakeWaiter(s, q), t), q, stale);
    }
  }

  lemma InterruptBehind(s: State, q: nat)
    requires Inv(s) && q in s.queues
    ensures Behind(s, StepInterruptWake(s, q))
  {
    BumpKeeps(s, q);
    WakeWaitersBehind(BumpGeneration(s, q), q, q == POLL);
    if q != POLL {
      WakeWaitersKeeps(BumpGeneration(s, q), q, false);
      var s1 := WakeWaiters(BumpGeneration(s, q), q);
      BumpKeeps(s1, POLL);
      WakeWaitersBehind(BumpGeneration(s1, POLL), POLL, true);
    }
  }

  lemma StepBehind(s: State, step: Step)
    requires Inv(s) && Enabled(s, step) && !step.Tick? && !step.Yield?
    ensures Behind(s, Next(s, step))
  {
    match step {
      case InterruptSignal(t) => UnblockBehind(s, t);
      case Release => assert WakeOk(s, s.current); UnblockBehind(s, Holds(s.threads[s.current].pc).value);
      case InterruptWake(q) => InterruptBehind(s, q);
      case Reap => assert ThreadOk(s, s.zombies[0]) && ThreadOk(s, s.idle);
      case _ =>
    }
  }

  ghost predicate Runs(s: State, t: nat) {
    s.current == t && t in s.threads && s.threads[t].state == Running
  }

  /** `t` runs, or exactly that many threads have gone from in front of it. */
  ghost predicate Passed(s: State, s': State, t: nat, gone: nat)
    requires t in s.runQueue
  {
    Runs(s', t) || (t in s'.runQueue && Position(s'.runQueue, t) + gone == Position(s.runQueue, t))
  }

  lemma SwitchPasses(s: State, t: nat)
    requires Core(s) && t in s.runQueue
    ensures Passed(s, Switch(s), t, 1)
  {
    var queue := if s.threads[s.current].state == Running && s.current != s.idle && !s.threads[s.current].runLinked
      then s.runQueue + [s.current] else s.runQueue;
    PositionExtend(s.runQueue, queue, t);
    if queue[0] != t { PositionTail(queue, t); }
  }

  lemma SwitchAdvances(s: State, t: nat)
    requires Core(s) && t in s.runQueue
    ensures Runs(Switch(s), t) || (t in Switch(s).runQueue && Switch(s).current in Switch(s).threads &&
      Rank(Switch(s), t) == QUANTUM * Position(s.runQueue, t))
  {
    SwitchPasses(s, t);
  }

  lemma ChargeAdvances(s: State, t: nat)
    requires Inv(s) && t in s.runQueue
    ensures Runs(Charge(s), t) ||
      (t in Charge(s).runQueue && Charge(s).current in Charge(s).threads && Rank(Charge(s), t) < Rank(s, t))
  {
    var th := s.threads[s.current];
    assert ThreadOk(s, s.current);
    QuantumKeeps(s, th.quantum - 1);
    SwitchAdvances(Update(s, s.current, th.(quantum := th.quantum - 1)), t);
  }

  lemma TickAdvances(s: State, now: nat, t: nat)
    requires Inv(s) && t in s.runQueue
    ensures Nearer(s, Charge(WakeDue(s, now, s.sleepers)), t, true)
  {
    var s1 := WakeDue(s, now, s.sleepers);
    WakeDueKeeps(s, now, s.sleepers);
    WakeDueBehind(s, now, s.sleepers);
    PositionExtend(s.runQueue, s1.runQueue, t);
    ChargeAdvances(s1, t);
  }

  /** `t` runs, or is still in line and no further back (`strictly`: nearer). */
  ghost predicate Nearer(s: State, s': State, t: nat, strictly: bool)
    requires s.current in s.threads && t in s.runQueue
  {
    || Runs(s', t)
    || (&& t in s'.runQueue && s'.current in s'.threads && Rank(s', t) <= Rank(s, t)
        && (strictly ==> Rank(s', t) < Rank(s, t)))
  }

  lemma BehindNearer(s: State, s': State, t: nat)
    requires Behind(s, s') && t in s.runQueue
    ensures Nearer(s, s', t, false) && Passed(s, s', t, 0)
  {
    PositionExtend(s.runQueue, s'.runQueue, t);
  }

  lemma YieldAdvances(s: State, t: nat)
    requires Inv(s) && t in s.runQueue
    ensures Nearer(s, Switch(s), t, true)
  {
    SwitchAdvances(s, t);
  }

  lemma OtherAdvances(s: State, step: Step, t: nat)
    requires Inv(s) && Enabled(s, step) && !step.Tick? && !step.Yield? && t in s.runQueue
    ensures Nearer(s, Next(s, step), t, false) && Passed(s, Next(s, step), t, 0)
  {
    StepBehind(s, step);
    BehindNearer(s, Next(s, step), t);
  }

  /** A ready thread stays in line, never moves back, and gets nearer with every tick and every yield. */
  lemma Advances(s: State, step: Step, t: nat)
    requires Inv(s) && Enabled(s, step) && t in s.runQueue
    ensures Nearer(s, Next(s, step), t, step.Tick? || step.Yield?)
  {
    match step {
      case Tick(now) => TickAdvances(s, now, t);
      case Yield => YieldAdvances(s, t);
      case _ => OtherAdvances(s, step, t);
    }
  }

  /** How many of the steps are ticks or yields. */
  function Turns(steps: seq<Step>): nat {
    if steps == [] then 0
    else (if steps[0].Tick? || steps[0].Yield? then 1 else 0) + Turns(steps[1..])
  }

  /** A ready thread behind `k` others runs within `5 * (k + 1)` ticks and yields of any run. */
  lemma {:induction false} WaitEnds(states: seq<State>, steps: seq<Step>, t: nat)
    requires Run(states, steps) && t in states[0].runQueue
    requires Turns(steps) >= QUANTUM * (Position(states[0].runQueue, t) + 1)
    ensures exists i :: 0 <= i < |states| && Runs(states[i], t)
  {
    assert ThreadOk(states[0], states[0].current);
    WaitEndsWithin(states, steps, t);
  }

  lemma {:induction false} WaitEndsWithin(states: seq<State>, steps: seq<Step>, t: nat)
    requires Run(states, steps) && t in states[0].runQueue && Turns(steps) >= Rank(states[0], t)
    ensures exists i :: 0 <= i < |states| && Runs(states[i], t)
    decreases |steps|
  {
    assert Steps(states[0], steps[0], states[1]);
    Advances(states[0], steps[0], t);
    if !Runs(states[1], t) {
      RunTail(states, steps);
      WaitEndsWithin(states[1..], steps[1..], t);
      var i :| 0 <= i < |states[1..]| && Runs(states[1..][i], t);
      assert Runs(states[i + 1], t);
    }
  }

  lemma RunTail(states: seq<State>, steps: seq<Step>)
    requires Run(states, steps) && steps != []
    ensures Run(states[1..], steps[1..])
  {
    RunKeeps(states, steps, 1);
    forall i | 0 <= i < |steps| - 1 ensures Steps(states[1..][i], steps[1..][i], states[1..][i + 1]) {
      assert Steps(states[i + 1], steps[i + 1], states[i + 2]);
    }
  }

  // --- and within as many switches as there are threads in line

  /** The tick or yield gets as far as `switch_to_next`. */
  ghost predicate Switches(s: State, step: Step) {
    WellFormed(s) && (step.Yield? || (step.Tick? && Expired(WakeDue(s, step.now, s.sleepers))))
  }

  predicate Expired(s: State)
    requires s.current in s.threads
  {
    && (s.threads[s.current].quantum <= 1 || (s.current == s.idle && s.runQueue != []))
    && (s.runQueue != [] || s.threads[s.current].state != Running)
  }

  lemma ChargePasses(s: State, t: nat)
    requires Inv(s) && t in s.runQueue
    ensures Passed(s, Charge(s), t, if Expired(s) then 1 else 0)
  {
    var th := s.threads[s.current];
    assert ThreadOk(s, s.current);
    QuantumKeeps(s, th.quantum - 1);
    SwitchPasses(Update(s, s.current, th.(quantum := th.quantum - 1)), t);
  }

  lemma TickPasses(s: State, now: nat, t: nat)
    requires Inv(s) && t in s.runQueue
    ensures Passed(s, Charge(WakeDue(s, now, s.sleepers)), t, if Switches(s, Tick(now)) then 1 else 0)
  {
    var s1 := WakeDue(s, now, s.sleepers);
    WakeDueKeeps(s, now, s.sleepers);
    WakeDueBehind(s, now, s.sleepers);
    PositionExtend(s.runQueue, s1.runQueue, t);
    ChargePasses(s1, t);
  }

  /** The line moves up by one with every switch and by none otherwise; nobody is ever put in front. */
  lemma LineMoves(s: State, step: Step, t: nat)
    requires Inv(s) && Enabled(s, step) && t in s.runQueue
    ensures Passed(s, Next(s, step), t, if Switches(s, step) then 1 else 0)
  {
    match step {
      case Tick(now) => TickPasses(s, now, t);
      case Yield => SwitchPasses(s, t);
      case _ => OtherAdvances(s, step, t);
    }
  }

  ghost function SwitchCount(states: seq<State>, steps: seq<Step>): nat
    requires |states| == |steps| + 1
  {
    if steps == [] then 0
    else (if Switches(states[0], steps[0]) then 1 else 0) + SwitchCount(states[1..], steps[1..])
  }

  /** A ready thread behind `k` others runs within `k + 1` switches of any run. */
  lemma {:induction false} LineEnds(states: seq<State>, steps: seq<Step>, t: nat)
    requires Run(states, steps) && t in states[0].runQueue
    requires SwitchCount(states, steps) >= Position(states[0].runQueue, t) + 1
    ensures exists i :: 0 <= i < |states| && Runs(states[i], t)
    decreases |steps|
  {
    assert Steps(states[0], steps[0], states[1]);
    LineMoves(states[0], steps[0], t);
    if !Runs(states[1], t) {
      RunTail(states, steps);
      LineEnds(states[1..], steps[1..], t);
      var i :| 0 <= i < |states[1..]| && Runs(states[1..][i], t);
      assert Runs(states[i + 1], t);
    }
  }

  // --- polls miss nothing

  predicate BumpsPoll(step: Step) {
    step.BumpPoll? || (step.WakeAll? && step.queue == POLL) || step.InterruptWake?
  }

  /** The generation a thread has read and not yet let go of. */
  function MarkOf(pc: Pc): Option<nat> {
    match pc
    case Polling(mark) => Some(mark)
    case Enqueued(_, seen) => seen
    case Blocking(_, seen) => seen
    case _ => None
  }

  /** Threads, queues and marks as they were. */
  ghost predicate SamePlaces(s: State, s': State) {
    && s'.queues == s.queues && s'.threads.Keys == s.threads.Keys
    && forall t {:trigger s'.threads[t]} :: t in s.threads ==> s'.threads[t].pc == s.threads[t].pc
  }

  lemma UnblockPlaces(s: State, t: nat)
    requires t in s.threads
    ensures SamePlaces(s, Unblock(s, t))
  {
    var th := s.threads[t];
    if th.state != Running && th.state != Ready {
      var s1 := if th.state == Sleeping && th.waitLinked then RemoveSleeper(s, t) else s;
      assert SamePlaces(s, s1);
      var s2 := Update(s1, t, s1.threads[t].(state := Ready));
      assert SamePlaces(s, s2);
    }
  }

  lemma DispatchPlaces(s: State)
    requires WellFormed(s)
    ensures SamePlaces(s, Dispatch(s))
  {
  }

  lemma RequeuePlaces(s: State)
    requires WellFormed(s)
    ensures WellFormed(Requeue(s)) && SamePlaces(s, Requeue(s))
  {
  }

  lemma SwitchPlaces(s: State)
    requires WellFormed(s)
    ensures SamePlaces(s, Switch(s))
  {
    if s.threads[s.current].state == Running {
      RequeuePlaces(s);
      DispatchPlaces(Requeue(s));
      assert Switch(s) == Dispatch(Requeue(s));
    } else {
      DispatchPlaces(s);
      assert Switch(s) == Dispatch(s);
    }
  }

  lemma {:induction false} WakeDuePlaces(s: State, now: nat, list: seq<nat>)
    requires Core(s) && NoDup(list) && forall t :: t in list ==> t in s.sleepers
    ensures SamePlaces(s, WakeDue(s, now, list))
    decreases |list|
  {
    if list != [] {
      TailNoDup(list);
      if s.threads[list[0]].wakeAt <= now {
        WakeSleeperIsUnblock(s, list[0]);
        UnblockKeeps(s, list[0], false);
        UnblockPlaces(s, list[0]);
        WakeDuePlaces(WakeSleeper(s, list[0]), now, list[1..]);
      } else {
        WakeDuePlaces(s, now, list[1..]);
      }
    }
  }

  lemma SetQuantumPlaces(s: State, t: nat, quantum: nat)
    requires WellFormed(s) && t in s.threads
    ensures var s' := Update(s, t, s.threads[t].(quantum := quantum)); SamePlaces(s, s') && WellFormed(s')
  {
  }

  lemma PlacesTransitive(s: State, s1: State, s2: State)
    requires SamePlaces(s, s1) && SamePlaces(s1, s2)
    ensures SamePlaces(s, s2)
  {
  }

  lemma ChargePlaces(s: State)
    requires WellFormed(s)
    ensures SamePlaces(s, Charge(s))
  {
    var th := s.threads[s.current];
    var left := if th.quantum > 0 then th.quantum - 1 else 0;
    var s1 := Update(s, s.current, th.(quantum := left));
    SetQuantumPlaces(s, s.current, left);
    if left > 0 && !(s.current == s.idle && s.runQueue != []) {
      assert Charge(s) == s1;
    } else if s.runQueue == [] && th.state == Running {
      SetQuantumPlaces(s1, s.current, QUANTUM);
      PlacesTransitive(s, s1, Charge(s));
    } else {
      SwitchPlaces(s1);
      assert Charge(s) == Switch(s1);
      PlacesTransitive(s, s1, Switch(s1));
    }
  }

  lemma TickPlaces(s: State, now: nat)
    requires Core(s)
    ensures SamePlaces(s, Charge(WakeDue(s, now, s.sleepers)))
  {
    WakeDueKeeps(s, now, s.sleepers);
    WakeDuePlaces(s, now, s.sleepers);
    ChargePlaces(WakeDue(s, now, s.sleepers));
  }

  /** Marks as they were. */
  ghost predicate SameMarks(s: State, s': State) {
    && s'.threads.Keys == s.threads.Keys
    && forall t {:trigger s'.threads[t]} :: t in s.threads ==> s'.threads[t].pc == s.threads[t].pc
  }

  lemma {:induction false} WakeWaitersMarks(s: State, q: nat)
    requires q in s.queues && (forall t :: t in s.queues[q].waiters ==> t in s.threads)
    ensures SameMarks(s, WakeWaiters(s, q))
    ensures forall r :: r in s.queues ==> WakeWaiters(s, q).queues[r].generation == s.queues[r].generation
    ensures forall r :: r in s.queues && r != q ==> WakeWaiters(s, q).queues[r] == s.queues[r]
    decreases |s.queues[q].waiters|
  {
    if s.queues[q].waiters != [] {
      var t := s.queues[q].waiters[0];
      var s1 := TakeWaiter(s, q);
      UnblockPlaces(s1, t);
      assert SameMarks(s, Unblock(s1, t));
      WakeWaitersMarks(Unblock(s1, t), q);
    }
  }

  lemma WaitersExist(s: State, q: nat)
    requires Core(s) && q in s.queues
    ensures forall t :: t in s.queues[q].waiters ==> t in s.threads
  {
    assert QueueOk(s, q, false);
    forall t | t in s.queues[q].waiters ensures t in s.threads { assert WaiterOk(s, q, t, false); }
  }

  lemma InterruptMarks(s: State, q: nat)
    requires Inv(s) && q in s.queues
    ensures SameMarks(s, StepInterruptWake(s, q)) && POLL in StepInterruptWake(s, q).queues
    ensures StepInterruptWake(s, q).queues[POLL].generation == s.queues[POLL].generation + 1
  {
    WaitersExist(s, q);
    WaitersExist(s, POLL);
    WakeWaitersMarks(BumpGeneration(s, q), q);
    if q != POLL {
      var s1 := WakeWaiters(BumpGeneration(s, q), q);
      WakeWaitersMarks(BumpGeneration(s1, POLL), POLL);
    }
  }

  predicate LeavesPlaces(step: Step) {
    step.Tick? || step.Yield? || step.InterruptSignal?
  }

  lemma StepPlaces(s: State, step: Step)
    requires Inv(s) && Enabled(s, step) && LeavesPlaces(step)
    ensures SamePlaces(s, Next(s, step))
  {
    match step {
      case Tick(now) => TickPlaces(s, now);
      case Yield => SwitchPlaces(s);
      case InterruptSignal(t) => UnblockPlaces(s, t);
    }
  }

  /** What a step does to marks and the poll generation, where it is not plain to see. */
  lemma StepMarks(s: State, step: Step)
    requires Inv(s) && Enabled(s, step)
    ensures LeavesPlaces(step) ==> SamePlaces(s, Next(s, step))
    ensures step.InterruptWake? ==> SameMarks(s, Next(s, step)) && POLL in Next(s, step).queues
    ensures step.InterruptWake? ==> Next(s, step).queues[POLL].generation == s.queues[POLL].generation + 1
    ensures step.Release? ==> SamePlaces(s, Unblock(s, Holds(s.threads[s.current].pc).value))
  {
    if LeavesPlaces(step) { StepPlaces(s, step); }
    if step.InterruptWake? { InterruptMarks(s, step.queue); }
    if step.Release? {
      assert WakeOk(s, s.current);
      UnblockPlaces(s, Holds(s.threads[s.current].pc).value);
    }
  }

  /** The poll generation counts the wake-ups. */
  lemma GenerationCounts(s: State, step: Step)
    requires Inv(s) && Enabled(s, step)
    ensures POLL in Next(s, step).queues
    ensures Next(s, step).queues[POLL].generation == s.queues[POLL].generation + (if BumpsPoll(step) then 1 else 0)
  {
    StepMarks(s, step);
  }

  /** A thread's mark is the generation it read itself, and nothing but reading changes it. */
  lemma MarkKept(s: State, step: Step, t: nat)
    requires Inv(s) && Enabled(s, step) && t in Next(s, step).threads && MarkOf(Next(s, step).threads[t].pc).Some?
    ensures
      || (t in s.threads && MarkOf(Next(s, step).threads[t].pc) == MarkOf(s.threads[t].pc))
      || (step == ReadGeneration && t == s.current &&
        MarkOf(Next(s, step).threads[t].pc) == Some(s.queues[POLL].generation))
  {
    StepMarks(s, step);
  }

  ghost predicate ReadAt(states: seq<State>, steps: seq<Step>, i: int, t: nat, mark: nat) {
    && 0 <= i < |steps| && i < |states| && steps[i] == ReadGeneration && states[i].current == t
    && Generation(states[i]) == mark
  }

  lemma {:induction false} MarkWasRead(states: seq<State>, steps: seq<Step>, j: nat, t: nat) returns (i: nat)
    requires Run(states, steps) && Boot(states[0])
    requires j < |states| && t in states[j].threads && MarkOf(states[j].threads[t].pc).Some?
    ensures i < j && ReadAt(states, steps, i, t, MarkOf(states[j].threads[t].pc).value)
  {
    RunKeeps(states, steps, j - 1);
    assert Steps(states[j - 1], steps[j - 1], states[j]);
    MarkKept(states[j - 1], steps[j - 1], t);
    if t in states[j - 1].threads && MarkOf(states[j].threads[t].pc) == MarkOf(states[j - 1].threads[t].pc) {
      i := MarkWasRead(states, steps, j - 1, t);
    } else {
      i := j - 1;
    }
  }

  ghost function Generation(s: State): nat {
    if POLL in s.queues then s.queues[POLL].generation else 0
  }

  lemma GenerationMoves(states: seq<State>, steps: seq<Step>, k: nat)
    requires Run(states, steps) && k < |steps|
    ensures Generation(states[k + 1]) == Generation(states[k]) + (if BumpsPoll(steps[k]) then 1 else 0)
  {
    RunKeeps(states, steps, k);
    assert Steps(states[k], steps[k], states[k + 1]);
    GenerationCounts(states[k], steps[k]);
  }

  lemma {:induction false} GenerationGrows(states: seq<State>, steps: seq<Step>, i: nat, j: nat)
    requires Run(states, steps) && i <= j < |states|
    ensures Generation(states[i]) <= Generation(states[j])
    ensures Generation(states[i]) == Generation(states[j]) ==> forall k :: i <= k < j ==> !BumpsPoll(steps[k])
  {
    if i < j {
      GenerationGrows(states, steps, i, j - 1);
      GenerationMoves(states, steps, j - 1);
    }
  }

  /**
   * In every run from boot, a thread asleep on the poll queue, while nobody is draining it, has
   * looked for itself since the last wake-up: it read the generation at some earlier step, and no
   * wake-up has bumped it since. A wake-up between the look and the sleep is never lost.
   */
  lemma PollMissesNothing(states: seq<State>, steps: seq<Step>, j: nat, t: nat) returns (i: nat)
    requires Run(states, steps) && Boot(states[0]) && j < |states|
    requires POLL in states[j].queues && t in states[j].queues[POLL].waiters && !PollDraining(states[j])
    ensures i < j && ReadAt(states, steps, i, t, Generation(states[j]))
    ensures forall k :: i <= k < j ==> !BumpsPoll(steps[k])
  {
    RunKeeps(states, steps, j);
    assert QueueOk(states[j], POLL, false);
    assert WaiterOk(states[j], POLL, t, false);
    i := MarkWasRead(states, steps, j, t);
    GenerationGrows(states, steps, i, j);
  }
}
