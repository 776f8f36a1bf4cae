/**
 * What the scheduler promises its threads: a sleep ends at its deadline and not before, a turn lasts its
 * quantum, and whoever is woken gets in line.
 */
module SchedulerLaws {
  import opened Base
  import opened Queues
  import opened Scheduler
  import opened SchedulerInvariant
  import opened SchedulerRuns

  /** In line for the processor, or on it. */
  ghost predicate Going(s: State, t: nat) {
    t in s.runQueue || Runs(s, t)
  }

  // --- waking

  /** Woken or not, and with nothing else about the thread changed. */
  ghost predicate Woken(th: Thread, th': Thread, waits: bool) {
    && th'.quantum == th.quantum && th'.wakeAt == th.wakeAt && th'.pc == th.pc
    && th'.state == if waits && th.state != Running then Ready else th.state
  }

  /** Emptying a queue wakes exactly who was on it. */
  lemma {:induction false} WakeWaitersAt(s: State, q: nat, stale: bool, t: nat)
    requires CoreBut(s, stale) && q in s.queues && t in s.threads
    ensures t in WakeWaiters(s, q).threads
    ensures Woken(s.threads[t], WakeWaiters(s, q).threads[t], t in s.queues[q].waiters)
    ensures forall r :: r in s.queues && r != q ==> WakeWaiters(s, q).queues[r] == s.queues[r]
    decreases |s.queues[q].waiters|
  {
    if s.queues[q].waiters != [] {
      var u := s.queues[q].waiters[0];
      assert QueueOk(s, q, stale);
      assert WaiterOk(s, q, u, stale);
      TailNoDup(s.queues[q].waiters);
      TakeKeeps(s, q, stale);
      var s1 := TakeWaiter(s, q);
      UnblockKeeps(s1, u, stale);
      UnblockAt(s1, u, t);
      WakeWaitersAt(Unblock(s1, u), q, stale, t);
    }
  }

  lemma UnblockAt(s: State, u: nat, t: nat)
    requires u in s.threads && t in s.threads
    ensures Woken(s.threads[t], Unblock(s, u).threads[t], t == u) &&
      (t != u ==> Unblock(s, u).threads[t] == s.threads[t])
  {
  }

  /** A wake-up from an interrupt handler wakes exactly who waits on that queue or polls. */
  lemma InterruptWakeAt(s: State, q: nat, t: nat)
    requires Inv(s) && q in s.queues && t in s.threads
    ensures t in StepInterruptWake(s, q).threads
    ensures Woken(s.threads[t], StepInterruptWake(s, q).threads[t],
      t in s.queues[q].waiters || t in s.queues[POLL].waiters)
  {
    BumpKeeps(s, q);
    WakeWaitersAt(BumpGeneration(s, q), q, q == POLL, t);
    if q != POLL {
      var s1 := WakeWaiters(BumpGeneration(s, q), q);
      WakeWaitersKeeps(BumpGeneration(s, q), q, false);
      BumpKeeps(s1, POLL);
      WakeWaitersAt(BumpGeneration(s1, POLL), POLL, true, t);
    }
  }

  /** And they all get in line; nobody is left waiting there. */
  lemma WakesAll(s: State, q: nat, t: nat)
    requires Inv(s) && q in s.queues && (t in s.queues[q].waiters || t in s.queues[POLL].waiters)
    ensures Going(StepInterruptWake(s, q), t) && StepInterruptWake(s, q).queues[q].waiters == []
  {
    WaiterStands(s, if t in s.queues[q].waiters then q else POLL, t);
    InterruptWakeAt(s, q, t);
    InterruptWakeKeeps(s, q);
    InterruptBehind(s, q);
    InLine(StepInterruptWake(s, q), t);
    InterruptEmpties(s, q);
  }

  /** What being on a queue says about a thread. */
  lemma WaiterStands(s: State, q: nat, t: nat)
    requires Core(s) && q in s.queues && t in s.queues[q].waiters
    ensures t in s.threads && t != s.idle && s.threads[t].pc != Dead
  {
    assert QueueOk(s, q, false);
    assert WaiterOk(s, q, t, false);
    assert ThreadOk(s, t);
  }

  lemma InLine(s: State, t: nat)
    requires Core(s) && t in s.threads && t != s.idle && s.threads[t].pc != Dead
    requires s.threads[t].state in {Ready, Running}
    ensures Going(s, t)
  {
    assert ThreadOk(s, t);
  }

  lemma InterruptEmpties(s: State, q: nat)
    requires Inv(s) && q in s.queues
    ensures StepInterruptWake(s, q).queues[q].waiters == []
  {
    BumpKeeps(s, q);
    if q != POLL {
      var s1 := WakeWaiters(BumpGeneration(s, q), q);
      WakeWaitersKeeps(BumpGeneration(s, q), q, false);
      BumpKeeps(s1, POLL);
      WakeWaitersAt(BumpGeneration(s1, POLL), POLL, true, s.idle);
    }
  }

  /** A waker takes who has waited longest, and takes nobody else off any queue. */
  lemma TakesFirst(s: State, step: Step, t: nat)
    requires Inv(s) && Enabled(s, step) && (step.DrainTake? || step.WakeOne?)
    requires var s' := Next(s, step); s'.current in s'.threads && Holds(s'.threads[s'.current].pc) == Some(t)
    ensures exists q ::
      && q in s.queues && s.queues[q].waiters != [] && s.queues[q].waiters[0] == t
      && Next(s, step).queues == s.queues[q := s.queues[q].(waiters := s.queues[q].waiters[1..])]
  {
    var q := if step.WakeOne? then step.queue else s.threads[s.current].pc.wake.queue;
    assert QueueOk(s, q, false);
    if s.queues[q].waiters != [] { assert WaiterOk(s, q, s.queues[q].waiters[0], false); }
  }

  /** Letting go of a thread that has not exited gets it in line, whatever it was waiting for. */
  lemma ReleaseWakes(s: State)
    requires Inv(s) && Enabled(s, Release)
    ensures var t := Holds(s.threads[s.current].pc).value;
      && t in s.threads && (s.threads[t].pc != Dead && t != s.idle ==> Going(Next(s, Release), t))
  {
    var t := Holds(s.threads[s.current].pc).value;
    assert WakeOk(s, s.current) && ThreadOk(s, t);
    UnblockAt(s, t, t);
    UnblockAt(s, t, s.current);
    UnblockCurrent(s, t);
    ReleaseKeeps(s);
    assert ThreadOk(StepRelease(s), t);
  }

  // --- sleeping

  /** Waking one thread leaves every other as it was. */
  lemma UnblockOthers(s: State, u: nat, t: nat)
    requires u in s.threads && t in s.threads && t != u
    ensures Unblock(s, u).threads[t] == s.threads[t]
  {
  }

  /** Of the sleepers looked at, exactly those whose deadline has come are woken. */
  lemma {:induction false} WakeDueExactly(s: State, now: nat, list: seq<nat>, t: nat)
    requires Core(s) && NoDup(list) && (forall u :: u in list ==> u in s.sleepers) && t in s.threads
    ensures var s' := WakeDue(s, now, list);
      if t in list && s.threads[t].wakeAt <= now
      then t !in s'.sleepers && t in s'.runQueue && s'.threads[t].state == Ready
      else s'.threads[t] == s.threads[t] && (t in s'.sleepers <==> t in s.sleepers)
    decreases |list|
  {
    if list != [] {
      var u := list[0];
      TailNoDup(list);
      if s.threads[u].wakeAt <= now {
        var s1 := WakeSleeper(s, u);
        assert ThreadOk(s, u);
        WakeSleeperIsUnblock(s, u);
        UnblockLists(s, u, false);
        UnblockKeeps(s, u, false);
        if t != u { UnblockOthers(s, u, t); }
        WakeDueExactly(s1, now, list[1..], t);
        WakeDueBehind(s1, now, list[1..]);
        assert ThreadOk(s1, t);
      } else {
        WakeDueExactly(s, now, list[1..], t);
      }
    }
  }

  lemma SwitchLeaves(s: State, t: nat)
    requires Core(s) && t in s.threads
    ensures Switch(s).sleepers == s.sleepers && t in Switch(s).threads
    ensures Switch(s).threads[t].wakeAt == s.threads[t].wakeAt
  {
    if s.threads[s.current].state == Running {
      RequeueKeeps(s);
      assert Switch(s) == Dispatch(Requeue(s));
    } else {
      assert Switch(s) == Dispatch(s);
    }
  }

  /** The rest of a tick leaves the sleepers alone. */
  lemma ChargeLeaves(s: State, t: nat)
    requires Core(s) && t in s.threads
    ensures Charge(s).sleepers == s.sleepers && t in Charge(s).threads
    ensures Charge(s).threads[t].wakeAt == s.threads[t].wakeAt
  {
    var th := s.threads[s.current];
    var left := if th.quantum > 0 then th.quantum - 1 else 0;
    assert ThreadOk(s, s.current);
    QuantumKeeps(s, left);
    SwitchLeaves(Update(s, s.current, th.(quantum := left)), t);
  }

  /** A tick wakes a sleeper exactly when its deadline has come. */
  lemma TickExactly(s: State, now: nat, t: nat)
    requires Inv(s) && t in s.sleepers
    ensures var s' := Next(s, Tick(now));
      && t in s.threads && t in s'.threads && s'.threads[t].wakeAt == s.threads[t].wakeAt
      && (t in s'.sleepers <==> now < s.threads[t].wakeAt)
      && (s.threads[t].wakeAt <= now ==> Going(s', t))
  {
    var s1 := WakeDue(s, now, s.sleepers);
    WakeDueKeeps(s, now, s.sleepers);
    WakeDueExactly(s, now, s.sleepers, t);
    WakeDueTimes(s, now, s.sleepers, t);
    WakeDueBehind(s, now, s.sleepers);
    ChargeLeaves(s1, t);
    if t in s1.runQueue { ChargePasses(s1, t); }
  }

  lemma {:induction false} WakeDueTimes(s: State, now: nat, list: seq<nat>, t: nat)
    requires (forall u :: u in list ==> u in s.threads) && t in s.threads
    ensures WakeDue(s, now, list).threads[t].wakeAt == s.threads[t].wakeAt
    decreases |list|
  {
    if list != [] {
      if s.threads[list[0]].wakeAt <= now {
        WakeDueTimes(WakeSleeper(s, list[0]), now, list[1..], t);
      } else {
        WakeDueTimes(s, now, list[1..], t);
      }
    }
  }

  /** A wake-up or a signal that reaches the thread in this step. */
  ghost predicate Rouses(s: State, step: Step, t: nat) {
    || step == InterruptSignal(t)
    || (step.Release? && s.current in s.threads && Holds(s.threads[s.current].pc) == Some(t))
  }

  lemma InterruptAsleep(s: State, q: nat, t: nat)
    requires Inv(s) && q in s.queues && t in s.sleepers
    ensures t in s.threads && t in StepInterruptWake(s, q).sleepers && t in StepInterruptWake(s, q).threads
    ensures StepInterruptWake(s, q).threads[t].wakeAt == s.threads[t].wakeAt
  {
    assert ThreadOk(s, t);
    NotOnQueue(s, q, t);
    NotOnQueue(s, POLL, t);
    InterruptWakeAt(s, q, t);
    InterruptWakeKeeps(s, q);
    assert ThreadOk(StepInterruptWake(s, q), t);
  }

  lemma NotOnQueue(s: State, q: nat, t: nat)
    requires Core(s) && q in s.queues && t in s.threads && QueueOf(s.threads[t].pc).None?
    ensures t !in s.queues[q].waiters
  {
    assert QueueOk(s, q, false);
  }

  lemma UnblockRouses(s: State, u: nat, t: nat)
    requires Core(s) && u in s.threads && t in s.sleepers
    ensures t in Unblock(s, u).threads && t in s.threads
    ensures t in Unblock(s, u).sleepers <==> t != u
    ensures t == u ==> t in Unblock(s, u).runQueue
    ensures t != u ==> Unblock(s, u).threads[t] == s.threads[t]
  {
    assert ThreadOk(s, t) && ThreadOk(s, u);
    if s.threads[u].state !in {Running, Ready} { UnblockLists(s, u, false); }
    if t != u { UnblockOthers(s, u, t); }
  }

  lemma ReleaseRouses(s: State, t: nat)
    requires Inv(s) && Enabled(s, Release) && t in s.sleepers
    ensures var s', u := StepRelease(s), Holds(s.threads[s.current].pc).value;
      && t in s'.threads && t in s.threads && (t in s'.sleepers <==> t != u) && (t == u ==> t in s'.runQueue)
      && (t != u ==> s'.threads[t].wakeAt == s.threads[t].wakeAt)
  {
    var u := Holds(s.threads[s.current].pc).value;
    assert WakeOk(s, s.current);
    UnblockRouses(s, u, t);
    UnblockCurrent(s, u);
  }

  /** The thread sleeps on, or is in line. */
  ghost predicate SleptThrough(s: State, s': State, t: nat, roused: bool) {
    && t in s.threads && t in s'.threads && (t in s'.sleepers <==> !roused) && (roused ==> t in s'.runQueue)
    && (!roused ==> s'.threads[t].wakeAt == s.threads[t].wakeAt)
  }

  /** Apart from ticks, only a signal or a wake-up to it gets a sleeper up. */
  lemma SleeperStep(s: State, step: Step, t: nat)
    requires Inv(s) && Enabled(s, step) && t in s.sleepers && !step.Tick?
    ensures SleptThrough(s, Next(s, step), t, Rouses(s, step, t))
  {
    match step {
      case InterruptSignal(u) => UnblockRouses(s, u, t);
      case Release => ReleaseRouses(s, t);
      case InterruptWake(q) => InterruptAsleep(s, q, t);
      case Yield => SwitchLeaves(s, t);
      case _ => QuietAsleep(s, step, t);
    }
  }

  /** What the current thread does on its own account concerns no sleeper. */
  lemma QuietAsleep(s: State, step: Step, t: nat)
    requires Inv(s) && Enabled(s, step) && t in s.sleepers
    requires !step.Tick? && !step.InterruptSignal? && !step.Release? && !step.InterruptWake? && !step.Yield?
    ensures t in s.threads && t in Next(s, step).sleepers && t in Next(s, step).threads
    ensures Next(s, step).threads[t].wakeAt == s.threads[t].wakeAt
  {
    assert ThreadOk(s, t) && ThreadOk(s, s.current);
    match step {
      case Reap => assert ThreadOk(s, s.zombies[0]);
      case _ =>
    }
  }

  /** A tick at or after the deadline. */
  ghost predicate Due(step: Step, deadline: nat) {
    step.Tick? && deadline <= step.now
  }

  /** In every run a sleeper sleeps on until a tick at or after its deadline, or somebody rouses it. */
  lemma {:induction false} SleepsOn(states: seq<State>, steps: seq<Step>, i: nat, j: nat, d: nat, t: nat)
    requires Run(states, steps) && i <= j < |states| && t in states[i].sleepers && t in states[i].threads
    requires states[i].threads[t].wakeAt == d
    requires forall k {:trigger steps[k]} :: i <= k < j ==> !Rouses(states[k], steps[k], t) && !Due(steps[k], d)
    ensures t in states[j].sleepers && t in states[j].threads && states[j].threads[t].wakeAt == d
    decreases j - i
  {
    if i < j {
      SleepsOn(states, steps, i, j - 1, d, t);
      RunKeeps(states, steps, j - 1);
      var s, step := states[j - 1], steps[j - 1];
      assert Steps(s, step, states[j]);
      if step.Tick? { TickExactly(s, step.now, t); } else { SleeperStep(s, step, t); }
    }
  }

  /**
   * In every run, a thread that goes to sleep until `d`, and that nobody rouses, gets up at the first tick at
   * or after `d` and at no other step.
   */
  lemma SleepEnds(states: seq<State>, steps: seq<Step>, i: nat, j: nat, d: nat)
    requires Run(states, steps) && i < j < |steps| && steps[i] == Sleep(d)
    requires forall k {:trigger steps[k]} :: i < k <= j ==> !Rouses(states[k], steps[k], states[i].current)
    requires forall k {:trigger steps[k]} :: i < k < j ==> !Due(steps[k], d)
    ensures states[i].current in states[j].sleepers
    ensures states[i].current in states[j + 1].sleepers <==> !Due(steps[j], d)
    ensures Due(steps[j], d) ==> Going(states[j + 1], states[i].current)
  {
    var s, t := states[i], states[i].current;
    RunKeeps(states, steps, i);
    assert Steps(s, steps[i], states[i + 1]);
    NotWaiting(s);
    SleepsOn(states, steps, i + 1, j, d, t);
    RunKeeps(states, steps, j);
    assert Steps(states[j], steps[j], states[j + 1]);
    if steps[j].Tick? { TickExactly(states[j], steps[j].now, t); } else { SleeperStep(states[j], steps[j], t); }
  }

  // --- turns

  /** The current thread is charged; with nothing left the first in line takes over, if there is one. */
  lemma ChargeTurn(s: State)
    requires Core(s) && Runs(s, s.current) && s.current != s.idle
    ensures var s', t := Charge(s), s.current;
      if s.threads[t].quantum > 1 then Runs(s', t) && s'.threads[t].quantum == s.threads[t].quantum - 1
      else if s.runQueue == [] then Runs(s', t) && s'.threads[t].quantum == QUANTUM
      else
        && Runs(s', s.runQueue[0]) && s'.threads[s.runQueue[0]].quantum == QUANTUM
        && s'.runQueue == s.runQueue[1..] + [t]
  {
    assert ThreadOk(s, s.current);
    if s.runQueue != [] { assert ThreadOk(s, s.runQueue[0]); }
  }

  lemma {:induction false} NoneDue(s: State, now: nat, list: seq<nat>)
    requires forall u :: u in list ==> u in s.threads && now < s.threads[u].wakeAt
    ensures WakeDue(s, now, list) == s
    decreases |list|
  {
    if list != [] { NoneDue(s, now, list[1..]); }
  }

  /**
   * A tick takes one from the quantum of the running thread. When that was the last, it goes behind
   * everybody in line and the first of them takes over; with nobody in line a sleeper that is due does, and
   * without one of those the turn begins anew.
   */
  lemma TickCharges(s: State, now: nat)
    requires Inv(s) && Runs(s, s.current) && s.current != s.idle
    ensures var s', t := Next(s, Tick(now)), s.current;
      if s.threads[t].quantum > 1 then Runs(s', t) && s'.threads[t].quantum == s.threads[t].quantum - 1
      else if s.runQueue != [] then
        && Runs(s', s.runQueue[0]) && s'.threads[s.runQueue[0]].quantum == QUANTUM
        && s'.runQueue != [] && s'.runQueue[|s'.runQueue| - 1] == t
      else if forall u :: u in s.sleepers ==> now < s.threads[u].wakeAt then
        Runs(s', t) && s'.threads[t].quantum == QUANTUM
      else s'.current in s.sleepers && s.threads[s'.current].wakeAt <= now && Runs(s', s'.current)
  {
    var s1 := WakeDue(s, now, s.sleepers);
    assert ThreadOk(s, s.current);
    WakeDueKeeps(s, now, s.sleepers);
    WakeDueExactly(s, now, s.sleepers, s.current);
    WakeDueBehind(s, now, s.sleepers);
    ChargeTurn(s1);
    if forall u :: u in s.sleepers ==> now < s.threads[u].wakeAt {
      NoneDue(s, now, s.sleepers);
    } else if s.runQueue == [] {
      FirstIsDue(s, now);
    }
  }

  /** With nobody in line before, the first in line after the wake-ups is a sleeper that was due. */
  lemma FirstIsDue(s: State, now: nat)
    requires Inv(s) && s.runQueue == [] && exists u :: u in s.sleepers && s.threads[u].wakeAt <= now
    ensures var queue := WakeDue(s, now, s.sleepers).runQueue;
      queue != [] && queue[0] in s.sleepers && s.threads[queue[0]].wakeAt <= now
  {
    var s1 := WakeDue(s, now, s.sleepers);
    WakeDueKeeps(s, now, s.sleepers);
    var u :| u in s.sleepers && s.threads[u].wakeAt <= now;
    WakeDueExactly(s, now, s.sleepers, u);
    var first := s1.runQueue[0];
    assert ThreadOk(s, first) && ThreadOk(s1, first);
    WakeDueExactly(s, now, s.sleepers, first);
  }

  /** Steps by which the current thread gives up the processor. */
  predicate GivesUp(step: Step) {
    step.Yield? || step.Block? || step.Stop? || step.Sleep? || step.Exit?
  }

  /** Any other section between ticks leaves the running thread running, its quantum untouched. */
  lemma TurnKept(s: State, step: Step)
    requires Inv(s) && Enabled(s, step) && Runs(s, s.current) && s.current != s.idle && !step.Tick? && !GivesUp(step)
    ensures Runs(Next(s, step), s.current) && Next(s, step).idle == s.idle
    ensures Next(s, step).threads[s.current].quantum == s.threads[s.current].quantum
  {
    match step {
      case InterruptSignal(u) => UnblockCurrent(s, u);
      case Release =>
        assert WakeOk(s, s.current);
        UnblockCurrent(s, Holds(s.threads[s.current].pc).value);
      case InterruptWake(q) => InterruptTurn(s, q);
      case _ =>
    }
  }

  lemma InterruptTurn(s: State, q: nat)
    requires Inv(s) && q in s.queues && Runs(s, s.current)
    ensures Runs(StepInterruptWake(s, q), s.current) && StepInterruptWake(s, q).idle == s.idle
    ensures StepInterruptWake(s, q).threads[s.current].quantum == s.threads[s.current].quantum
  {
    InterruptWakeAt(s, q, s.current);
    InterruptBehind(s, q);
  }

  /** How many of the steps are ticks. */
  function Ticks(steps: seq<Step>): nat {
    if steps == [] then 0 else Ticks(steps[..|steps| - 1]) + if steps[|steps| - 1].Tick? then 1 else 0
  }

  /** One step of a turn. */
  lemma TurnStep(s: State, step: Step, t: nat)
    requires Inv(s) && Enabled(s, step) && Runs(s, t) && t != s.idle && !GivesUp(step)
    requires step.Tick? ==> s.threads[t].quantum > 1
    ensures var s' := Next(s, step);
      Runs(s', t) && s'.idle == s.idle && s'.threads[t].quantum == s.threads[t].quantum - if step.Tick? then 1 else 0
  {
    if step.Tick? {
      TickCharges(s, step.now);
    } else {
      TurnKept(s, step);
    }
  }

  /** In every run, a thread that does not give up the processor has it for as many ticks as its quantum has left. */
  lemma {:induction false} TurnLasts(states: seq<State>, steps: seq<Step>, i: nat, j: nat, t: nat)
    requires Run(states, steps) && i <= j < |states| && Runs(states[i], t) && t != states[i].idle
    requires Ticks(steps[i..j]) < states[i].threads[t].quantum
    requires forall k {:trigger steps[k]} :: i <= k < j ==> !GivesUp(steps[k])
    ensures Runs(states[j], t) && states[j].idle == states[i].idle
    ensures states[j].threads[t].quantum + Ticks(steps[i..j]) == states[i].threads[t].quantum
    decreases j - i
  {
    if i < j {
      TicksNext(steps, i, j);
      TurnLasts(states, steps, i, j - 1, t);
      RunKeeps(states, steps, j - 1);
      assert Steps(states[j - 1], steps[j - 1], states[j]);
      TurnStep(states[j - 1], steps[j - 1], t);
    }
  }

  lemma TicksNext(steps: seq<Step>, i: nat, j: nat)
    requires i < j <= |steps|
    ensures Ticks(steps[i..j]) == Ticks(steps[i..j - 1]) + if steps[j - 1].Tick? then 1 else 0
  {
    assert steps[i..j][..j - i - 1] == steps[i..j - 1] && steps[i..j][j - i - 1] == steps[j - 1];
  }
}
