/**
 * The scheduler, sleepers and wait queues as one state machine. A step is one section with
 * interrupts masked; where a kernel thread stands between sections is its `pc`. A thread that wakes
 * others does so in several sections and can be preempted between them; an interrupt handler that
 * does is one section.
 */
module Scheduler {
  import opened Base
  import opened Queues

  const QUANTUM: nat := 5

  /** The queue every poller sleeps on. */
  const POLL: nat := 0

  datatype ThreadState = Ready | Running | Blocked | Sleeping | Stopped | Zombie

  /** Where a thread stands in the kernel, as far as waiting goes. */
  datatype Pc =
    | Free
    | Polling(mark: nat)
    | Enqueued(queue: nat, seen: Option<nat>)
    | Blocking(queue: nat, seen: Option<nat>)
    | Napping
    | Halted
    | Waking(wake: Wake)
    | Dead

  /** A wake-up under way: about to bump the poll generation, draining a queue, or about to wake one thread. */
  datatype Wake = Bump | Drain(queue: nat, held: Option<nat>) | One(thread: nat)

  /** `runLinked` and `waitLinked` are the flags of the two list nodes a thread carries. */
  datatype Thread = Thread(state: ThreadState, quantum: nat, wakeAt: nat, runLinked: bool, waitLinked: bool, pc: Pc)

  datatype WaitQueue = WaitQueue(waiters: seq<nat>, generation: nat)

  /** `corrupt` records a splice on a list the thread was not on, or the use of a thread long gone. */
  datatype State = State(
    threads: map<nat, Thread>,
    idle: nat,
    current: nat,
    runQueue: seq<nat>,
    zombies: seq<nat>,
    sleepers: seq<nat>,
    queues: map<nat, WaitQueue>,
    corrupt: bool)

  function Update(s: State, t: nat, th: Thread): State {
    s.(threads := s.threads[t := th])
  }

  // --- list operations, with the guards of the intrusive list

  function AppendRun(s: State, t: nat): (r: State)
    requires t in s.threads
    ensures r.threads.Keys == s.threads.Keys && r.queues == s.queues
  {
    if s.threads[t].runLinked then s
    else Update(s, t, s.threads[t].(runLinked := true)).(runQueue := s.runQueue + [t])
  }

  function AppendZombie(s: State, t: nat): (r: State)
    requires t in s.threads
    ensures r.threads.Keys == s.threads.Keys
  {
    if s.threads[t].runLinked then s
    else Update(s, t, s.threads[t].(runLinked := true)).(zombies := s.zombies + [t])
  }

  function AppendSleeper(s: State, t: nat): (r: State)
    requires t in s.threads
    ensures r.threads.Keys == s.threads.Keys
  {
    if s.threads[t].waitLinked then s
    else Update(s, t, s.threads[t].(waitLinked := true)).(sleepers := s.sleepers + [t])
  }

  function RemoveSleeper(s: State, t: nat): (r: State)
    requires t in s.threads
    ensures r.threads.Keys == s.threads.Keys && r.queues == s.queues
  {
    if !s.threads[t].waitLinked then s
    else if t !in s.sleepers then s.(corrupt := true)
    else Update(s, t, s.threads[t].(waitLinked := false)).(sleepers := Minus(s.sleepers, t))
  }

  function AppendWaiter(s: State, q: nat, t: nat): (r: State)
    requires t in s.threads && q in s.queues
    ensures r.threads.Keys == s.threads.Keys
  {
    if s.threads[t].waitLinked then s
    else Update(s, t, s.threads[t].(waitLinked := true)).(
      queues := s.queues[q := s.queues[q].(waiters := s.queues[q].waiters + [t])])
  }

  function RemoveWaiter(s: State, q: nat, t: nat): (r: State)
    requires t in s.threads && q in s.queues
    ensures r.threads.Keys == s.threads.Keys
  {
    if !s.threads[t].waitLinked then s
    else if t !in s.queues[q].waiters then s.(corrupt := true)
    else Update(s, t, s.threads[t].(waitLinked := false)).(
      queues := s.queues[q := s.queues[q].(waiters := Minus(s.queues[q].waiters, t))])
  }

  // --- the scheduler

  /** `switch_to_next`: the current thread goes to the back if it still runs, the first in line runs. */
  function Switch(s: State): State
    requires s.current in s.threads && s.idle in s.threads
    requires forall t :: t in s.runQueue ==> t in s.threads
  {
    var prev := s.current;
    var s1 :=
      if s.threads[prev].state == Running then
        var ready := Update(s, prev, s.threads[prev].(state := Ready));
        if prev != s.idle then AppendRun(ready, prev) else ready
      else s;
    if s1.runQueue == [] then
      Update(s1, s.idle, s1.threads[s.idle].(state := Running, quantum := QUANTUM)).(current := s.idle)
    else
      var next := s1.runQueue[0];
      Update(s1, next, s1.threads[next].(state := Running, quantum := QUANTUM, runLinked := false)).(
        current := next, runQueue := s1.runQueue[1..])
  }

  function Unblock(s: State, t: nat): (r: State)
    ensures r.threads.Keys == s.threads.Keys && r.queues == s.queues
  {
    if t !in s.threads then s.(corrupt := true)
    else if s.threads[t].state in {Running, Ready} then s
    else
      var s1 := if s.threads[t].state == Sleeping && s.threads[t].waitLinked then RemoveSleeper(s, t) else s;
      AppendRun(Update(s1, t, s1.threads[t].(state := Ready)), t)
  }

  /** One sleeper whose deadline has passed. */
  function WakeSleeper(s: State, t: nat): (r: State)
    requires t in s.threads
    ensures r.threads.Keys == s.threads.Keys
  {
    var s1 := RemoveSleeper(s, t);
    AppendRun(Update(s1, t, s1.threads[t].(state := Ready)), t)
  }

  function WakeDue(s: State, now: nat, list: seq<nat>): (r: State)
    requires forall t :: t in list ==> t in s.threads
    ensures r.threads.Keys == s.threads.Keys && r.current == s.current && r.idle == s.idle
    ensures forall t :: t in r.runQueue ==> t in s.runQueue || t in list
    decreases |list|
  {
    if list == [] then s
    else if s.threads[list[0]].wakeAt <= now then WakeDue(WakeSleeper(s, list[0]), now, list[1..])
    else WakeDue(s, now, list[1..])
  }

  /** The rest of the tick: charge the current thread, and switch if there is a reason and a successor. */
  function Charge(s: State): State
    requires s.current in s.threads && s.idle in s.threads
    requires forall t :: t in s.runQueue ==> t in s.threads
  {
    var th := s.threads[s.current];
    var left := if th.quantum > 0 then th.quantum - 1 else 0;
    var s1 := Update(s, s.current, th.(quantum := left));
    if left > 0 && !(s.current == s.idle && s.runQueue != []) then s1
    else if s.runQueue == [] && th.state == Running then Update(s1, s.current, th.(quantum := QUANTUM))
    else Switch(s1)
  }

  // --- steps

  datatype Step =
    | Spawn(thread: nat)
    | Tick(now: nat)
    | Yield
    | Wait(queue: nat)
    | ReadGeneration
    | PollReturn
    | WaitSince
    | Block
    | Stop
    | Sleep(deadline: nat)
    | Resume
    | Exit
    | Reap
    | Signal(thread: nat)
    | Continue(thread: nat)
    | WakeAll(queue: nat)
    | WakeOne(queue: nat)
    | BumpPoll
    | DrainTake
    | Release
    | InterruptWake(queue: nat)
    | InterruptSignal(thread: nat)

  /** The current thread runs ordinary kernel code at `pc`. */
  predicate At(s: State, pc: Pc) {
    s.current in s.threads && s.current != s.idle && s.threads[s.current].state == Running &&
      s.threads[s.current].pc == pc
  }

  predicate AtSome(s: State) {
    s.current in s.threads && s.current != s.idle && s.threads[s.current].state == Running
  }

  predicate Enabled(s: State, step: Step) {
    match step
    case Spawn(t) => t !in s.threads
    case Tick(_) => true
    case Yield => true
    case Wait(q) => At(s, Free) && q in s.queues && q != POLL
    case ReadGeneration => At(s, Free) && POLL in s.queues
    case PollReturn => AtSome(s) && s.threads[s.current].pc.Polling?
    case WaitSince => AtSome(s) && s.threads[s.current].pc.Polling? && POLL in s.queues
    case Block => AtSome(s) && s.threads[s.current].pc.Enqueued?
    case Stop => At(s, Free)
    case Sleep(_) => At(s, Free)
    case Resume => AtSome(s) && (s.threads[s.current].pc.Blocking? || s.threads[s.current].pc in {Napping, Halted})
    case Exit => At(s, Free)
    case Reap => s.current == s.idle && s.zombies != []
    case Signal(t) => At(s, Free) && t in s.threads && s.threads[t].state in {Blocked, Sleeping}
    case Continue(t) => At(s, Free) && t in s.threads && s.threads[t].pc != Dead
    case WakeAll(q) => At(s, Free) && q in s.queues
    case WakeOne(q) => At(s, Free) && q in s.queues
    case BumpPoll => At(s, Waking(Bump)) && POLL in s.queues
    case DrainTake => AtSome(s) && Drains(s.threads[s.current].pc) && s.threads[s.current].pc.wake.queue in s.queues
    case Release => AtSome(s) && Holds(s.threads[s.current].pc).Some?
    case InterruptWake(q) => q in s.queues && POLL in s.queues
    case InterruptSignal(t) => t in s.threads && s.threads[t].state in {Blocked, Sleeping}
  }

  /** Emptying a queue, with no thread in hand. */
  predicate Drains(pc: Pc) {
    pc.Waking? && pc.wake.Drain? && pc.wake.held.None?
  }

  /** The thread a waker is about to wake. */
  function Holds(pc: Pc): Option<nat> {
    if pc.Waking? && pc.wake.Drain? then pc.wake.held
    else if pc.Waking? && pc.wake.One? then Some(pc.wake.thread)
    else None
  }

  // --- the steps a thread takes

  function SetPc(s: State, pc: Pc): State
    requires s.current in s.threads
  {
    Update(s, s.current, s.threads[s.current].(pc := pc))
  }

  function StepSpawn(s: State, t: nat): State
    requires t !in s.threads
  {
    AppendRun(Update(s, t, Thread(Ready, QUANTUM, 0, false, false, Free)), t)
  }

  function StepWait(s: State, q: nat, seen: Option<nat>): State
    requires s.current in s.threads && q in s.queues
  {
    SetPc(AppendWaiter(s, q, s.current), Enqueued(q, seen))
  }

  function StepWaitSince(s: State): State
    requires s.current in s.threads && s.threads[s.current].pc.Polling? && POLL in s.queues
  {
    var mark := s.threads[s.current].pc.mark;
    if s.queues[POLL].generation != mark then SetPc(s, Free) else StepWait(s, POLL, Some(mark))
  }

  function StepBlock(s: State): State
    requires s.current in s.threads && s.threads[s.current].pc.Enqueued?
  {
    var th := s.threads[s.current];
    Update(s, s.current, th.(state := Blocked, pc := Blocking(th.pc.queue, th.pc.seen)))
  }

  function StepSleep(s: State, deadline: nat): State
    requires s.current in s.threads
  {
    AppendSleeper(Update(s, s.current, s.threads[s.current].(wakeAt := deadline, state := Sleeping, pc := Napping)),
      s.current)
  }

  function StepResume(s: State): State
    requires s.current in s.threads
  {
    var pc := s.threads[s.current].pc;
    if pc.Blocking? && pc.queue in s.queues then SetPc(RemoveWaiter(s, pc.queue, s.current), Free) else SetPc(s, Free)
  }

  function StepExit(s: State): State
    requires s.current in s.threads
  {
    AppendZombie(Update(s, s.current, s.threads[s.current].(state := Zombie, pc := Dead)), s.current)
  }

  /** The idle loop frees the first zombie. */
  function StepReap(s: State): State
    requires s.zombies != []
  {
    s.(zombies := s.zombies[1..], threads := s.threads - {s.zombies[0]})
  }

  // --- waking

  function BumpGeneration(s: State, q: nat): State
    requires q in s.queues
  {
    s.(queues := s.queues[q := s.queues[q].(generation := s.queues[q].generation + 1)])
  }

  /** `m_waiters.take_first()`. */
  function TakeWaiter(s: State, q: nat): (r: State)
    requires q in s.queues && s.queues[q].waiters != []
    ensures r.threads.Keys == s.threads.Keys && r.queues.Keys == s.queues.Keys
    ensures r.queues[q].waiters == s.queues[q].waiters[1..]
  {
    var t := s.queues[q].waiters[0];
    var s1 := s.(queues := s.queues[q := s.queues[q].(waiters := s.queues[q].waiters[1..])]);
    if t in s.threads then Update(s1, t, s.threads[t].(waitLinked := false)) else s1.(corrupt := true)
  }

  /** The current thread takes the next waiter, or goes on to the pollers, or is done. */
  function StepDrainTake(s: State): State
    requires s.current in s.threads && Drains(s.threads[s.current].pc) && s.threads[s.current].pc.wake.queue in s.queues
  {
    var q := s.threads[s.current].pc.wake.queue;
    if s.queues[q].waiters == [] then SetPc(s, if q == POLL then Free else Waking(Bump))
    else SetPc(TakeWaiter(s, q), Waking(Drain(q, Some(s.queues[q].waiters[0]))))
  }

  function StepWakeOne(s: State, q: nat): State
    requires s.current in s.threads && q in s.queues
  {
    if s.queues[q].waiters == [] then s else SetPc(TakeWaiter(s, q), Waking(One(s.queues[q].waiters[0])))
  }

  /** The thread in hand is woken, whatever has become of it meanwhile. */
  function StepRelease(s: State): State
    requires s.current in s.threads && Holds(s.threads[s.current].pc).Some?
  {
    var wake := s.threads[s.current].pc.wake;
    SetPc(Unblock(s, Holds(s.threads[s.current].pc).value), if wake.Drain? then Waking(Drain(wake.queue, None))
      else Free)
  }

  /** The loop of `wake_all` with nothing in between. */
  function WakeWaiters(s: State, q: nat): (r: State)
    requires q in s.queues
    ensures r.threads.Keys == s.threads.Keys && r.queues.Keys == s.queues.Keys && r.queues[q].waiters == []
    decreases |s.queues[q].waiters|
  {
    if s.queues[q].waiters == [] then s
    else WakeWaiters(Unblock(TakeWaiter(s, q), s.queues[q].waiters[0]), q)
  }

  /** `wake_all` called by an interrupt handler. */
  function StepInterruptWake(s: State, q: nat): State
    requires q in s.queues && POLL in s.queues
  {
    var s1 := WakeWaiters(BumpGeneration(s, q), q);
    if q == POLL then s1 else WakeWaiters(BumpGeneration(s1, POLL), POLL)
  }

  ghost predicate WellFormed(s: State) {
    && s.current in s.threads && s.idle in s.threads
    && (forall t :: t in s.runQueue ==> t in s.threads)
    && (forall t :: t in s.sleepers ==> t in s.threads)
  }

  ghost function Next(s: State, step: Step): State
    requires WellFormed(s) && Enabled(s, step)
  {
    match step
    case Spawn(t) => StepSpawn(s, t)
    case Tick(now) => Charge(WakeDue(s, now, s.sleepers))
    case Yield => Switch(s)
    case Wait(q) => StepWait(s, q, None)
    case ReadGeneration => SetPc(s, Polling(s.queues[POLL].generation))
    case PollReturn => SetPc(s, Free)
    case WaitSince => StepWaitSince(s)
    case Block => StepBlock(s)
    case Stop => Update(s, s.current, s.threads[s.current].(state := Stopped, pc := Halted))
    case Sleep(deadline) => StepSleep(s, deadline)
    case Resume => StepResume(s)
    case Exit => StepExit(s)
    case Reap => StepReap(s)
    case Signal(t) => SetPc(s, Waking(One(t)))
    case Continue(t) => SetPc(s, Waking(One(t)))
    case WakeAll(q) => SetPc(BumpGeneration(s, q), Waking(Drain(q, None)))
    case WakeOne(q) => StepWakeOne(s, q)
    case BumpPoll => SetPc(BumpGeneration(s, POLL), Waking(Drain(POLL, None)))
    case DrainTake => StepDrainTake(s)
    case Release => StepRelease(s)
    case InterruptWake(q) => StepInterruptWake(s, q)
    case InterruptSignal(t) => Unblock(s, t)
  }
}
