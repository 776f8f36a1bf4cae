/** Which system call a delivery puts back: the one it interrupted, or one remembered from before. */
module Restarts {
  import opened Base
  import opened SignalFrames
  import opened Signals

  /**
   * A system call cut short by a signal, and the signal's handler straight after it. If the handler
   * restarts calls the program is back at the instruction that made the call, with the registers it
   * made it with; otherwise it sees the call fail.
   */
  lemma InterruptedCall(t: Thread, s: Script, episodes: seq<Episode>)
    requires Stacked(t.memory, episodes) && Beneath(t.frame, episodes) && t.frame.general[RAX] != SYS_NANOSLEEP
    requires RunScript(Answered(t, t.frame.general[RAX], 0, EINTR_CODE), s, episodes).Some?
    ensures var after := RunScript(Answered(t, t.frame.general[RAX], 0, EINTR_CODE), s, episodes).value;
      if s.restart then SameToUser(after.frame, t.frame.(rip := Wrapped(t.frame.rip - 2)))
      else SameToUser(after.frame, WithRax(t.frame, Negated(EINTR_CODE)))
  {
    var g := t.frame.general;
    HandlerUnwinds(Answered(t, g[RAX], 0, EINTR_CODE), s, episodes);
    assert g[RAX := Negated(EINTR_CODE)][RAX := g[RAX]] == g;
  }

  /** No delivery in the run finds the registers as the call left them. */
  ghost predicate ScriptElsewhere(t: Thread, s: Script, episodes: seq<Episode>, call: Frame)
    decreases s
  {
    && !AsLeftBy(t.frame, call)
    && (PushFits(t.frame.rsp, true) ==> TurnsElsewhere(Inside(t, s), s.turns, episodes + [Context(t, s)], call))
  }

  ghost predicate TurnsElsewhere(t: Thread, turns: Turns, episodes: seq<Episode>, call: Frame)
    decreases turns
  {
    match turns
    case End => true
    case User(frame, memory, rest) =>
      Obeys(frame, memory, episodes) ==> TurnsElsewhere(t.(frame := frame, memory := memory), rest, episodes, call)
    case Call(number, result, code, memory, rest) =>
      code < 4096 && Obeys(t.frame, memory, episodes) ==>
        TurnsElsewhere(Answered(t, number, result, code).(memory := memory), rest, episodes, call)
    case Quiet(rest) => !AsLeftBy(t.frame, call) && TurnsElsewhere(Resumed(t), rest, episodes, call)
    case Inner(script, rest) =>
      && ScriptElsewhere(t, script, episodes, call)
      && (RunScript(t, script, episodes).Some? ==>
            TurnsElsewhere(RunScript(t, script, episodes).value, rest, episodes, call))
  }

  /** Inside a handler, whatever runs and however deep, no delivery can put back the call it interrupted. */
  lemma HandlerNeverRestarts(t: Thread, s: Script, episodes: seq<Episode>)
    requires Stacked(t.memory, episodes) && Beneath(t.frame, episodes) && PushFits(t.frame.rsp, true)
    ensures TurnsElsewhere(Inside(t, s), s.turns, episodes + [Context(t, s)], t.frame)
  {
    var e := Context(t, s);
    PushPlace(t.frame.rsp);
    PushStacks(t.memory, episodes, t.frame, e.saved, s.signal, s.restorer);
    TurnsBelow(Inside(t, s), s.turns, episodes + [e], t.frame, |episodes|);
  }

  /** Below a context that lies below the call's stack pointer, every delivery is elsewhere. */
  lemma {:induction false} TurnsBelow(t: Thread, turns: Turns, episodes: seq<Episode>, call: Frame, k: nat)
    requires Stacked(t.memory, episodes) && Beneath(t.frame, episodes) && k < |episodes|
    requires episodes[k].address < call.rsp
    ensures TurnsElsewhere(t, turns, episodes, call)
    decreases turns
  {
    match turns
    case End =>
    case User(frame, memory, rest) =>
      if Obeys(frame, memory, episodes) {
        TurnsBelow(t.(frame := frame, memory := memory), rest, episodes, call, k);
      }
    case Call(number, result, code, memory, rest) =>
      if code < 4096 && Obeys(t.frame, memory, episodes) {
        TurnsBelow(Answered(t, number, result, code).(memory := memory), rest, episodes, call, k);
      }
    case Quiet(rest) =>
      Descending(t.memory, episodes, k);
      TurnsBelow(Resumed(t), rest, episodes, call, k);
    case Inner(script, rest) =>
      ScriptBelow(t, script, episodes, call, k);
      if RunScript(t, script, episodes).Some? {
        HandlerUnwinds(t, script, episodes);
        TurnsBelow(RunScript(t, script, episodes).value, rest, episodes, call, k);
      }
  }

  lemma {:induction false} ScriptBelow(t: Thread, s: Script, episodes: seq<Episode>, call: Frame, k: nat)
    requires Stacked(t.memory, episodes) && Beneath(t.frame, episodes) && k < |episodes|
    requires episodes[k].address < call.rsp
    ensures ScriptElsewhere(t, s, episodes, call)
    decreases s
  {
    Descending(t.memory, episodes, k);
    if PushFits(t.frame.rsp, true) {
      PushPlace(t.frame.rsp);
      PushStacks(t.memory, episodes, t.frame, Context(t, s).saved, s.signal, s.restorer);
      TurnsBelow(Inside(t, s), s.turns, episodes + [Context(t, s)], call, k);
    }
  }

  const SIGUSR1: Word := 10

  lemma RoomToPush(rsp: Word)
    requires 512 <= rsp <= USER_SPACE_END
    ensures PushFits(rsp, true) && ContextAt(rsp) >= rsp - 512
  {
  }

  /** A call is cut short by a signal whose handler does not restart calls, and is entered. */
  method Interrupted(f: Frame, memory: Memory, number: Word, entry: Word, restorer: Word) returns (thread: UserThread)
    requires 512 <= f.rsp <= USER_SPACE_END && number != SYS_NANOSLEEP
    ensures fresh(thread) && thread.Valid() && thread.restartable == Some(number)
    ensures f.rsp - 1024 <= thread.frame.rsp < f.rsp
  {
    RoomToPush(f.rsp);
    PushPlace(f.rsp);
    thread := new UserThread(f, memory);
    thread.Finish(number, 0, EINTR_CODE);
    var fate := thread.Deliver(SIGUSR1, Handler(entry, Some(restorer), false), true);
  }

  /** A fault handled by a handler that restarts calls and returns at once. */
  method FaultAndReturn(thread: UserThread, entry: Word, restorer: Word) returns (after: Frame)
    requires thread.Valid() && PushFits(thread.frame.rsp, true)
    modifies thread
    ensures SameToUser(after, Saved(old(thread.Now()), true))
  {
    PushPlace(thread.frame.rsp);
    var fate := thread.Deliver(SIGSEGV, Handler(entry, Some(restorer), true), true);
    assert Innermost(thread.episodes) == Episode(ContextAt(old(thread.frame).rsp), Saved(old(thread.Now()), true));
    thread.Run(thread.frame.(rsp := thread.frame.rsp + 8), thread.memory);
    var r := thread.SigReturn(true);
    after := thread.frame;
  }

  /**
   * A call is cut short, and the handler, which does not restart calls, faults before it makes a call
   * of its own. The fault's handler restarts calls: when that returns, the program is two bytes before
   * the instruction that faulted, with the number of the old call in `rax`.
   */
  method StaleRestart(f: Frame, memory: Memory, number: Word, entry: Word, restorer: Word, fault: Word)
    returns (faulting: Frame, after: Frame)
    requires 2048 <= f.rsp <= USER_SPACE_END && number != SYS_NANOSLEEP
    ensures faulting.rip == fault && faulting.rsp < f.rsp && SameToUser(after, Rewound(faulting, number))
  {
    var thread := Interrupted(f, memory, number, entry, restorer);
    faulting := thread.frame.(rip := fault);
    RoomToPush(faulting.rsp);
    thread.Run(faulting, thread.memory);
    after := FaultAndReturn(thread, entry, restorer);
  }
}
