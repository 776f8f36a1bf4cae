/** Delivering signals to a user thread and unwinding their handlers. */
module Signals {
  import opened Base
  import opened SignalFrames

  const SIGKILL: nat := 9
  const SIGSEGV: nat := 11
  const SIGCHLD: nat := 17
  const SIGCONT: nat := 18
  const SIGSTOP: nat := 19
  const SIGTSTP: nat := 20
  const SIGTTIN: nat := 21
  const SIGTTOU: nat := 22
  const SIGURG: nat := 23
  const SIGWINCH: nat := 28
  const NSIG: nat := 32

  const EINTR_CODE: nat := 4
  const SYS_NANOSLEEP: nat := 29

  predicate TerminatesByDefault(signal: nat) {
    signal !in {SIGCHLD, SIGURG, SIGWINCH, SIGCONT, SIGSTOP, SIGTSTP, SIGTTIN, SIGTTOU}
  }

  predicate StopsByDefault(signal: nat) {
    signal in {SIGSTOP, SIGTSTP, SIGTTIN, SIGTTOU}
  }

  datatype Disposition = Default | Ignore | Handler(entry: Word, restorer: Option<Word>, restart: bool)

  /** What becomes of the thread: it goes on, it goes on after having been stopped, or the process ends. */
  datatype Fate = Runs | StoppedFirst | Exits(status: nat)

  /** A handler under way: where its context lies and the frame that will be put back. */
  datatype Episode = Episode(address: Word, saved: Frame)

  /**
   * The part of a thread that signals touch. A call to be restarted is remembered by its number alone;
   * `origin`, the frame it returned in, is not kept by the code.
   */
  datatype Thread = Thread(frame: Frame, memory: Memory, restartable: Option<Word>, origin: Frame)

  // --- pushing a handler

  function Pushed(m: Memory, rsp: Word, saved: Frame, signal: Word, restorer: Word): Memory
    requires PushFits(rsp, true)
  {
    PushPlace(rsp);
    Store(Store(m, ContextAt(rsp), Cells(saved) + [Number(signal)]), ContextAt(rsp) - 8, [Number(restorer)])
  }

  /** The frame the handler starts in. */
  function Entered(f: Frame, signal: Word, entry: Word): Frame
    requires PushFits(f.rsp, true)
  {
    PushPlace(f.rsp);
    f.(rsp := ContextAt(f.rsp) - 8, rip := entry, general := f.general[RDI := signal][RAX := 0])
  }

  /** What the handler will return to. */
  function Saved(t: Thread, restart: bool): Frame {
    if restart && t.restartable.Some? then Rewound(t.frame, t.restartable.value) else t.frame
  }

  /** The program sees the registers the call left, whatever is in `rax`. */
  ghost predicate AsLeftBy(f: Frame, call: Frame) {
    SameToUser(WithRax(f, 0), WithRax(call, 0))
  }

  /** Rewinding puts the remembered call back exactly when the registers are still those it left. */
  lemma RewindsOwn(f: Frame, call: Frame, number: Word)
    ensures forall g :: SameToUser(g, Rewound(f, number)) ==>
      (SameToUser(g, Rewound(call, number)) <==> AsLeftBy(f, call))
  {
    var g, h := f.general, call.general;
    assert g[RAX := number][RAX := 0] == g[RAX := 0] && h[RAX := number][RAX := 0] == h[RAX := 0];
    assert g[RAX := 0][RAX := number] == g[RAX := number] && h[RAX := 0][RAX := number] == h[RAX := number];
    assert Wrapped(f.rip - 2) == Wrapped(call.rip - 2) <==> f.rip == call.rip;
  }

  /** At the two-byte system call instruction again, with its number in `rax` and all else as it was. */
  ghost predicate BackAtCall(f: Frame, f': Frame, number: Word) {
    && (f'.rip + 2) % WORDS == f.rip && f'.general[RAX] == number && f'.rsp == f.rsp && f'.rflags == f.rflags
    && forall k :: 0 <= k < 15 && k != RAX ==> f'.general[k] == f.general[k]
  }

  /** The context holds the frame, the return address the restorer, and nothing else was written. */
  lemma PushedReads(m: Memory, rsp: Word, saved: Frame, signal: Word, restorer: Word)
    requires PushFits(rsp, true)
    ensures var m', c := Pushed(m, rsp, saved, signal, restorer), ContextAt(rsp);
      && c + CONTEXT_SIZE <= WORDS && Fetch(m', c, FRAME_CELLS) == Cells(saved)
      && c >= 8 && Load(m', c - 8) == Number(restorer)
      && forall a: Word :: Load(m', a) != Load(m, a) ==> c - 8 <= a < c + CONTEXT_SIZE <= rsp - 128
  {
    PushPlace(rsp);
    var c, cells := ContextAt(rsp), Cells(saved) + [Number(signal)];
    var m1 := Store(m, c, cells);
    var m' := Store(m1, c - 8, [Number(restorer)]);
    FetchStored(m, c, cells);
    FetchElsewhere(m1, c - 8, [Number(restorer)], c, 23);
    forall k | 0 <= k < FRAME_CELLS ensures Fetch(m', c, FRAME_CELLS)[k] == Cells(saved)[k] {
      assert Fetch(m', c, 23)[k] == cells[k];
    }
    StoreHits(m1, c - 8, [Number(restorer)], 0);
    forall a: Word | a < c - 8 || c + CONTEXT_SIZE <= a ensures Load(m', a) == Load(m, a) {
      StoreMisses(m, c, cells, a);
      StoreMisses(m1, c - 8, [Number(restorer)], a);
    }
  }

  lemma RewoundBack(f: Frame, number: Word)
    ensures BackAtCall(f, Rewound(f, number), number)
  {
  }

  /**
   * The handler is about to run: its argument is the signal, its return address the restorer, its stack is
   * aligned and below the red zone, and the registers it was not given are the interrupted program's.
   */
  ghost predicate InHandler(f: Frame, f': Frame, m: Memory, signal: Word, entry: Word, restorer: Word) {
    && f'.rip == entry && f'.general[RDI] == signal && f'.general[RAX] == 0
    && (forall k :: 0 <= k < 15 && k != RDI && k != RAX ==> f'.general[k] == f.general[k])
    && f'.rflags == f.rflags && f'.cs == f.cs && f'.ss == f.ss
    && f'.rsp % 16 == 0 && f'.rsp + 8 + CONTEXT_SIZE <= f.rsp - 128
    && Load(m, f'.rsp) == Number(restorer) && Load(m, f'.rsp + 8 + 8 * 22) == Number(signal)
  }

  lemma HandlerEntered(m: Memory, f: Frame, saved: Frame, m': Memory, signal: Word, entry: Word, restorer: Word)
    requires PushFits(f.rsp, true) && Alike(Pushed(m, f.rsp, saved, signal, restorer), m')
    ensures InHandler(f, Entered(f, signal, entry), m', signal, entry, restorer)
  {
    PushPlace(f.rsp);
    var c, cells := ContextAt(f.rsp), Cells(saved) + [Number(signal)];
    var m1 := Store(m, c, cells);
    StoreHits(m, c, cells, 22);
    StoreMisses(m1, c - 8, [Number(restorer)], c + 176);
    StoreHits(m1, c - 8, [Number(restorer)], 0);
  }

  // --- contexts under way

  ghost predicate Holds(m: Memory, e: Episode) {
    e.address + CONTEXT_SIZE <= USER_SPACE_END && Fetch(m, e.address, FRAME_CELLS) == Cells(e.saved)
  }

  /** Each context is intact and lies below the ones it interrupted. */
  ghost predicate Stacked(m: Memory, episodes: seq<Episode>) {
    && (forall k {:trigger episodes[k]} :: 0 <= k < |episodes| ==> Holds(m, episodes[k]))
    && (forall k {:trigger episodes[k]} :: 0 < k < |episodes| ==>
          episodes[k].address + CONTEXT_SIZE <= episodes[k].saved.rsp <= episodes[k - 1].address)
  }

  /** The stack pointer is below every context. */
  ghost predicate Beneath(f: Frame, episodes: seq<Episode>) {
    episodes == [] || f.rsp <= episodes[|episodes| - 1].address
  }

  lemma {:induction false} Descending(m: Memory, episodes: seq<Episode>, k: nat)
    requires Stacked(m, episodes) && k < |episodes|
    ensures episodes[|episodes| - 1].address <= episodes[k].address
    decreases |episodes| - k
  {
    if k + 1 < |episodes| {
      Descending(m, episodes, k + 1);
      assert episodes[k + 1].address <= episodes[k].address;
    }
  }

  /** A push beneath the contexts leaves them intact. */
  lemma PushStacks(m: Memory, episodes: seq<Episode>, f: Frame, saved: Frame, signal: Word, restorer: Word)
    requires Stacked(m, episodes) && Beneath(f, episodes) && PushFits(f.rsp, true) && saved.rsp == f.rsp
    ensures Stacked(Pushed(m, f.rsp, saved, signal, restorer), episodes + [Episode(ContextAt(f.rsp), saved)])
  {
    var m', e := Pushed(m, f.rsp, saved, signal, restorer), Episode(ContextAt(f.rsp), saved);
    var episodes' := episodes + [e];
    PushPlace(f.rsp);
    PushedReads(m, f.rsp, saved, signal, restorer);
    forall k | 0 <= k < |episodes'| ensures Holds(m', episodes'[k]) {
      if k < |episodes| {
        Descending(m, episodes, k);
        assert Holds(m, episodes[k]);
        assert Fetch(m', episodes[k].address, FRAME_CELLS) == Fetch(m, episodes[k].address, FRAME_CELLS);
      }
    }
    forall k | 0 < k < |episodes'|
      ensures episodes'[k].address + CONTEXT_SIZE <= episodes'[k].saved.rsp <= episodes'[k - 1].address {
      if k < |episodes| { assert episodes[k].saved.rsp <= episodes[k - 1].address; }
    }
  }

  /** What `sigreturn` restores: the context lies where the stack pointer is once the handler has returned. */
  function Restored(m: Memory, f: Frame): Frame
    requires f.rsp + CONTEXT_SIZE <= USER_SPACE_END
  {
    Sanitized(FrameOf(Fetch(m, f.rsp, FRAME_CELLS)), f.vector)
  }

  /** Register by register; the selectors are the user's, interrupts are on, and no flag a program may not set is. */
  ghost predicate PutBack(m: Memory, a: Word, f: Frame) {
    && a + CONTEXT_SIZE <= USER_SPACE_END
    && f.cs == 0x23 && f.ss == 0x1B && f.rflags & 0x202 == 0x202 && f.rflags & !0xED7 == 0
    && f.rip == AsNumber(Load(m, a + 8 * 17)) && f.rsp == AsNumber(Load(m, a + 8 * 20))
    && forall k :: 0 <= k < 15 ==> f.general[k] == AsNumber(Load(m, a + 8 * k))
  }

  lemma RestoredReads(m: Memory, f: Frame)
    requires f.rsp + CONTEXT_SIZE <= USER_SPACE_END
    ensures PutBack(m, f.rsp, Restored(m, f))
  {
    SanitizedSame(FrameOf(Fetch(m, f.rsp, FRAME_CELLS)), f.vector);
  }

  /** Returning with the stack pointer at the innermost context puts its frame back and leaves the others. */
  lemma ReturnUnwinds(m: Memory, f: Frame, episodes: seq<Episode>, e: Episode)
    requires Stacked(m, episodes + [e]) && f.rsp == e.address
    ensures f.rsp + CONTEXT_SIZE <= USER_SPACE_END && Restored(m, f) == Sanitized(e.saved, f.vector)
    ensures Stacked(m, episodes) && Beneath(Restored(m, f), episodes)
  {
    var all := episodes + [e];
    assert all[|episodes|] == e && Holds(m, e);
    FrameRoundTrip(e.saved);
    forall k | 0 <= k < |episodes| ensures Holds(m, episodes[k]) { assert Holds(m, all[k]); }
    forall k | 0 < k < |episodes|
      ensures episodes[k].address + CONTEXT_SIZE <= episodes[k].saved.rsp <= episodes[k - 1].address {
      assert all[k].saved.rsp <= all[k - 1].address;
    }
    if episodes != [] { assert all[|episodes|].saved.rsp <= all[|episodes| - 1].address; }
  }

  // --- whole handlers, nested to any depth

  /** An error code as a system call returns it. */
  function Negated(code: nat): Word
    requires 0 < code < 4096
  {
    WORDS - code
  }

  /** What a system call leaves: its result in `rax`, and its number if a signal cut it short. */
  function Answered(t: Thread, number: Word, result: Word, code: nat): Thread
    requires code < 4096
  {
    var f := WithRax(t.frame, if code == 0 then result else Negated(code));
    if code == EINTR_CODE && number != SYS_NANOSLEEP then Thread(f, t.memory, Some(number), f)
    else Thread(f, t.memory, None, t.origin)
  }

  /**
   * What happens while a handler runs: user code of any kind, system calls, a signal that is ignored or
   * only stops the process for a while, or another handler on top.
   */
  datatype Turns =
    | End
    | User(frame: Frame, memory: Memory, rest: Turns)
    | Call(number: Word, result: Word, code: nat, memory: Memory, rest: Turns)
    | Quiet(rest: Turns)
    | Inner(script: Script, rest: Turns)

  datatype Script = Script(signal: Word, entry: Word, restorer: Word, restart: bool, turns: Turns)

  /** Nothing may overwrite a context or go above one with the stack. */
  ghost predicate Obeys(f: Frame, m: Memory, episodes: seq<Episode>) {
    Beneath(f, episodes) && forall k {:trigger episodes[k]} :: 0 <= k < |episodes| ==> Holds(m, episodes[k])
  }

  lemma ObeyingKeeps(m: Memory, episodes: seq<Episode>, f: Frame, m': Memory)
    requires Stacked(m, episodes) && Obeys(f, m', episodes)
    ensures Stacked(m', episodes) && Beneath(f, episodes)
  {
  }

  /** What a signal that runs no handler leaves: the interrupted call, if one is remembered, is put back. */
  function Resumed(t: Thread): Thread {
    Thread(Saved(t, true), t.memory, None, t.origin)
  }

  /** The context a delivery pushes, and the thread on entry to its handler. */
  function Context(t: Thread, s: Script): Episode {
    Episode(ContextAt(t.frame.rsp), Saved(t, s.restart))
  }

  function Inside(t: Thread, s: Script): Thread
    requires PushFits(t.frame.rsp, true)
  {
    Thread(
      Entered(t.frame, s.signal, s.entry),
      Pushed(t.memory, t.frame.rsp, Saved(t, s.restart), s.signal, s.restorer),
      if s.restart then None else t.restartable,
      t.origin)
  }

  /**
   * Delivery, the handler's turns, and the return, which as a system call forgets the call remembered;
   * `None` when it does not come to a proper end.
   */
  ghost function RunScript(t: Thread, s: Script, episodes: seq<Episode>): Option<Thread>
    decreases s
  {
    if !PushFits(t.frame.rsp, true) then None
    else
      match RunTurns(Inside(t, s), s.turns, episodes + [Context(t, s)])
      case None => None
      case Some(last) =>
        if last.frame.rsp != Context(t, s).address || last.frame.rsp + CONTEXT_SIZE > USER_SPACE_END then None
        else Some(last.(frame := Restored(last.memory, last.frame), restartable := None))
  }

  ghost function RunTurns(t: Thread, turns: Turns, episodes: seq<Episode>): Option<Thread>
    decreases turns
  {
    match turns
    case End => Some(t)
    case User(frame, memory, rest) =>
      if Obeys(frame, memory, episodes) then RunTurns(t.(frame := frame, memory := memory), rest, episodes) else None
    case Call(number, result, code, memory, rest) =>
      if code < 4096 && Obeys(t.frame, memory, episodes)
      then RunTurns(Answered(t, number, result, code).(memory := memory), rest, episodes) else None
    case Quiet(rest) => RunTurns(Resumed(t), rest, episodes)
    case Inner(script, rest) =>
      match RunScript(t, script, episodes)
      case None => None
      case Some(next) => RunTurns(next, rest, episodes)
  }

  /**
   * A handler that comes to its end, however many others ran on top of it, leaves the registers,
   * rip, rsp and arithmetic flags as they were; or, if it restarts calls and one is remembered, rewound.
   * That is back at the call exactly when the delivery found the registers as the call left them.
   */
  lemma {:induction false} HandlerUnwinds(t: Thread, s: Script, episodes: seq<Episode>)
    requires Stacked(t.memory, episodes) && Beneath(t.frame, episodes) && RunScript(t, s, episodes).Some?
    ensures var after := RunScript(t, s, episodes).value;
      && after.restartable == None && after.frame == Sanitized(Saved(t, s.restart), after.frame.vector)
      && (!s.restart || t.restartable.None? ==> SameToUser(after.frame, t.frame))
      && (s.restart && t.restartable.Some? ==>
            (SameToUser(after.frame, Rewound(t.origin, t.restartable.value)) <==> AsLeftBy(t.frame, t.origin)))
      && Stacked(after.memory, episodes) && Beneath(after.frame, episodes)
    decreases s
  {
    var e, inside := Context(t, s), Inside(t, s);
    PushPlace(t.frame.rsp);
    PushStacks(t.memory, episodes, t.frame, e.saved, s.signal, s.restorer);
    TurnsKeep(inside, s.turns, episodes + [e]);
    var last := RunTurns(inside, s.turns, episodes + [e]).value;
    ReturnUnwinds(last.memory, last.frame, episodes, e);
    SanitizedSame(e.saved, last.frame.vector);
    if s.restart && t.restartable.Some? { RewindsOwn(t.frame, t.origin, t.restartable.value); }
  }

  lemma {:induction false} TurnsKeep(t: Thread, turns: Turns, episodes: seq<Episode>)
    requires Stacked(t.memory, episodes) && Beneath(t.frame, episodes) && RunTurns(t, turns, episodes).Some?
    ensures var after := RunTurns(t, turns, episodes).value;
      && Stacked(after.memory, episodes)
      && Beneath(after.frame, episodes)
    decreases turns
  {
    match turns
    case End =>
    case User(frame, memory, rest) => TurnsKeep(t.(frame := frame, memory := memory), rest, episodes);
    case Call(number, result, code, memory, rest) =>
      TurnsKeep(Answered(t, number, result, code).(memory := memory), rest, episodes);
    case Quiet(rest) => TurnsKeep(Resumed(t), rest, episodes);
    case Inner(script, rest) =>
      HandlerUnwinds(t, script, episodes);
      TurnsKeep(RunScript(t, script, episodes).value, rest, episodes);
  }

  // --- the code

  /** What a signal calls for, before anything is pushed. */
  datatype Decision =
    | Kill(status: nat)
    | Resume(stopped: bool)
    | Enter(entry: Word, restorer: Word, restart: bool)
    | LeaveAlone

  function Decide(signal: nat, d: Disposition): Decision {
    if signal == SIGKILL then Kill(SIGKILL)
    else if signal == SIGSTOP then Resume(true)
    else
      match d
      case Ignore => Resume(false)
      case Default =>
        if signal == SIGCONT then Resume(false)
        else if StopsByDefault(signal) then Resume(true)
        else if !TerminatesByDefault(signal) then Resume(false)
        else Kill(signal % 128)
      case Handler(entry, restorer, restart) =>
        if restorer.Some? then Enter(entry, restorer.value, restart)
        else if TerminatesByDefault(signal) then Kill(signal % 128)
        else LeaveAlone
  }

  class UserThread {
    var frame: Frame
    var memory: Memory
    var restartable: Option<Word>
    ghost var origin: Frame
    ghost var episodes: seq<Episode>

    ghost predicate Valid()
      reads this
    {
      Stacked(memory, episodes) && Beneath(frame, episodes)
    }

    ghost function Now(): Thread
      reads this
    {
      Thread(frame, memory, restartable, origin)
    }

    constructor (frame: Frame, memory: Memory)
      ensures Valid() && Now() == Thread(frame, memory, None, frame) && episodes == []
    {
      this.frame, this.memory, restartable, episodes := frame, memory, None, [];
      origin := frame;
    }

    /** The program runs: it may do anything but overwrite a context or go above one with its stack. */
    method Run(frame: Frame, memory: Memory)
      requires Valid() && Obeys(frame, memory, episodes)
      modifies this`frame, this`memory
      ensures Valid() && this.frame == frame && this.memory == memory
    {
      ObeyingKeeps(this.memory, episodes, frame, memory);
      this.frame, this.memory := frame, memory;
    }

    /** The result of a system call goes into `rax`, and an interrupted one is remembered. */
    method Finish(number: Word, result: Word, code: nat)
      requires Valid() && code < 4096
      modifies this`frame, this`restartable, this`origin
      ensures Valid() && Now() == Answered(old(Now()), number, result, code)
      ensures frame.general[RAX] == (if code == 0 then result else WORDS - code) && frame.rip == old(frame).rip
      ensures restartable == if code == 4 && number != 29 then Some(number) else None
      ensures restartable.Some? ==> AsLeftBy(frame, origin)
    {
      ghost var m, all := memory, episodes;
      restartable := None;
      if code != 0 {
        frame := WithRax(frame, Negated(code));
        if code == EINTR_CODE && number != SYS_NANOSLEEP { restartable, origin := Some(number), frame; }
      } else {
        frame := WithRax(frame, result);
      }
      assert memory == m && episodes == all && Beneath(frame, all);
    }

    /** `restart_interrupted_syscall`. */
    method Restart()
      requires Valid()
      modifies this`frame, this`restartable
      ensures Valid() && restartable == None && frame == Saved(old(Now()), true)
      ensures if old(restartable).Some? then BackAtCall(old(frame), frame, old(restartable).value)
        else frame == old(frame)
      ensures old(restartable).Some? ==>
        (SameToUser(frame, Rewound(origin, old(restartable).value)) <==> AsLeftBy(old(frame), origin))
    {
      if restartable.Some? {
        RewindsOwn(frame, origin, restartable.value);
        RewoundBack(frame, restartable.value);
        frame := Rewound(frame, restartable.value);
        restartable := None;
      }
    }

    /** `deliver_pending_signal`, once a signal has been taken; `mapped` says whether the stack is there. */
    method Deliver(signal: Word, d: Disposition, mapped: bool) returns (fate: Fate)
      requires Valid() && 0 < signal < NSIG
      modifies this
      ensures Valid()
      ensures match Decide(signal, d)
        case Kill(status) => fate == Exits(status) && Now() == old(Now()) && episodes == old(episodes)
        case LeaveAlone => fate == Runs && Now() == old(Now()) && episodes == old(episodes)
        case Resume(stopped) =>
          && fate == (if stopped then StoppedFirst else Runs)
          && Now() == Resumed(old(Now())) && episodes == old(episodes)
        case Enter(entry, restorer, restart) =>
          if !PushFits(old(frame).rsp, mapped) then fate == Exits(SIGSEGV) && Now() == old(Now()) &&
            episodes == old(episodes)
          else
            && fate == Runs && frame == Entered(old(frame), signal, entry)
            && Alike(Pushed(old(memory), old(frame).rsp, Saved(old(Now()), restart), signal, restorer), memory)
            && episodes == old(episodes) + [Episode(ContextAt(old(frame).rsp), Saved(old(Now()), restart))]
            && restartable == (if restart then None else old(restartable)) && origin == old(origin)
      ensures signal == 9 ==> fate == Exits(9)
      ensures signal == 19 ==> fate == StoppedFirst
      ensures signal !in {9, 19} ==>
        match d
        case Ignore => fate == Runs
        case Default =>
          fate == if signal in {20, 21, 22} then StoppedFirst else if signal in {17, 18, 23, 28} then Runs
                  else Exits(signal)
        case Handler(entry, restorer, _) =>
          if restorer.None? then fate == if signal in {17, 18, 20, 21, 22, 23, 28} then Runs else Exits(signal)
          else if !PushFits(old(frame).rsp, mapped) then fate == Exits(11)
          else
            && fate == Runs && frame.rip == entry && frame.general[RDI] == signal && frame.general[RAX] == 0
            && frame.rsp % 16 == 0 && Load(memory, frame.rsp) == Number(restorer.value)
            && forall k :: 0 <= k < 15 && k != RDI && k != RAX ==> frame.general[k] == old(frame).general[k]
      ensures (signal == 19 || !d.Handler?) && !fate.Exits? ==>
        if old(restartable).Some? then BackAtCall(old(frame), frame, old(restartable).value) else frame == old(frame)
    {
      if signal == SIGKILL { return Exits(SIGKILL); }
      if signal == SIGSTOP {
        Restart();
        return StoppedFirst;
      }
      if d.Ignore? || (signal == SIGCONT && d.Default?) {
        Restart();
        return Runs;
      }
      if d.Default? {
        if StopsByDefault(signal) {
          Restart();
          return StoppedFirst;
        }
        if !TerminatesByDefault(signal) {
          Restart();
          return Runs;
        }
        return Exits(signal % 128);
      }
      if d.restorer.None? {
        return if TerminatesByDefault(signal) then Exits(signal % 128) else Runs;
      }
      if !PushFits(frame.rsp, mapped) { return Exits(SIGSEGV); }
      Push(signal, d.entry, d.restorer.value, d.restart);
      return Runs;
    }

    /** The context and the return address go on the stack, and the handler is entered. */
    method Push(signal: Word, entry: Word, restorer: Word, restart: bool)
      requires Valid() && PushFits(frame.rsp, true)
      modifies this
      ensures Valid() && frame == Entered(old(frame), signal, entry)
      ensures InHandler(old(frame), frame, memory, signal, entry, restorer)
      ensures Alike(Pushed(old(memory), old(frame).rsp, Saved(old(Now()), restart), signal, restorer), memory)
      ensures episodes == old(episodes) + [Episode(ContextAt(old(frame).rsp), Saved(old(Now()), restart))]
      ensures restartable == (if restart then None else old(restartable)) && origin == old(origin)
    {
      PushPlace(frame.rsp);
      PushKeeps(Now(), episodes, signal, entry, restorer, restart);
      var context := ContextAt(frame.rsp);
      memory := Pushed(memory, frame.rsp, frame, signal, restorer);
      if restart && restartable.Some? {
        memory := Store(memory, context, Cells(Rewound(frame, restartable.value)));
        restartable := None;
      }
      episodes := episodes + [Episode(context, Saved(old(Now()), restart))];
      HandlerEntered(old(memory), frame, Saved(old(Now()), restart), memory, signal, entry, restorer);
      frame := Entered(frame, signal, entry);
    }

    /** `sigreturn`, which like every system call begins by forgetting the last one. */
    method SigReturn(mapped: bool) returns (r: Result<Word>)
      requires Valid()
      modifies this`frame, this`restartable, this`episodes
      ensures restartable == None
      ensures r.Err? <==> !Reachable(old(frame).rsp, CONTEXT_SIZE, mapped)
      ensures r.Err? ==> r.error == EFAULT && frame == old(frame) && episodes == old(episodes)
      ensures r.Ok? ==> frame == Restored(old(memory), old(frame)) && r.value == frame.general[RAX]
      ensures r.Ok? ==> PutBack(memory, old(frame).rsp, frame)
      ensures r.Ok? && AtContext(old(frame), old(episodes)) ==>
        Valid() && episodes == Outer(old(episodes)) && SameToUser(frame, Innermost(old(episodes)).saved)
    {
      restartable := None;
      if !Reachable(frame.rsp, CONTEXT_SIZE, mapped) { return Err(EFAULT); }
      RestoredReads(memory, frame);
      Unwind();
      return Ok(frame.general[RAX]);
    }

    /** The context at the stack pointer is put back. */
    method Unwind()
      requires Valid() && frame.rsp + CONTEXT_SIZE <= USER_SPACE_END
      modifies this`frame, this`episodes
      ensures frame == Restored(memory, old(frame))
      ensures AtContext(old(frame), old(episodes)) ==>
        Valid() && episodes == Outer(old(episodes)) && SameToUser(frame, Innermost(old(episodes)).saved)
    {
      ghost var all := episodes;
      if AtContext(frame, all) {
        PopKeeps(memory, frame, all);
        episodes := Outer(all);
      }
      frame := Restored(memory, frame);
    }
  }

  ghost function Innermost(episodes: seq<Episode>): Episode
    requires episodes != []
  {
    episodes[|episodes| - 1]
  }

  ghost function Outer(episodes: seq<Episode>): seq<Episode>
    requires episodes != []
  {
    episodes[..|episodes| - 1]
  }

  /** The stack pointer is where a handler leaves it: at the innermost context. */
  ghost predicate AtContext(f: Frame, episodes: seq<Episode>) {
    episodes != [] && f.rsp == Innermost(episodes).address
  }

  /** The push as the code makes it: the frame first, and over it the rewound one if there is one. */
  function Written(t: Thread, signal: Word, restorer: Word, restart: bool): Memory
    requires PushFits(t.frame.rsp, true)
  {
    PushPlace(t.frame.rsp);
    var m := Pushed(t.memory, t.frame.rsp, t.frame, signal, restorer);
    if restart && t.restartable.Some? then
      Store(m, ContextAt(t.frame.rsp), Cells(Rewound(t.frame, t.restartable.value)))
    else m
  }

  lemma PushKeeps(t: Thread, episodes: seq<Episode>, signal: Word, entry: Word, restorer: Word, restart: bool)
    requires Stacked(t.memory, episodes) && Beneath(t.frame, episodes) && PushFits(t.frame.rsp, true)
    ensures var m, all := Written(t, signal, restorer, restart),
      episodes + [Episode(ContextAt(t.frame.rsp), Saved(t, restart))];
      && Alike(Pushed(t.memory, t.frame.rsp, Saved(t, restart), signal, restorer), m)
      && Stacked(m, all) && Beneath(Entered(t.frame, signal, entry), all)
  {
    var saved := Saved(t, restart);
    PushPlace(t.frame.rsp);
    PushStacks(t.memory, episodes, t.frame, saved, signal, restorer);
    Overwritten(t.memory, t.frame.rsp, t.frame, saved, signal, restorer);
    AlikeStacked(Pushed(t.memory, t.frame.rsp, saved, signal, restorer), Written(t, signal, restorer, restart),
                 episodes + [Episode(ContextAt(t.frame.rsp), saved)]);
  }

  lemma PopKeeps(m: Memory, f: Frame, episodes: seq<Episode>)
    requires Stacked(m, episodes) && AtContext(f, episodes)
    ensures f.rsp + CONTEXT_SIZE <= USER_SPACE_END && SameToUser(Restored(m, f), Innermost(episodes).saved)
    ensures Stacked(m, Outer(episodes)) && Beneath(Restored(m, f), Outer(episodes))
  {
    assert episodes == Outer(episodes) + [Innermost(episodes)];
    ReturnUnwinds(m, f, Outer(episodes), Innermost(episodes));
    SanitizedSame(Innermost(episodes).saved, f.vector);
  }

  /** Memory that reads alike everywhere. */
  ghost predicate Alike(m: Memory, n: Memory) {
    forall a: Word :: Load(m, a) == Load(n, a)
  }

  lemma AlikeStacked(m: Memory, n: Memory, episodes: seq<Episode>)
    requires Stacked(m, episodes) && Alike(m, n)
    ensures Stacked(n, episodes)
  {
    forall k | 0 <= k < |episodes| ensures Holds(n, episodes[k]) {
      assert Holds(m, episodes[k]);
      assert Fetch(n, episodes[k].address, FRAME_CELLS) == Fetch(m, episodes[k].address, FRAME_CELLS);
    }
  }

  /** Writing the rewound frame over the first one is as good as having written it at once. */
  lemma Overwritten(m: Memory, rsp: Word, f: Frame, saved: Frame, signal: Word, restorer: Word)
    requires PushFits(rsp, true)
    ensures ContextAt(rsp) + 8 * FRAME_CELLS <= WORDS
    ensures Alike(Pushed(m, rsp, saved, signal, restorer),
      Store(Pushed(m, rsp, f, signal, restorer), ContextAt(rsp), Cells(saved)))
  {
    PushPlace(rsp);
    forall a: Word
      ensures Load(Pushed(m, rsp, saved, signal, restorer), a) ==
      Load(Store(Pushed(m, rsp, f, signal, restorer), ContextAt(rsp), Cells(saved)), a) {
      OverwrittenAt(m, rsp, f, saved, signal, restorer, a);
    }
  }

  lemma OverwrittenAt(m: Memory, rsp: Word, f: Frame, saved: Frame, signal: Word, restorer: Word, a: Word)
    requires PushFits(rsp, true) && ContextAt(rsp) + 8 * FRAME_CELLS <= WORDS
    ensures Load(Pushed(m, rsp, saved, signal, restorer), a) ==
      Load(Store(Pushed(m, rsp, f, signal, restorer), ContextAt(rsp), Cells(saved)), a)
  {
    PushPlace(rsp);
    var c := ContextAt(rsp);
    PushedReads(m, rsp, saved, signal, restorer);
    if k :| 0 <= k < FRAME_CELLS && IsCell(c, k, a) {
      StoreHits(Pushed(m, rsp, f, signal, restorer), c, Cells(saved), k);
      assert Fetch(Pushed(m, rsp, saved, signal, restorer), c, FRAME_CELLS)[k] == Cells(saved)[k];
    } else {
      StoreSkips(Pushed(m, rsp, f, signal, restorer), c, Cells(saved), a);
      PushedElsewhere(m, rsp, f, saved, signal, restorer, a);
    }
  }

  lemma PushedElsewhere(m: Memory, rsp: Word, f: Frame, g: Frame, signal: Word, restorer: Word, a: Word)
    requires PushFits(rsp, true) && forall k :: 0 <= k < FRAME_CELLS ==> !IsCell(ContextAt(rsp), k, a)
    ensures Load(Pushed(m, rsp, f, signal, restorer), a) == Load(Pushed(m, rsp, g, signal, restorer), a)
  {
    PushPlace(rsp);
    var c := ContextAt(rsp);
    var cf, cg := Cells(f) + [Number(signal)], Cells(g) + [Number(signal)];
    var mf, mg := Store(m, c, cf), Store(m, c, cg);
    if IsCell(c, 22, a) {
      StoreHits(m, c, cf, 22);
      StoreHits(m, c, cg, 22);
    } else {
      forall k | 0 <= k < 23 ensures !IsCell(c, k, a) { }
      StoreSkips(m, c, cf, a);
      StoreSkips(m, c, cg, a);
    }
    if IsCell(c - 8, 0, a) {
      StoreHits(mf, c - 8, [Number(restorer)], 0);
      StoreHits(mg, c - 8, [Number(restorer)], 0);
    } else {
      StoreSkips(mf, c - 8, [Number(restorer)], a);
      StoreSkips(mg, c - 8, [Number(restorer)], a);
    }
  }
}
