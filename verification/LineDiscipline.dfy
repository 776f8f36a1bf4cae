/** Canonical input: a line is edited in a buffer, and only what is committed can be read. */
module LineDiscipline {
  import opened Base
  import opened Rings

  const LINE_BUFFER_SIZE: nat := 1024

  const SIGINT: nat := 2
  const SIGQUIT: nat := 3
  const SIGTSTP: nat := 20

  const NEWLINE: Byte := 10
  const RETURN: Byte := 13
  const DELETE: Byte := 127

  /** The settings that bear on input. */
  datatype Termios = Termios(
    crToNl: bool, signals: bool, canonical: bool,
    interrupt: Byte, quit: Byte, suspend: Byte, erase: Byte, kill: Byte, eof: Byte)

  // --- the editing, as a function of the bytes typed

  /** The line being typed, and everything committed so far. */
  datatype Edit = Edit(line: seq<Byte>, committed: seq<Byte>)

  function Translated(t: Termios, c: Byte): Byte {
    if t.crToNl && c == RETURN then NEWLINE else c
  }

  /** The signal a byte stands for. */
  function SignalOf(t: Termios, c: Byte): Option<nat> {
    if !t.signals then None
    else if c == t.interrupt then Some(SIGINT)
    else if c == t.quit then Some(SIGQUIT)
    else if c == t.suspend then Some(SIGTSTP)
    else None
  }

  function Committed(e: Edit, line: seq<Byte>): Edit {
    e.(line := [], committed := e.committed + line)
  }

  function Typed(t: Termios, e: Edit, byte: Byte): Edit {
    var c := Translated(t, byte);
    if SignalOf(t, c).Some? then e.(line := [])
    else if !t.canonical then e.(committed := e.committed + [c])
    else if c == t.erase || c == DELETE then (if e.line == [] then e else e.(line := e.line[..|e.line| - 1]))
    else if c == t.kill then e.(line := [])
    else if c == t.eof then Committed(e, e.line)
    else if c == NEWLINE then Committed(e, if |e.line| < LINE_BUFFER_SIZE then e.line + [NEWLINE] else e.line)
    else if |e.line| + 1 < LINE_BUFFER_SIZE then e.(line := e.line + [c])
    else e
  }

  /** An end-of-file byte on an empty line, which ends the input. */
  predicate EndsInput(t: Termios, e: Edit, byte: Byte) {
    var c := Translated(t, byte);
    SignalOf(t, c).None? && t.canonical && c != t.erase && c != DELETE && c != t.kill && c == t.eof && e.line == []
  }

  // --- the ready bytes

  /** What a push does when there is room, and when there is not. */
  function Pushed(ready: seq<Byte>, c: Byte): seq<Byte> {
    if |ready| < RING_SIZE - 1 then ready + [c] else ready
  }

  function PushedAll(ready: seq<Byte>, bytes: seq<Byte>): (r: seq<Byte>)
    ensures |ready| + |bytes| < RING_SIZE ==> r == ready + bytes
    ensures |ready| < RING_SIZE <= |ready| + |bytes| ==> |r| == RING_SIZE - 1
    decreases |bytes|
  {
    if bytes == [] then ready else PushedAll(Pushed(ready, bytes[0]), bytes[1..])
  }

  /** What was read and what can be read are what was committed, in order; if some was lost there is less of it. */
  ghost predicate Accounted(lost: bool, delivered: seq<Byte>, ready: seq<Byte>, committed: seq<Byte>) {
    if lost then |delivered| + |ready| < |committed| else delivered + ready == committed
  }

  /** Bytes are lost by a push exactly when they do not all fit. */
  lemma {:induction false} PushAccounted(lost: bool, delivered: seq<Byte>, ready: seq<Byte>, committed: seq<Byte>,
    bytes: seq<Byte>)
    requires Accounted(lost, delivered, ready, committed) && |ready| < RING_SIZE
    ensures Accounted(lost || |ready| + |bytes| >= RING_SIZE, delivered, PushedAll(ready, bytes), committed + bytes)
  {
    if |ready| + |bytes| < RING_SIZE { assert delivered + (ready + bytes) == (delivered + ready) + bytes; }
  }

  /** Bytes that move from the ready ones to the reader stay accounted for. */
  lemma TakeAccounted(lost: bool, delivered: seq<Byte>, ready: seq<Byte>, committed: seq<Byte>, count: nat)
    requires Accounted(lost, delivered, ready, committed) && count <= |ready|
    ensures Accounted(lost, delivered + ready[..count], ready[count..], committed)
  {
    assert ready[..count] + ready[count..] == ready;
    assert (delivered + ready[..count]) + ready[count..] == delivered + (ready[..count] + ready[count..]);
  }

  datatype Outcome = Done(count: nat) | Interrupted | Blocked

  class Discipline {
    var termios: Termios
    const line: array<Byte>
    var lineLength: nat
    const ready: array<Byte>
    var head: nat
    var tail: nat
    var sawEof: bool
    var hungUp: bool
    var adopts: bool
    var foreground: nat
    /** What has been read, what editing alone would make of the input, and whether a full buffer lost any of it. */
    ghost var delivered: seq<Byte>
    ghost var edit: Edit
    ghost var lost: bool

    ghost predicate Shape()
      reads this, line, ready
    {
      && line.Length == LINE_BUFFER_SIZE && ready.Length == RING_SIZE && head < RING_SIZE && tail < RING_SIZE
      && lineLength <= LINE_BUFFER_SIZE
    }

    ghost function Ready(): seq<Byte>
      requires Shape()
      reads this, line, ready
    {
      Ring(ready[..], head, tail)
    }

    ghost predicate Valid()
      reads this, line, ready
    {
      && Shape() && line != ready && lineLength < LINE_BUFFER_SIZE && edit.line == line[..lineLength]
      && Accounted(lost, delivered, Ready(), edit.committed)
    }

    constructor (termios: Termios)
      ensures Valid() && !lost && edit == Edit([], []) && delivered == [] && this.termios == termios && fresh(line) &&
        fresh(ready)
    {
      this.termios := termios;
      line := new Byte[LINE_BUFFER_SIZE](_ => 0);
      ready := new Byte[RING_SIZE](_ => 0);
      lineLength, head, tail, foreground := 0, 0, 0, 0;
      sawEof, hungUp, adopts := false, false, false;
      delivered, edit, lost := [], Edit([], []), false;
    }

    /** `push_ready`. */
    method PushReady(c: Byte)
      requires Shape() && line != ready
      modifies this`head, ready
      ensures Shape() && Ready() == Pushed(old(Ready()), c)
    {
      RingSize(ready[..], head, tail);
      var next := (head + 1) % RING_SIZE;
      if next == tail { return; }
      RingPut(ready[..], head, tail, c);
      ghost var before := ready[..];
      ready[head] := c;
      assert ready[..] == before[head := c];
      head := next;
    }

    /** `commit_line`. */
    method CommitLine()
      requires Shape() && line != ready
      modifies this`head, this`lineLength, ready
      ensures Shape() && lineLength == 0 && Ready() == PushedAll(old(Ready()), old(line[..lineLength]))
    {
      ghost var bytes := line[..lineLength];
      for i := 0 to lineLength
        invariant Shape() && line[..lineLength] == bytes
        invariant PushedAll(Ready(), bytes[i..]) == PushedAll(old(Ready()), bytes)
      {
        assert bytes[i..][1..] == bytes[i + 1..];
        PushReady(line[i]);
      }
      lineLength := 0;
    }

    /** The line goes out, and it is recorded if some of it could not. */
    method Commit(ghost committed: seq<Byte>)
      requires Shape() && line != ready && Accounted(lost, delivered, Ready(), committed)
      modifies this`head, this`lineLength, this`lost, ready
      ensures Shape() && lineLength == 0
      ensures Accounted(lost, delivered, Ready(), committed + old(line[..lineLength]))
      ensures lost <==> old(lost) || |old(Ready())| + old(lineLength) >= RING_SIZE
    {
      RingSize(ready[..], head, tail);
      PushAccounted(lost, delivered, Ready(), committed, line[..lineLength]);
      lost := lost || |Ready()| + lineLength >= RING_SIZE;
      CommitLine();
    }

    /** `feed`: the input is edited as it should be, and what it commits can be read. */
    method Feed(byte: Byte) returns (signal: Option<nat>)
      requires Valid()
      modifies this`lineLength, this`head, this`sawEof, this`edit, this`lost, line, ready
      ensures Valid() && edit == Typed(termios, old(edit), byte) && delivered == old(delivered)
      ensures signal == SignalOf(termios, Translated(termios, byte))
      ensures sawEof == (old(sawEof) || EndsInput(termios, old(edit), byte))
      ensures lost <==> old(lost) || |old(Ready())| + |edit.committed| - |old(edit).committed| >= RING_SIZE
    {
      var c := byte;
      if termios.crToNl && c == RETURN { c := NEWLINE; }
      edit := Typed(termios, edit, byte);
      if termios.signals {
        signal := None;
        if c == termios.interrupt { signal := Some(SIGINT); }
        else if c == termios.quit { signal := Some(SIGQUIT); }
        else if c == termios.suspend { signal := Some(SIGTSTP); }
        if signal.Some? {
          lineLength := 0;
          RingSize(ready[..], head, tail);
          return;
        }
      }
      signal := None;
      RingSize(ready[..], head, tail);
      if !termios.canonical {
        PushRaw(c, old(edit).committed);
        return;
      }
      FeedCanonical(c, old(edit));
    }

    /** A byte that is not edited goes out at once, and it is recorded if it could not. */
    method PushRaw(c: Byte, ghost committed: seq<Byte>)
      requires Shape() && line != ready && Accounted(lost, delivered, Ready(), committed)
      modifies this`head, this`lost, ready
      ensures Shape() && Accounted(lost, delivered, Ready(), committed + [c])
      ensures lost <==> old(lost) || |old(Ready())| + 1 >= RING_SIZE
    {
      RingSize(ready[..], head, tail);
      PushAccounted(lost, delivered, Ready(), committed, [c]);
      assert PushedAll(Ready(), [c]) == Pushed(Ready(), c);
      lost := lost || |Ready()| + 1 >= RING_SIZE;
      PushReady(c);
    }

    /** `feed` in canonical mode, once the byte is known to raise no signal. */
    method FeedCanonical(c: Byte, ghost e: Edit)
      requires Shape() && line != ready && lineLength < LINE_BUFFER_SIZE && e.line == line[..lineLength] &&
        Accounted(lost, delivered, Ready(), e.committed)
      requires termios.canonical && edit == Typed(termios, e, c) && SignalOf(termios, c).None? &&
        Translated(termios, c) == c && |Ready()| < RING_SIZE
      modifies this`lineLength, this`head, this`sawEof, this`lost, line, ready
      ensures Valid()
      ensures sawEof == (old(sawEof) || EndsInput(termios, e, c))
      ensures lost <==> old(lost) || |old(Ready())| + |edit.committed| - |e.committed| >= RING_SIZE
    {
      if c == termios.erase || c == DELETE {
        if lineLength > 0 { lineLength := lineLength - 1; }
        return;
      }
      if c == termios.kill {
        EraseLine();
        return;
      }
      if c == termios.eof {
        if lineLength == 0 { sawEof := true; }
        Commit(e.committed);
        return;
      }
      if c == NEWLINE {
        Lengthen(NEWLINE, LINE_BUFFER_SIZE);
        Commit(e.committed);
        return;
      }
      Lengthen(c, LINE_BUFFER_SIZE - 1);
    }

    method EraseLine()
      modifies this`lineLength
      ensures lineLength == 0
    {
      while lineLength > 0
        modifies this`lineLength
      {
        lineLength := lineLength - 1;
      }
    }

    /** One more byte on the line, if it is shorter than that. */
    method Lengthen(c: Byte, limit: nat)
      requires Shape() && line != ready && limit <= LINE_BUFFER_SIZE
      modifies this`lineLength, line
      ensures Shape() && Ready() == old(Ready())
      ensures line[..lineLength] == old(line[..lineLength]) + if old(lineLength) < limit then [c] else []
    {
      if lineLength < limit {
        ghost var typed := line[..lineLength];
        line[lineLength] := c;
        lineLength := lineLength + 1;
        assert line[..lineLength] == typed + [c];
      }
    }

    predicate HasInput()
      reads this
    {
      head != tail || sawEof || hungUp
    }

    /** The process may read: the terminal is nobody's, or its own group's. */
    ghost predicate MayRead(group: Option<nat>, ownerExists: bool)
      reads this
    {
      var owner := if foreground != 0 && !ownerExists then 0 else foreground;
      group.None? || owner == 0 || owner == group.value
    }

    /**
     * `read`, from one blocking point to the next. `group` is the reader's, `ownerExists` says whether the
     * foreground group still has members; `resumed` and `signalled` are for a read that has slept.
     */
    method Read(out: array<Byte>, length: nat, group: Option<nat>, ownerExists: bool, resumed: bool, signalled: bool)
      returns (r: Outcome)
      requires Valid() && length <= out.Length && out != line && out != ready
      modifies this`tail, this`sawEof, this`foreground, this`delivered, out
      ensures Valid() && edit == old(edit) && lost == old(lost)
      ensures r.Done? ==>
        && r.count <= length && r.count <= |old(Ready())|
        && out[..r.count] == old(Ready())[..r.count] && Ready() == old(Ready())[r.count..]
      ensures r.Done? ==> delivered == old(delivered) + out[..r.count]
      ensures !r.Done? ==> delivered == old(delivered) && Ready() == old(Ready())
      ensures length > 0 && !resumed && old(MayRead(group, ownerExists)) ==> (r == Blocked <==> !old(HasInput()))
      ensures length > 0 && !resumed ==>
        (r == Interrupted <==>
          group.Some? && old(foreground) != 0 && ownerExists && group.value != old(foreground))
      ensures r == Done(0) ==> length == 0 || (old(Ready()) == [] && (old(sawEof) || hungUp))
      ensures sawEof <==> old(sawEof) && !(length > 0 && r == Done(0))
      ensures old(Ready()) != [] && r.Done? ==>
        r.count == (if length < |old(Ready())| then length else |old(Ready())|) && sawEof == old(sawEof)
    {
      RingSize(ready[..], head, tail);
      assert out[..0] == [];
      if length == 0 { return Done(0); }
      if resumed {
        if signalled { return Interrupted; }
      } else {
        var allowed := Claim(group, ownerExists);
        if !allowed { return Interrupted; }
      }
      r := Serve(out, length);
    }

    /** What a reader gets once the terminal is its own: bytes, an end of file that is then spent, or sleep. */
    method Serve(out: array<Byte>, length: nat) returns (r: Outcome)
      requires Valid() && 0 < length <= out.Length && out != line && out != ready
      modifies this`tail, this`sawEof, this`delivered, out
      ensures Valid() && (r == Blocked <==> !old(HasInput())) && r != Interrupted
      ensures r.Done? ==>
        && r.count == (if length < |old(Ready())| then length else |old(Ready())|)
        && out[..r.count] == old(Ready())[..r.count] && Ready() == old(Ready())[r.count..]
        && delivered == old(delivered) + out[..r.count]
      ensures r == Blocked ==> delivered == old(delivered) && Ready() == old(Ready())
      ensures r == Done(0) ==> old(Ready()) == [] && (old(sawEof) || hungUp)
      ensures sawEof <==> old(sawEof) && r != Done(0)
    {
      RingSize(ready[..], head, tail);
      if head != tail {
        r := Take(out, length);
        return;
      }
      assert out[..0] == [];
      if sawEof {
        sawEof := false;
        return Done(0);
      }
      return if hungUp then Done(0) else Blocked;
    }

    /** Who the terminal belongs to, before anything is read from it. */
    method Claim(group: Option<nat>, ownerExists: bool) returns (allowed: bool)
      modifies this`foreground
      ensures allowed == old(MayRead(group, ownerExists))
    {
      if foreground != 0 && !ownerExists { foreground := 0; }
      if adopts && foreground == 0 && group.Some? { foreground := group.value; }
      allowed := !(group.Some? && foreground != 0 && group.value != foreground);
    }

    /** As many ready bytes as the reader has room for. */
    method Take(out: array<Byte>, length: nat) returns (r: Outcome)
      requires Valid() && 0 < length <= out.Length && out != line && out != ready && Ready() != []
      modifies this`tail, this`delivered, out
      ensures Valid() && r.Done? && r.count == if length < |old(Ready())| then length else |old(Ready())|
      ensures out[..r.count] == old(Ready())[..r.count] && Ready() == old(Ready())[r.count..] &&
        delivered == old(delivered) + out[..r.count]
    {
      ghost var whole := Ready();
      var count := CopyOut(out, length);
      TakeAccounted(lost, delivered, whole, edit.committed, count);
      delivered := delivered + out[..count];
      return Done(count);
    }

    /** The copying loop of `read`. */
    method CopyOut(out: array<Byte>, length: nat) returns (count: nat)
      requires Shape() && length <= out.Length && out != line && out != ready
      modifies this`tail, out
      ensures Shape()
      ensures count == if length < |old(Ready())| then length else |old(Ready())|
      ensures out[..count] == old(Ready())[..count] && Ready() == old(Ready())[count..]
    {
      ghost var whole, bytes := Ready(), ready[..];
      count := 0;
      while count < length && head != tail
        invariant Shape() && count <= length && count <= |whole| && ready[..] == bytes
        invariant Ring(bytes, head, tail) == whole[count..]
        invariant forall k :: 0 <= k < count ==> out[k] == whole[k]
        decreases length - count
      {
        TakeStep(bytes, head, tail, whole, count);
        out[count] := ready[tail];
        tail := (tail + 1) % RING_SIZE;
        count := count + 1;
      }
    }
  }
}
