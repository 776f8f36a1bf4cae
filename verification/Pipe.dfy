/**
 * The pipe: a ring of bytes and the counters of its ends. What the code does between two blocking
 * points is one method; a method that would sleep returns `Blocked`.
 */
module Pipe {
  import opened Base
  import opened OpenFiles
  import opened Rendezvous
  import opened Rings

  datatype Outcome = Done(count: nat) | Fail(error: Errno) | Blocked

  class PipeBuffer {
    const buffer: array<Byte>
    var head: nat
    var tail: nat
    var gate: Gate
    /** Everyone who waits or holds an end, and the waiting whose peer has come since. */
    ghost var agents: map<nat, Agent>
    ghost var met: set<nat>
    /** Every byte ever written, and every byte ever read. */
    ghost var placed: seq<Byte>
    ghost var taken: seq<Byte>

    ghost predicate RingOk()
      reads this, buffer
    {
      buffer.Length == RING_SIZE && head < RING_SIZE && tail < RING_SIZE
    }

    ghost function Contents(): seq<Byte>
      requires RingOk()
      reads this, buffer
    {
      Ring(buffer[..], head, tail)
    }

    ghost predicate Valid()
      reads this, buffer
    {
      RingOk() && GateOk(gate, agents, met) && placed == taken + Contents()
    }

    constructor ()
      ensures Valid() && agents == map[] && placed == [] && taken == [] && fresh(buffer)
    {
      buffer := new Byte[RING_SIZE](_ => 0);
      head, tail := 0, 0;
      gate := Gate(0, 0, 0, 0, 0, 0);
      agents, met, placed, taken := map[], {}, [], [];
    }

    function Used(): (k: nat)
      reads this
      requires head < RING_SIZE && tail < RING_SIZE
      ensures k == Distance(head, tail)
    {
      DistanceIsMod(head, tail);
      (head + RING_SIZE - tail) % RING_SIZE
    }

    function Available(): nat
      reads this
      requires head < RING_SIZE && tail < RING_SIZE
    {
      RING_SIZE - 1 - Used()
    }

    /** `read`, from one blocking point to the next. */
    method Read(out: array<Byte>, length: nat, signalled: bool) returns (r: Outcome)
      requires Valid() && length <= out.Length && out != buffer
      modifies this`tail, this`taken, out
      ensures Valid() && placed == old(placed)
      ensures r == if length == 0 then Done(0)
                   else if old(Contents()) == []
                     then (if Ends(agents, false) == {} then Done(0) else if signalled then Fail(EINTR) else Blocked)
                   else Done(if length < |old(Contents())| then length else |old(Contents())|)
      ensures r.Done? ==>
        && r.count <= |old(Contents())| && out[..r.count] == old(Contents())[..r.count]
        && Contents() == old(Contents())[r.count..]
      ensures !r.Done? ==> Contents() == old(Contents()) && out[..] == old(out[..])
    {
      RingSize(buffer[..], head, tail);
      if length == 0 { return Done(0); }
      if Used() == 0 {
        if gate.writers == 0 { return Done(0); }
        if signalled { return Fail(EINTR); }
        return Blocked;
      }
      var count := CopyOut(out, length);
      taken := taken + old(Contents())[..count];
      return Done(count);
    }

    /** The copying loop of `read`. */
    method CopyOut(out: array<Byte>, length: nat) returns (count: nat)
      requires RingOk() && length <= out.Length && out != buffer
      modifies this`tail, out
      ensures RingOk()
      ensures count == if length < |old(Contents())| then length else |old(Contents())|
      ensures out[..count] == old(Contents())[..count] && Contents() == old(Contents())[count..]
    {
      ghost var whole, bytes := Contents(), buffer[..];
      count := 0;
      while count < length && Used() > 0
        invariant RingOk() && count <= length && count <= |whole| && buffer[..] == bytes
        invariant Ring(bytes, head, tail) == whole[count..]
        invariant forall k :: 0 <= k < count ==> out[k] == whole[k]
      {
        TakeStep(bytes, head, tail, whole, count);
        out[count] := buffer[tail];
        tail := (tail + 1) % RING_SIZE;
        count := count + 1;
      }
      RingSize(buffer[..], head, tail);
    }

    /** The copying loop of `write`: as much as fits. */
    method CopyIn(data: seq<Byte>, start: nat) returns (written: nat)
      requires RingOk() && start <= |data|
      modifies this`head, buffer
      ensures RingOk()
      ensures start <= written <= |data| && Contents() == old(Contents()) + data[start..written]
      ensures written == |data| || |Contents()| == RING_SIZE - 1
    {
      ghost var whole := Contents();
      written := start;
      while written < |data| && Available() > 0
        invariant RingOk() && start <= written <= |data| && Contents() == whole + data[start..written]
      {
        PutByte(data[written]);
        SliceGrows(data, start, written);
        written := written + 1;
      }
      RingSize(buffer[..], head, tail);
    }

    method PutByte(b: Byte)
      requires RingOk() && Available() > 0
      modifies this`head, buffer
      ensures RingOk() && Contents() == old(Contents()) + [b]
    {
      ghost var bytes := buffer[..];
      RingPut(bytes, head, tail, b);
      buffer[head] := b;
      assert buffer[..] == bytes[head := b];
      head := (head + 1) % RING_SIZE;
    }

    /** `write`, from one blocking point to the next, with `start` bytes already written by this call. */
    method Write(data: seq<Byte>, start: nat, signalled: bool) returns (r: Outcome, written: nat)
      requires Valid() && start <= |data|
      modifies this`head, this`placed, buffer
      ensures Valid() && taken == old(taken)
      ensures start <= written <= |data| && Contents() == old(Contents()) + data[start..written]
      ensures start < |data| ==> (r == Fail(EPIPE) <==> !Somebody(agents, true))
      ensures r == Fail(EPIPE) ==> written == start
      ensures r.Done? ==>
        && r.count == written
        && (written == |data| || (signalled && written > 0 && |Contents()| == RING_SIZE - 1))
      ensures r.Fail? && r.error != EPIPE ==>
        && r.error == EINTR && signalled && written == 0 < |data|
        && |Contents()| == RING_SIZE - 1
      ensures r.Blocked? ==> !signalled && written < |data| && |Contents()| == RING_SIZE - 1
    {
      SomebodyCounts(agents, true);
      written := start;
      assert data[start..start] == [];
      while written < |data|
        invariant Valid() && taken == old(taken) && start <= written <= |data|
        invariant Contents() == old(Contents()) + data[start..written] && (written > start ==> Somebody(agents, true))
      {
        RingSize(buffer[..], head, tail);
        if gate.readers + gate.pendingReaders == 0 { return Fail(EPIPE), written; }
        if Available() == 0 {
          if signalled {
            return if written > 0 then Done(written) else Fail(EINTR), written;
          }
          return Blocked, written;
        }
        written := Fill(data, start, written, old(Contents()));
      }
      return Done(written), written;
    }

    /** One filling of the buffer, with the record of what was placed. */
    method Fill(data: seq<Byte>, ghost start: nat, written: nat, ghost first: seq<Byte>) returns (next: nat)
      requires Valid() && start <= written < |data| && Contents() == first + data[start..written] && Available() > 0
      modifies this`head, this`placed, buffer
      ensures Valid() && written < next <= |data| && Contents() == first + data[start..next]
    {
      RingSize(buffer[..], head, tail);
      next := CopyIn(data, written);
      placed := placed + data[written..next];
      SliceJoin(data, start, written, next);
    }

    /** A description made without waiting: both ends at once, `O_NONBLOCK`, or a pipe without a name. */
    method OpenAtOnce(ghost id: nat, access: Access)
      requires Valid() && id !in agents
      modifies this`gate, this`agents
      ensures Valid() && agents == old(agents)[id := Open(access)]
    {
      OpenedKeeps(gate, agents, met, id, access);
      gate := Plus(gate, Open(access));
      agents := agents[id := Open(access)];
    }

    /** `closed`: one description less. Its guards against going below zero never bite. */
    method Close(ghost id: nat, access: Access)
      requires Valid() && id in agents && agents[id] == Open(access)
      modifies this`gate, this`agents
      ensures Valid() && agents == old(agents) - {id}
    {
      LessKeeps(gate, agents, met, id);
      assert WaiterOk(gate, agents, met, id);
      assert met - {id} == met;
      gate := Less(gate, Open(access));
      agents := agents - {id};
    }

    /** One turn of the loop in `await_peer`, and the description if it ends well. */
    method Meet(ghost id: nat, asReader: bool, entry: nat, signalled: bool, memory: bool) returns (r: Outcome)
      requires Valid() && id in agents && agents[id] == Waiting(asReader, entry)
      modifies this`gate, this`agents, this`met
      ensures Valid()
      ensures r == if Somebody(old(agents), !asReader) || id in old(met) then (if memory then Done(0) else Fail(ENOMEM))
                   else if signalled then Fail(EINTR) else Blocked
      ensures agents == match r
                        case Done(_) => (old(agents) - {id})[id := Open(if asReader then ReadOnly else WriteOnly)]
                        case Fail(_) => old(agents) - {id}
                        case Blocked => old(agents)
      ensures forall a :: a in met <==> a in old(met) && (r.Blocked? || a != id)
    {
      MayEnterExactly(gate, agents, met, id);
      LessKeeps(gate, agents, met, id);
      if MayEnter(gate, asReader, entry) {
        gate := Less(gate, Waiting(asReader, entry));
        agents, met := agents - {id}, met - {id};
        if !memory { return Fail(ENOMEM); }
        OpenAtOnce(id, if asReader then ReadOnly else WriteOnly);
        return Done(0);
      }
      if signalled {
        gate := Less(gate, Waiting(asReader, entry));
        agents, met := agents - {id}, met - {id};
        return Fail(EINTR);
      }
      return Blocked;
    }

    /** Opening one end of a named pipe, up to the first sleep if there is one. */
    method Arrive(ghost id: nat, asReader: bool, signalled: bool, memory: bool) returns (r: Outcome, entry: nat)
      requires Valid() && id !in agents
      modifies this`gate, this`agents, this`met
      ensures Valid()
      ensures r == if Somebody(old(agents), !asReader) then (if memory then Done(0) else Fail(ENOMEM))
                   else if signalled then Fail(EINTR) else Blocked
      ensures agents == match r
                        case Done(_) => old(agents)[id := Open(if asReader then ReadOnly else WriteOnly)]
                        case Fail(_) => old(agents)
                        case Blocked => old(agents)[id := Waiting(asReader, entry)]
      ensures forall a :: a in met <==> a in old(met) || (a in old(agents) && IsPending(old(agents)[a], !asReader))
    {
      entry := Announce(id, asReader);
      assert agents - {id} == old(agents);
      Bystander(old(agents), id, Waiting(asReader, entry), !asReader);
      r := Meet(id, asReader, entry, signalled, memory);
    }

    /** Counting oneself in, and waking those who wait for such an arrival. */
    method Announce(ghost id: nat, asReader: bool) returns (entry: nat)
      requires Valid() && id !in agents
      modifies this`gate, this`agents, this`met
      ensures Valid() && agents == old(agents)[id := Waiting(asReader, entry)] && id !in met
      ensures met == old(met) + Pending(old(agents), !asReader)
    {
      entry := ArrivalsFor(gate, asReader);
      AnnouncedKeeps(gate, agents, met, id, asReader);
      gate := Announced(gate, asReader);
      met := met + Pending(agents, !asReader);
      agents := agents[id := Waiting(asReader, entry)];
    }

    predicate CanRead()
      reads this
      requires head < RING_SIZE && tail < RING_SIZE
    {
      Used() > 0 || gate.writers == 0
    }

    predicate CanWrite()
      reads this
      requires head < RING_SIZE && tail < RING_SIZE
    {
      Available() > 0 || gate.readers == 0
    }

    /**
     * Poll tells a reader exactly when `Read` would sleep. It tells a writer so except in one case: the
     * buffer is full and the only readers are still opening, when it promises what `Write` will not keep.
     */
    lemma PollAgrees()
      requires Valid()
      ensures CanRead() <==> !(Contents() == [] && Ends(agents, false) != {})
      ensures CanWrite() <==>
        || !(|Contents()| == RING_SIZE - 1 && Somebody(agents, true))
        || (|Contents()| == RING_SIZE - 1 && Ends(agents, true) == {} && Pending(agents, true) != {})
    {
      RingSize(buffer[..], head, tail);
      SomebodyCounts(agents, true);
    }
  }

  /**
   * A reader waits to open a named pipe and a writer opens it and fills the buffer, all before the
   * reader runs again: poll says the pipe can be written, and a write of one byte sleeps.
   */
  method PollPromises(b: Byte) returns (ready: bool, r: Outcome)
    ensures ready && r == Blocked
  {
    var pipe := new PipeBuffer();
    var reader, entry := pipe.Arrive(0, true, false, true);
    assert !Somebody(map[], false);
    assert reader == Blocked && IsPending(pipe.agents[0], true);
    var writer, _ := pipe.Arrive(1, false, false, true);
    assert 0 in Pending(pipe.agents, true) && Ends(pipe.agents, true) == {};
    assert Somebody(pipe.agents, true);
    var filled, written := pipe.Write(seq(RING_SIZE - 1, _ => b), 0, false);
    pipe.PollAgrees();
    ready := pipe.CanWrite();
    r, written := pipe.Write([b], 0, false);
  }
}
