/** A pipe and the descriptor tables of the processes that share it: what a reader and a writer are told. */
module PipeEnds {
  import opened Base
  import opened OpenFiles
  import opened Descriptors
  import opened Rendezvous
  import opened Pipe

  type Descriptions = map<nat, Description>

  ghost predicate EndOk(m: Descriptions, i: nat, agents: map<nat, Agent>, d: nat) {
    if d in m && m[d].inode == i then d in agents && agents[d] == Open(m[d].access)
    else d in agents ==> agents[d].Waiting?
  }

  /** The pipe counts the descriptions of its inode, and nothing else but openers that wait. */
  ghost predicate Joined(m: Descriptions, i: nat, agents: map<nat, Agent>) {
    forall d {:trigger EndOk(m, i, agents, d)} :: EndOk(m, i, agents, d)
  }

  /** Some process has the pipe open, to read or to write. */
  ghost predicate Held(s: State, i: nat, asReader: bool) {
    exists pid, fd, d :: Names(s, pid, fd, d) && d in s.descriptions && s.descriptions[d].inode == i &&
      s.descriptions[d].access in (if asReader then {ReadOnly, ReadWrite} else {WriteOnly, ReadWrite})
  }

  lemma EndsAreHeld(s: State, i: nat, agents: map<nat, Agent>, asReader: bool)
    requires Counted(s, multiset{}) && Joined(s.descriptions, i, agents)
    ensures Ends(agents, asReader) == {} <==> !Held(s, i, asReader)
  {
    if d :| d in Ends(agents, asReader) {
      assert EndOk(s.descriptions, i, agents, d);
      LiveIffNamed(s, d);
      var pid, fd :| Names(s, pid, fd, d);
    }
    if Held(s, i, asReader) {
      var pid, fd, d :| Names(s, pid, fd, d) && d in s.descriptions && s.descriptions[d].inode == i &&
        IsEnd(Open(s.descriptions[d].access), asReader);
      assert EndOk(s.descriptions, i, agents, d);
      assert d in Ends(agents, asReader);
    }
  }

  lemma LosesEnd(m: Descriptions, i: nat, agents: map<nat, Agent>, d: nat)
    requires Joined(m, i, agents) && d in m && m[d].inode == i
    ensures d in agents && agents[d] == Open(m[d].access) && Joined(m - {d}, i, agents - {d})
  {
    assert EndOk(m, i, agents, d);
    var m', agents' := m - {d}, agents - {d};
    forall e ensures EndOk(m', i, agents', e) { assert EndOk(m, i, agents, e); }
  }

  lemma GainsEnd(m: Descriptions, i: nat, agents: map<nat, Agent>, d: nat, x: Description)
    requires Joined(m, i, agents) && d !in agents && x.inode == i
    ensures Joined(m[d := x], i, agents[d := Open(x.access)])
  {
    var m', agents' := m[d := x], agents[d := Open(x.access)];
    forall e ensures EndOk(m', i, agents', e) { assert EndOk(m, i, agents, e); }
  }

  /** The same openers wait, for the same. */
  ghost predicate SameWaiting(agents: map<nat, Agent>, agents': map<nat, Agent>) {
    && (forall d :: d in agents && agents[d].Waiting? ==> d in agents' && agents'[d] == agents[d])
    && (forall d :: d in agents' && agents'[d].Waiting? ==> d in agents && agents'[d] == agents[d])
  }

  /** All of `gone` but what is left has been closed. */
  ghost predicate Losing(before: Descriptions, gone: set<nat>, left: set<nat>, i: nat, agents: map<nat, Agent>,
    now: map<nat, Agent>) {
    && left <= gone && Joined(before - (gone - left), i, now)
    && SameWaiting(agents, now) && forall d :: d in now ==> d in agents
  }

  lemma LosingStep(before: Descriptions, gone: set<nat>, left: set<nat>, i: nat, agents: map<nat, Agent>,
    now: map<nat, Agent>, d: nat)
    requires Losing(before, gone, left, i, agents, now) && d in left && d in before && before[d].inode == i
    ensures d in now && now[d] == Open(before[d].access) && Losing(before, gone, left - {d}, i, agents, now - {d})
  {
    LosesEnd(before - (gone - left), i, now, d);
    assert before - (gone - left) - {d} == before - (gone - (left - {d}));
  }

  /** All of `made` but what is left has been opened. */
  ghost predicate Gaining(before: Descriptions, made: Descriptions, left: set<nat>, i: nat, agents: map<nat, Agent>,
    now: map<nat, Agent>) {
    && left <= made.Keys && Joined(before + (made - left), i, now) && SameWaiting(agents, now)
    && forall d :: d in left ==> d !in now
  }

  lemma GainingStep(before: Descriptions, made: Descriptions, left: set<nat>, i: nat, agents: map<nat, Agent>,
    now: map<nat, Agent>, d: nat)
    requires Gaining(before, made, left, i, agents, now) && d in left && made[d].inode == i
    ensures Gaining(before, made, left - {d}, i, agents, now[d := Open(made[d].access)])
  {
    GainsEnd(before + (made - left), i, now, d, made[d]);
    assert (before + (made - left))[d := made[d]] == before + (made - (left - {d}));
  }

  lemma GainingEnds(before: Descriptions, made: Descriptions, i: nat, agents: map<nat, Agent>, now: map<nat, Agent>)
    ensures Joined(before, i, now) && SameWaiting(agents, now) && (forall d :: d in made ==> d !in now) ==>
      Gaining(before, made, made.Keys, i, agents, now)
    ensures Gaining(before, made, {}, i, agents, now) ==> Joined(before + made, i, now) && SameWaiting(agents, now)
  {
    assert before + (made - made.Keys) == before && made - {} == made;
  }

  function OfInode(m: Descriptions, i: nat): Descriptions {
    map d | d in m && m[d].inode == i :: m[d]
  }

  /** The two maps have the same ends of that inode. */
  ghost predicate SameEnds(m: Descriptions, m': Descriptions, i: nat) {
    && (forall d :: d in m && m[d].inode == i ==> d in m' && m'[d].inode == i && m'[d].access == m[d].access)
    && (forall d :: d in m' && m'[d].inode == i ==> d in m && m[d].inode == i)
  }

  lemma SameEndsJoined(m: Descriptions, m': Descriptions, i: nat, agents: map<nat, Agent>)
    requires Joined(m, i, agents) && SameEnds(m, m', i)
    ensures Joined(m', i, agents)
  {
    forall d ensures EndOk(m', i, agents, d) { assert EndOk(m, i, agents, d); }
  }

  lemma SameAfter(before: Descriptions, after: Descriptions, i: nat)
    requires forall d :: d in before && d in after ==>
      after[d].inode == before[d].inode && after[d].access == before[d].access
    ensures SameEnds(before - (OfInode(before, i).Keys - after.Keys) + (OfInode(after, i) - before.Keys), after, i)
  {
  }

  /** A process asleep in `open`: what its call is for, and the arrivals it saw when it came. */
  datatype Sleeper = Sleeper(pid: nat, asReader: bool, closeOnExec: bool, entry: nat)

  ghost predicate SleeperOk(sleepers: map<nat, Sleeper>, agents: map<nat, Agent>, d: nat) {
    if d in sleepers then d in agents && agents[d] == Waiting(sleepers[d].asReader, sleepers[d].entry)
    else d in agents ==> agents[d].Open?
  }

  /** Everyone who waits is asleep in `open`. */
  ghost predicate Asleep(sleepers: map<nat, Sleeper>, agents: map<nat, Agent>) {
    forall d {:trigger SleeperOk(sleepers, agents, d)} :: SleeperOk(sleepers, agents, d)
  }

  lemma StillAsleep(sleepers: map<nat, Sleeper>, agents: map<nat, Agent>, agents': map<nat, Agent>)
    requires Asleep(sleepers, agents) && SameWaiting(agents, agents')
    ensures Asleep(sleepers, agents')
  {
    forall d ensures SleeperOk(sleepers, agents', d) { assert SleeperOk(sleepers, agents, d); }
  }

  /** An opener that has gone to sleep, and one that has left, with a description or without. */
  lemma FallsAsleep(sleepers: map<nat, Sleeper>, agents: map<nat, Agent>, id: nat, x: Sleeper)
    requires Asleep(sleepers, agents)
    ensures Asleep(sleepers[id := x], agents[id := Waiting(x.asReader, x.entry)])
    ensures Asleep(sleepers - {id}, agents - {id})
    ensures forall access :: Asleep(sleepers - {id}, (agents - {id})[id := Open(access)])
    ensures forall access :: Asleep(sleepers - {id}, agents[id := Open(access)])
  {
    forall d ensures SleeperOk(sleepers, agents, d) { }
    var s1, a1 := sleepers[id := x], agents[id := Waiting(x.asReader, x.entry)];
    forall d ensures SleeperOk(s1, a1, d) { assert SleeperOk(sleepers, agents, d); }
    var s2, a2 := sleepers - {id}, agents - {id};
    forall d ensures SleeperOk(s2, a2, d) { assert SleeperOk(sleepers, agents, d); }
    forall access ensures Asleep(s2, a2[id := Open(access)]) && Asleep(s2, agents[id := Open(access)]) {
      var a3, a4 := a2[id := Open(access)], agents[id := Open(access)];
      forall d ensures SleeperOk(s2, a3, d) && SleeperOk(s2, a4, d) { assert SleeperOk(sleepers, agents, d); }
    }
  }

  /** Somebody is asleep in an `open` of that end. */
  predicate Wanted(sleepers: map<nat, Sleeper>, asReader: bool) {
    exists d :: d in sleepers && sleepers[d].asReader == asReader
  }

  lemma PendingIsWanted(sleepers: map<nat, Sleeper>, agents: map<nat, Agent>, asReader: bool)
    requires Asleep(sleepers, agents)
    ensures Pending(agents, asReader) == {} <==> !Wanted(sleepers, asReader)
  {
    if d :| d in Pending(agents, asReader) { assert SleeperOk(sleepers, agents, d); }
    if d :| d in sleepers && sleepers[d].asReader == asReader {
      assert SleeperOk(sleepers, agents, d);
      assert d in Pending(agents, asReader);
    }
  }

  /** The access of a description for one end. */
  function AccessOf(asReader: bool): Access {
    if asReader then ReadOnly else WriteOnly
  }

  lemma WaitsJoined(m: Descriptions, i: nat, agents: map<nat, Agent>, id: nat, agent: Agent)
    requires Joined(m, i, agents) && id !in m && agent.Waiting?
    ensures Joined(m, i, agents[id := agent])
  {
    var agents' := agents[id := agent];
    forall d ensures EndOk(m, i, agents', d) { assert EndOk(m, i, agents, d); }
  }

  lemma LeavesJoined(m: Descriptions, i: nat, agents: map<nat, Agent>, id: nat)
    requires Joined(m, i, agents) && id !in m
    ensures Joined(m, i, agents - {id})
  {
    var agents' := agents - {id};
    forall d ensures EndOk(m, i, agents', d) { assert EndOk(m, i, agents, d); }
  }

  /** What an `open` of a named pipe comes to. */
  datatype Opening = Opened(fd: nat) | Failed(error: Errno) | Sleeps

  /** A system call on descriptors, an `open` of the named pipe that may sleep, or a sleeper woken up. */
  datatype Event =
    | Call(request: Request)
    | OpenEnd(pid: nat, id: nat, asReader: bool, closeOnExec: bool, signalled: bool, memory: bool)
    | Wake(id: nat, signalled: bool, memory: bool)

  class SharedPipe {
    const kernel: Kernel
    const pipe: PipeBuffer
    const inode: nat
    var sleepers: map<nat, Sleeper>

    ghost predicate Valid()
      reads this, kernel, pipe, pipe.buffer
    {
      && kernel.Valid() && pipe.Valid() && Joined(kernel.st.descriptions, inode, pipe.agents)
      && Asleep(sleepers, pipe.agents) && sleepers.Keys !! kernel.st.descriptions.Keys
    }

    /** The pipe behind an inode, with the ends its descriptions are. */
    constructor (kernel: Kernel, inode: nat)
      requires kernel.Valid()
      ensures Valid() && this.kernel == kernel && this.inode == inode && fresh(pipe) && fresh(pipe.buffer)
    {
      this.kernel, this.inode, sleepers := kernel, inode, map[];
      pipe := new PipeBuffer();
      new;
      var made := OfInode(kernel.st.descriptions, inode);
      assert Asleep(sleepers, pipe.agents) by { forall d ensures SleeperOk(sleepers, pipe.agents, d) { } }
      ghost var agents := pipe.agents;
      Gain(made, map[]);
      StillAsleep(sleepers, agents, pipe.agents);
      SameEndsJoined(map[] + made, kernel.st.descriptions, inode, pipe.agents);
    }

    /** `closed`, for each of these descriptions. */
    method Lose(gone: set<nat>, before: Descriptions)
      requires pipe.Valid() && Joined(before, inode, pipe.agents)
      requires forall d :: d in gone ==> d in before && before[d].inode == inode
      modifies pipe`gate, pipe`agents
      ensures pipe.Valid() && Joined(before - gone, inode, pipe.agents)
      ensures SameWaiting(old(pipe.agents), pipe.agents) && forall d :: d in pipe.agents ==> d in old(pipe.agents)
    {
      var left := gone;
      assert before - (gone - left) == before;
      while left != {}
        invariant pipe.Valid() && Losing(before, gone, left, inode, old(pipe.agents), pipe.agents)
        decreases |left|
      {
        var d :| d in left;
        LosingStep(before, gone, left, inode, old(pipe.agents), pipe.agents, d);
        pipe.Close(d, before[d].access);
        left := left - {d};
      }
      assert gone - left == gone;
    }

    /** `opened`, for each of these descriptions. */
    method Gain(made: Descriptions, ghost before: Descriptions)
      requires pipe.Valid() && Joined(before, inode, pipe.agents)
      requires forall d :: d in made ==> made[d].inode == inode && d !in pipe.agents
      modifies pipe`gate, pipe`agents
      ensures pipe.Valid() && Joined(before + made, inode, pipe.agents) && SameWaiting(old(pipe.agents), pipe.agents)
    {
      var left := made.Keys;
      GainingEnds(before, made, inode, pipe.agents, pipe.agents);
      while left != {}
        invariant pipe.Valid() && Gaining(before, made, left, inode, old(pipe.agents), pipe.agents)
        decreases |left|
      {
        var d :| d in left;
        GainingStep(before, made, left, inode, old(pipe.agents), pipe.agents, d);
        pipe.OpenAtOnce(d, made[d].access);
        left := left - {d};
      }
      GainingEnds(before, made, inode, old(pipe.agents), pipe.agents);
    }

    /** The request makes no description where an opener that is asleep will have its own. */
    predicate Clear(request: Request)
      reads this
    {
      match request
      case DoOpen(_, _, _, _, d, _) => d !in sleepers
      case DoPipe(_, _, d, e, _, _) => d !in sleepers && e !in sleepers
      case _ => true
    }

    /** A system call, and what the pipe hears of it. */
    method Execute(request: Request)
      requires Valid() && Clear(request)
      modifies kernel, pipe`gate, pipe`agents
      ensures Valid()
    {
      var before := kernel.st.descriptions;
      kernel.Execute(request);
      ghost var agents := pipe.agents;
      forall d | d in agents && agents[d].Waiting? ensures !MadeFor(request, d, inode) {
        assert SleeperOk(sleepers, agents, d);
      }
      Settle(before, request);
      StillAsleep(sleepers, agents, pipe.agents);
    }

    /** `open` of the named pipe, up to the first sleep if there is one. */
    method OpenEnd(pid: nat, id: nat, asReader: bool, closeOnExec: bool, signalled: bool, memory: bool)
      returns (r: Opening)
      requires Valid() && pid in kernel.st.tables && inode in kernel.st.inodes
      requires id !in kernel.st.descriptions && id !in sleepers
      modifies this`sleepers, kernel, pipe`gate, pipe`agents, pipe`met
      ensures Valid()
      ensures r == Sleeps <==> !signalled && !old(Peer(asReader))
      ensures r.Opened? ==> Names(kernel.st, pid, r.fd, id) && sleepers == old(sleepers)
      ensures r.Opened? <==> old(Peer(asReader)) && memory && !NoneFree(old(kernel.st).tables[pid], 0)
      ensures r.Failed? ==> r.error == if !old(Peer(asReader)) then EINTR else if memory then EMFILE else ENOMEM
    {
      assert EndOk(kernel.st.descriptions, inode, pipe.agents, id) && SleeperOk(sleepers, pipe.agents, id);
      ghost var agents := pipe.agents;
      PeerIsSomebody(asReader);
      var outcome, entry := pipe.Arrive(id, asReader, signalled, memory);
      var x := Sleeper(pid, asReader, closeOnExec, entry);
      FallsAsleep(sleepers, agents, id, x);
      assert sleepers - {id} == sleepers;
      match outcome
      case Blocked =>
        WaitsJoined(kernel.st.descriptions, inode, agents, id, Waiting(asReader, entry));
        sleepers := sleepers[id := x];
        return Sleeps;
      case Fail(e) => return Failed(e);
      case Done(_) =>
        assert pipe.agents - {id} == agents;
        r := Enter(id, x);
    }

    /** A sleeper in `open` woken up: it looks again. */
    method Wake(id: nat, signalled: bool, memory: bool) returns (r: Opening)
      requires Valid() && id in sleepers && sleepers[id].pid in kernel.st.tables && inode in kernel.st.inodes
      modifies this`sleepers, kernel, pipe`gate, pipe`agents, pipe`met
      ensures Valid()
      ensures r == Sleeps <==> !signalled && !old(Peer(sleepers[id].asReader)) && id !in old(pipe.met)
      ensures r.Opened? ==> Names(kernel.st, old(sleepers[id]).pid, r.fd, id)
      ensures r.Opened? <==>
        && (old(Peer(sleepers[id].asReader)) || id in old(pipe.met)) && memory
        && !NoneFree(old(kernel.st).tables[old(sleepers[id]).pid], 0)
    {
      assert EndOk(kernel.st.descriptions, inode, pipe.agents, id) && SleeperOk(sleepers, pipe.agents, id);
      var x := sleepers[id];
      ghost var agents := pipe.agents;
      PeerIsSomebody(x.asReader);
      var outcome := pipe.Meet(id, x.asReader, x.entry, signalled, memory);
      FallsAsleep(sleepers, agents, id, x);
      match outcome
      case Blocked => return Sleeps;
      case Fail(e) =>
        LeavesJoined(kernel.st.descriptions, inode, agents, id);
        sleepers := sleepers - {id};
        return Failed(e);
      case Done(_) =>
        LeavesJoined(kernel.st.descriptions, inode, agents, id);
        assert pipe.agents - {id} == agents - {id};
        sleepers := sleepers - {id};
        r := Enter(id, x);
    }

    /** Somebody has the other end open, or sleeps in an `open` of it. */
    ghost predicate Peer(asReader: bool)
      reads this, kernel
    {
      Held(kernel.st, inode, !asReader) || Wanted(sleepers, !asReader)
    }

    lemma PeerIsSomebody(asReader: bool)
      requires Valid()
      ensures Peer(asReader) <==> Somebody(pipe.agents, !asReader)
    {
      EndsAreHeld(kernel.st, inode, pipe.agents, !asReader);
      PendingIsWanted(sleepers, pipe.agents, !asReader);
      SomebodyCounts(pipe.agents, !asReader);
    }

    /** The description is made; it gets a slot, or is given up and its end closed. */
    method Enter(id: nat, x: Sleeper) returns (r: Opening)
      requires kernel.Valid() && pipe.Valid() && x.pid in kernel.st.tables && inode in kernel.st.inodes
      requires id !in kernel.st.descriptions && id in pipe.agents && pipe.agents[id] == Open(AccessOf(x.asReader))
      requires Joined(kernel.st.descriptions, inode, pipe.agents - {id}) && Asleep(sleepers, pipe.agents)
      requires id !in sleepers && sleepers.Keys !! kernel.st.descriptions.Keys
      modifies kernel, pipe`gate, pipe`agents
      ensures Valid() && r != Sleeps
      ensures r.Opened? ==> Names(kernel.st, x.pid, r.fd, id)
      ensures r.Opened? <==> !NoneFree(old(kernel.st).tables[x.pid], 0)
      ensures r.Failed? ==> r.error == EMFILE
    {
      ghost var m, agents := kernel.st.descriptions, pipe.agents;
      var fd := kernel.Open(x.pid, inode, AccessOf(x.asReader), x.closeOnExec, id, true);
      if fd.Err? {
        pipe.Close(id, AccessOf(x.asReader));
        FallsAsleep(sleepers, agents, id, x);
        assert sleepers - {id} == sleepers;
        return Failed(fd.error);
      }
      GainsEnd(m, inode, agents - {id}, id, Description(inode, AccessOf(x.asReader), 1));
      assert (agents - {id})[id := Open(AccessOf(x.asReader))] == agents;
      return Opened(fd.value);
    }

    /** The descriptions a system call has destroyed are closed and those it has made are opened. */
    method Settle(before: Descriptions, ghost request: Request)
      requires kernel.Valid() && pipe.Valid() && Joined(before, inode, pipe.agents)
      requires forall d :: d in pipe.agents && pipe.agents[d].Waiting? ==> !MadeFor(request, d, inode)
      requires var after := kernel.st.descriptions;
        && (forall d :: d in before && d in after ==>
              after[d].inode == before[d].inode && after[d].access == before[d].access)
        && (forall d :: d in after && d !in before ==> MadeFor(request, d, after[d].inode))
      modifies pipe`gate, pipe`agents
      ensures pipe.Valid() && Joined(kernel.st.descriptions, inode, pipe.agents)
      ensures SameWaiting(old(pipe.agents), pipe.agents)
    {
      var after := kernel.st.descriptions;
      var gone := OfInode(before, inode).Keys - after.Keys;
      var made := OfInode(after, inode) - before.Keys;
      forall d | d in made ensures d !in pipe.agents { assert EndOk(before, inode, pipe.agents, d); }
      Lose(gone, before);
      Gain(made, before - gone);
      SameAfter(before, after, inode);
      SameEndsJoined(before - gone + made, after, inode, pipe.agents);
    }

    /** `read` on an empty pipe is told of the end of file exactly when no process has it open for writing. */
    method Read(out: array<Byte>, length: nat, signalled: bool) returns (r: Outcome)
      requires Valid() && length <= out.Length && out != pipe.buffer
      modifies pipe`tail, pipe`taken, out
      ensures Valid()
      ensures length > 0 ==> (r == Done(0) <==> old(pipe.Contents()) == [] && !Held(kernel.st, inode, false))
      ensures r.Done? ==>
        && r.count <= length && r.count <= |old(pipe.Contents())| && out[..r.count] == old(pipe.Contents())[..r.count]
        && pipe.Contents() == old(pipe.Contents())[r.count..]
    {
      EndsAreHeld(kernel.st, inode, pipe.agents, false);
      r := pipe.Read(out, length, signalled);
    }

    /** `write` fails with EPIPE exactly when no process has the pipe open for reading or waits to. */
    method Write(data: seq<Byte>, start: nat, signalled: bool) returns (r: Outcome, written: nat)
      requires Valid() && start < |data|
      modifies pipe`head, pipe`placed, pipe.buffer
      ensures Valid() && start <= written <= |data|
      ensures pipe.Contents() == old(pipe.Contents()) + data[start..written]
      ensures r == Fail(EPIPE) <==> !Peer(false)
    {
      PeerIsSomebody(false);
      r, written := pipe.Write(data, start, signalled);
    }

    /** One event; what is made goes where nothing is, and only who sleeps is woken. */
    method Happen(event: Event)
      requires Valid()
      modifies this`sleepers, kernel, pipe`gate, pipe`agents, pipe`met
      ensures Valid()
    {
      match event
      case Call(request) =>
        if Clear(request) { Execute(request); }
      case OpenEnd(pid, id, asReader, closeOnExec, signalled, memory) =>
        if pid in kernel.st.tables && inode in kernel.st.inodes && id !in kernel.st.descriptions && id !in sleepers {
          var _ := OpenEnd(pid, id, asReader, closeOnExec, signalled, memory);
        }
      case Wake(id, signalled, memory) =>
        if id in sleepers && sleepers[id].pid in kernel.st.tables && inode in kernel.st.inodes {
          var _ := Wake(id, signalled, memory);
        }
    }

    /** Whatever happens, the pipe's ends are the descriptors the processes have. */
    method Run(events: seq<Event>)
      requires Valid()
      modifies this`sleepers, kernel, pipe`gate, pipe`agents, pipe`met
      ensures Valid() && pipe.placed == old(pipe.placed) && pipe.taken == old(pipe.taken)
      ensures pipe.gate.writers == 0 <==> !Held(kernel.st, inode, false)
      ensures pipe.gate.readers == 0 <==> !Held(kernel.st, inode, true)
      ensures pipe.gate.pendingWriters == 0 <==> !Wanted(sleepers, false)
      ensures pipe.gate.pendingReaders == 0 <==> !Wanted(sleepers, true)
    {
      for k := 0 to |events|
        invariant Valid()
      {
        Happen(events[k]);
      }
      EndsAreHeld(kernel.st, inode, pipe.agents, false);
      EndsAreHeld(kernel.st, inode, pipe.agents, true);
      PendingIsWanted(sleepers, pipe.agents, false);
      PendingIsWanted(sleepers, pipe.agents, true);
    }
  }
}
