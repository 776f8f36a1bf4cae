/**
 * The meeting of openers at a named pipe. An opener announces itself, then sleeps until a peer is
 * there or has come and gone. What the code does between two sleeps is one step; leaving
 * `await_peer` and making the description is one step too.
 */
module Rendezvous {
  import opened Base
  import opened OpenFiles

  /** An opener asleep in `await_peer`, with the arrivals it saw on entry, or a description. */
  datatype Agent = Waiting(asReader: bool, entry: nat) | Open(access: Access)

  /** The counters of a pipe. */
  datatype Gate = Gate(
    readers: nat,
    writers: nat,
    pendingReaders: nat,
    pendingWriters: nat,
    readerArrivals: nat,
    writerArrivals: nat)

  predicate IsPending(agent: Agent, asReader: bool) {
    agent.Waiting? && agent.asReader == asReader
  }

  predicate IsEnd(agent: Agent, asReader: bool) {
    agent.Open? && (if asReader then Reads(agent.access) else Writes(agent.access))
  }

  ghost function Pending(agents: map<nat, Agent>, asReader: bool): set<nat> {
    set a | a in agents && IsPending(agents[a], asReader)
  }

  ghost function Ends(agents: map<nat, Agent>, asReader: bool): set<nat> {
    set a | a in agents && IsEnd(agents[a], asReader)
  }

  /** Somebody waits to open that end, or has it open. */
  ghost predicate Somebody(agents: map<nat, Agent>, asReader: bool) {
    exists a :: a in agents && (IsPending(agents[a], asReader) || IsEnd(agents[a], asReader))
  }

  lemma SomebodyCounts(agents: map<nat, Agent>, asReader: bool)
    ensures Somebody(agents, asReader) <==> |Pending(agents, asReader)| + |Ends(agents, asReader)| > 0
  {
    if a :| a in agents && (IsPending(agents[a], asReader) || IsEnd(agents[a], asReader)) {
      assert a in Pending(agents, asReader) || a in Ends(agents, asReader);
    }
    if |Pending(agents, asReader)| > 0 { var a :| a in Pending(agents, asReader); }
    if |Ends(agents, asReader)| > 0 { var a :| a in Ends(agents, asReader); }
  }

  lemma PendingAdded(agents: map<nat, Agent>, id: nat, agent: Agent, asReader: bool)
    requires id !in agents
    ensures |Pending(agents[id := agent], asReader)| == |Pending(agents, asReader)| + (if IsPending(agent, asReader)
      then 1 else 0)
  {
    var before, after := Pending(agents, asReader), Pending(agents[id := agent], asReader);
    assert id !in before;
    assert after == if IsPending(agent, asReader) then before + {id} else before;
  }

  lemma EndsAdded(agents: map<nat, Agent>, id: nat, agent: Agent, asReader: bool)
    requires id !in agents
    ensures |Ends(agents[id := agent], asReader)| == |Ends(agents, asReader)| + (if IsEnd(agent, asReader) then 1
      else 0)
  {
    var before, after := Ends(agents, asReader), Ends(agents[id := agent], asReader);
    assert id !in before;
    assert after == if IsEnd(agent, asReader) then before + {id} else before;
  }

  // --- the invariant

  /** The four counts are the sizes of four sets. */
  ghost predicate CountsOk(g: Gate, agents: map<nat, Agent>) {
    && g.pendingReaders == |Pending(agents, true)| && g.pendingWriters == |Pending(agents, false)|
    && g.readers == |Ends(agents, true)| && g.writers == |Ends(agents, false)|
  }

  function ArrivalsFor(g: Gate, asReader: bool): nat {
    if asReader then g.writerArrivals else g.readerArrivals
  }

  /** A waiting opener has been met exactly when the arrivals have moved since it came. */
  ghost predicate WaiterOk(g: Gate, agents: map<nat, Agent>, met: set<nat>, a: nat)
    requires a in agents
  {
    if agents[a].Waiting? then
      var arrivals := ArrivalsFor(g, agents[a].asReader);
      agents[a].entry <= arrivals && (a in met <==> agents[a].entry < arrivals)
    else a !in met
  }

  /** `met`: the waiting openers whose peer has come since they did, even if it has gone again. */
  ghost predicate GateOk(g: Gate, agents: map<nat, Agent>, met: set<nat>) {
    && CountsOk(g, agents) && met <= agents.Keys
    && forall a {:trigger WaiterOk(g, agents, met, a)} :: a in agents ==> WaiterOk(g, agents, met, a)
  }

  // --- the steps

  function Plus(g: Gate, agent: Agent): Gate {
    match agent
    case Waiting(asReader, _) => if asReader then g.(pendingReaders := g.pendingReaders + 1)
      else g.(pendingWriters := g.pendingWriters + 1)
    case Open(access) =>
      g.(readers := if Reads(access) then g.readers + 1 else g.readers, writers := if Writes(access) then g.writers + 1
        else g.writers)
  }

  /** One agent more, one count more. */
  lemma PlusCounts(g: Gate, agents: map<nat, Agent>, id: nat, agent: Agent)
    requires CountsOk(g, agents) && id !in agents
    ensures CountsOk(Plus(g, agent), agents[id := agent])
  {
    PendingAdded(agents, id, agent, true);
    PendingAdded(agents, id, agent, false);
    EndsAdded(agents, id, agent, true);
    EndsAdded(agents, id, agent, false);
  }

  /** `opened`. */
  lemma OpenedKeeps(g: Gate, agents: map<nat, Agent>, met: set<nat>, id: nat, access: Access)
    requires GateOk(g, agents, met) && id !in agents
    ensures GateOk(Plus(g, Open(access)), agents[id := Open(access)], met)
  {
    var g', agents' := Plus(g, Open(access)), agents[id := Open(access)];
    PlusCounts(g, agents, id, Open(access));
    forall a | a in agents' ensures WaiterOk(g', agents', met, a) {
      if a != id { assert WaiterOk(g, agents, met, a); }
    }
  }

  /** `closed`, with its guards, and the end of waiting. */
  function Less(g: Gate, agent: Agent): Gate
    requires agent.Waiting? ==> (if agent.asReader then g.pendingReaders else g.pendingWriters) > 0
  {
    match agent
    case Waiting(asReader, _) => if asReader then g.(pendingReaders := g.pendingReaders - 1)
      else g.(pendingWriters := g.pendingWriters - 1)
    case Open(access) =>
      g.(readers := if Reads(access) && g.readers > 0 then g.readers - 1 else g.readers,
         writers := if Writes(access) && g.writers > 0 then g.writers - 1 else g.writers)
  }

  lemma LessKeeps(g: Gate, agents: map<nat, Agent>, met: set<nat>, id: nat)
    requires GateOk(g, agents, met) && id in agents
    ensures agents[id].Waiting? ==> (if agents[id].asReader then g.pendingReaders else g.pendingWriters) > 0
    ensures GateOk(Less(g, agents[id]), agents - {id}, met - {id})
  {
    var agents', met' := agents - {id}, met - {id};
    var agent := agents[id];
    assert agents'[id := agent] == agents;
    PendingAdded(agents', id, agent, true);
    PendingAdded(agents', id, agent, false);
    EndsAdded(agents', id, agent, true);
    EndsAdded(agents', id, agent, false);
    forall a | a in agents' ensures WaiterOk(Less(g, agent), agents', met', a) {
      assert WaiterOk(g, agents, met, a);
    }
  }

  /** The announcement: pending, and arrived. */
  function Announced(g: Gate, asReader: bool): Gate {
    var g' := Plus(g, Waiting(asReader, ArrivalsFor(g, asReader)));
    if asReader then g'.(readerArrivals := g.readerArrivals + 1) else g'.(writerArrivals := g.writerArrivals + 1)
  }

  /** Whoever waits for this kind of opener has now been met. */
  lemma AnnouncedKeeps(g: Gate, agents: map<nat, Agent>, met: set<nat>, id: nat, asReader: bool)
    requires GateOk(g, agents, met) && id !in agents
    ensures GateOk(Announced(g, asReader), agents[id := Waiting(asReader, ArrivalsFor(g, asReader))],
      met + Pending(agents, !asReader))
    ensures id !in met + Pending(agents, !asReader) &&
      agents[id := Waiting(asReader, ArrivalsFor(g, asReader))] - {id} == agents
  {
    var agent := Waiting(asReader, ArrivalsFor(g, asReader));
    var g', agents', met' := Announced(g, asReader), agents[id := agent], met + Pending(agents, !asReader);
    PlusCounts(g, agents, id, agent);
    forall a | a in agents' ensures WaiterOk(g', agents', met', a) {
      if a != id { assert WaiterOk(g, agents, met, a); }
    }
  }

  /** One more agent that is not of that kind makes no difference to whether somebody is. */
  lemma Bystander(agents: map<nat, Agent>, id: nat, agent: Agent, asReader: bool)
    requires id !in agents && !IsPending(agent, asReader) && !IsEnd(agent, asReader)
    ensures Somebody(agents[id := agent], asReader) <==> Somebody(agents, asReader)
  {
    PendingAdded(agents, id, agent, asReader);
    EndsAdded(agents, id, agent, asReader);
    SomebodyCounts(agents, asReader);
    SomebodyCounts(agents[id := agent], asReader);
  }

  /** The test in the loop of `await_peer`. */
  predicate MayEnter(g: Gate, asReader: bool, entry: nat) {
    (if asReader then g.writers + g.pendingWriters else g.readers + g.pendingReaders) > 0 ||
      ArrivalsFor(g, asReader) != entry
  }

  /** It succeeds exactly when a peer is there, or came and went. */
  lemma MayEnterExactly(g: Gate, agents: map<nat, Agent>, met: set<nat>, id: nat)
    requires GateOk(g, agents, met) && id in agents && agents[id].Waiting?
    ensures MayEnter(g, agents[id].asReader, agents[id].entry) <==> Somebody(agents, !agents[id].asReader) || id in met
  {
    assert WaiterOk(g, agents, met, id);
    SomebodyCounts(agents, !agents[id].asReader);
  }

  /** No two openers sleep waiting for each other: each would find the other there. */
  lemma NoStandoff(g: Gate, agents: map<nat, Agent>, met: set<nat>, a: nat, b: nat)
    requires GateOk(g, agents, met) && a in agents && b in agents && IsPending(agents[a], true) &&
      IsPending(agents[b], false)
    ensures MayEnter(g, true, agents[a].entry) && MayEnter(g, false, agents[b].entry)
  {
    assert a in Pending(agents, true) && b in Pending(agents, false);
  }
}
