/** Process groups and sessions: a group never spans two sessions, given one thing `setsid` does not check. */
module Sessions {
  import opened Base

  datatype Process = Process(pid: nat, parent: nat, pgid: nat, sid: nat)

  /** The process list. A pid is handed out once. */
  datatype State = State(processes: seq<Process>, nextPid: nat)

  predicate Has(s: State, i: int) {
    0 <= i < |s.processes|
  }

  ghost predicate Distinct(s: State, i: int, j: int)
    requires Has(s, i) && Has(s, j)
  {
    i != j ==> s.processes[i].pid != s.processes[j].pid
  }

  ghost predicate Known(s: State, i: int)
    requires Has(s, i)
  {
    var p := s.processes[i];
    && 0 < p.pid < s.nextPid && 0 < p.pgid < s.nextPid && 0 < p.sid < s.nextPid
    && (p.pid == p.sid ==> p.pgid == p.pid)
  }

  /** One group, one session; and a group lives in the session of the process it is named after. */
  ghost predicate Together(s: State, i: int, j: int)
    requires Has(s, i) && Has(s, j)
  {
    var p, q := s.processes[i], s.processes[j];
    && (p.pgid == q.pgid ==> p.sid == q.sid)
    && (p.pgid == q.pid ==> p.sid == q.sid)
  }

  ghost predicate Pids(s: State) {
    && (forall i, j {:trigger Distinct(s, i, j)} :: Has(s, i) && Has(s, j) ==> Distinct(s, i, j))
    && (forall i {:trigger Known(s, i)} :: Has(s, i) ==> Known(s, i))
  }

  ghost predicate Orderly(s: State) {
    Pids(s) && forall i, j {:trigger Together(s, i, j)} :: Has(s, i) && Has(s, j) ==> Together(s, i, j)
  }

  /** No other process is in a group of that name. */
  ghost predicate SoleMember(s: State, i: int)
    requires Has(s, i)
  {
    forall j :: Has(s, j) && j != i ==> s.processes[j].pgid != s.processes[i].pid
  }

  function Put(s: State, i: nat, p: Process): State
    requires Has(s, i)
  {
    s.(processes := s.processes[i := p])
  }

  // --- fork

  function Forked(s: State, parent: Process): State {
    State(s.processes + [Process(s.nextPid, parent.pid, parent.pgid, parent.sid)], s.nextPid + 1)
  }

  lemma ForkKeeps(s: State, k: nat)
    requires Orderly(s) && Has(s, k)
    ensures Orderly(Forked(s, s.processes[k]))
  {
    var s', n := Forked(s, s.processes[k]), |s.processes|;
    assert Known(s, k);
    forall i | Has(s', i) ensures Known(s', i) { if i < n { assert Known(s, i); } }
    forall i, j | Has(s', i) && Has(s', j) ensures Distinct(s', i, j) && Together(s', i, j) {
      var a, b := if i < n then i else k, if j < n then j else k;
      assert Together(s, a, b) && Together(s, a, k) && Known(s, a) && Known(s, b);
      if i < n && j < n { assert Distinct(s, i, j); }
    }
  }

  // --- setpgid

  /** Where the process with that pid is, in the order of the list. */
  function Locate(processes: seq<Process>, pid: int): (r: Option<nat>)
    ensures r.Some? ==> r.value < |processes| && processes[r.value].pid == pid
    ensures r.None? ==> forall i :: 0 <= i < |processes| ==> processes[i].pid != pid
  {
    if processes == [] then None
    else if processes[0].pid == pid then Some(0)
    else
      var rest := Locate(processes[1..], pid);
      if rest.Some? then Some(rest.value + 1) else None
  }

  function Target(s: State, caller: nat, pid: int): Option<nat> {
    if pid == 0 then Some(caller) else Locate(s.processes, pid)
  }

  ghost predicate InGroup(s: State, r: int, pgid: int, sid: nat) {
    Has(s, r) && s.processes[r].pgid == pgid && s.processes[r].sid == sid
  }

  function Wanted(target: Process, pgid: nat): nat {
    if pgid == 0 then target.pid else pgid
  }

  /** What stands in the way of moving process `k`. */
  ghost function Objection(s: State, caller: nat, k: nat, pgid: nat): Option<Errno>
    requires Has(s, caller) && Has(s, k)
  {
    var me, target := s.processes[caller], s.processes[k];
    if k != caller && target.parent != me.pid then Some(ESRCH)
    else if target.sid != me.sid || target.pid == target.sid then Some(EPERM)
    else if Wanted(target, pgid) != target.pid &&
      !(exists r :: InGroup(s, r, Wanted(target, pgid), me.sid)) then Some(EPERM)
    else None
  }

  /**
   * The caller may put process `k`, which it names by that pid, into that group: it is the caller or a
   * child of it, in its session and not the leader of one, and the group is its own or one of the session.
   */
  ghost predicate MayMove(s: State, caller: nat, k: int, pid: int, pgid: int)
    requires Has(s, caller)
  {
    && Has(s, k) && (if pid == 0 then k == caller else s.processes[k].pid == pid)
    && (k == caller || s.processes[k].parent == s.processes[caller].pid)
    && s.processes[k].sid == s.processes[caller].sid && s.processes[k].pid != s.processes[k].sid
    && (pgid == 0 || pgid == s.processes[k].pid ||
      exists r :: Has(s, r) && s.processes[r].pgid == pgid && s.processes[r].sid == s.processes[caller].sid)
  }

  lemma MoveExactly(s: State, caller: nat, pid: int, pgid: int)
    requires Pids(s) && Has(s, caller)
    ensures Refusal(s, caller, pid, pgid).None? <==>
      pid >= 0 && pgid >= 0 && exists k :: MayMove(s, caller, k, pid, pgid)
    ensures forall k :: Refusal(s, caller, pid, pgid).None? && MayMove(s, caller, k, pid, pgid) ==>
      Target(s, caller, pid) == Some(k)
  {
    forall k | pid >= 0 && pgid >= 0 && MayMove(s, caller, k, pid, pgid)
      ensures Target(s, caller, pid) == Some(k) && Refusal(s, caller, pid, pgid).None?
    {
      var t := Target(s, caller, pid).value;
      assert Distinct(s, k, t);
      if r :| Has(s, r) && s.processes[r].pgid == pgid && s.processes[r].sid == s.processes[caller].sid {
        assert InGroup(s, r, pgid, s.processes[caller].sid);
      }
    }
    if Refusal(s, caller, pid, pgid).None? {
      var k := Target(s, caller, pid).value;
      var w := Wanted(s.processes[k], pgid);
      if w != s.processes[k].pid {
        var r :| InGroup(s, r, w, s.processes[caller].sid);
        assert Has(s, r) && s.processes[r].pgid == pgid;
      }
      assert MayMove(s, caller, k, pid, pgid);
    }
  }

  lemma MoveKeeps(s: State, k: nat, pgid: nat)
    requires Orderly(s) && Has(s, k) && s.processes[k].pid != s.processes[k].sid
    requires pgid == s.processes[k].pid || exists r :: InGroup(s, r, pgid, s.processes[k].sid)
    ensures Orderly(Put(s, k, s.processes[k].(pgid := pgid)))
  {
    var s' := Put(s, k, s.processes[k].(pgid := pgid));
    var r: int := k;
    if pgid != s.processes[k].pid { r :| InGroup(s, r, pgid, s.processes[k].sid); }
    assert Known(s, k) && Known(s, r);
    forall i | Has(s', i) ensures Known(s', i) { assert Known(s, i); }
    forall i, j | Has(s', i) && Has(s', j) ensures Distinct(s', i, j) && Together(s', i, j) {
      assert Distinct(s, i, j) && Together(s, i, j) && Together(s, j, i) && Together(s, r, j) && Together(s, r, i) &&
        Together(s, i, k) && Together(s, j, k) && Distinct(s, j, k);
    }
  }

  // --- setsid

  function Started(p: Process): Process {
    p.(sid := p.pid, pgid := p.pid)
  }

  /** Starting a session keeps order exactly when nobody else is in the group the new one will be named after. */
  lemma StartExactly(s: State, k: nat)
    requires Orderly(s) && Has(s, k) && s.processes[k].pid != s.processes[k].pgid
    ensures Orderly(Put(s, k, Started(s.processes[k]))) <==> SoleMember(s, k)
  {
    var s' := Put(s, k, Started(s.processes[k]));
    assert Known(s, k);
    if SoleMember(s, k) {
      forall i | Has(s', i) ensures Known(s', i) { assert Known(s, i); }
      forall i, j | Has(s', i) && Has(s', j) ensures Distinct(s', i, j) && Together(s', i, j) {
        assert Distinct(s, i, j) && Together(s, i, j) && Distinct(s, k, j);
      }
    } else {
      var j :| Has(s, j) && j != k && s.processes[j].pgid == s.processes[k].pid;
      assert Together(s, j, k) && !Together(s', j, k);
    }
  }

  // --- the end of a process

  function Without(s: State, k: nat): State
    requires Has(s, k)
  {
    s.(processes := s.processes[..k] + s.processes[k + 1..])
  }

  lemma ReapKeeps(s: State, k: nat)
    requires Orderly(s) && Has(s, k)
    ensures Orderly(Without(s, k))
  {
    var s' := Without(s, k);
    forall i | Has(s', i) ensures Known(s', i) { assert Known(s, if i < k then i else i + 1); }
    forall i, j | Has(s', i) && Has(s', j) ensures Distinct(s', i, j) && Together(s', i, j) {
      var a, b := if i < k then i else i + 1, if j < k then j else j + 1;
      assert Distinct(s, a, b) && Together(s, a, b);
    }
  }

  // --- runs

  datatype Request =
    | ForkBy(caller: nat)
    | Regroup(caller: nat, pid: int, pgid: int)
    | Start(caller: nat)
    | Collect(process: nat)

  ghost function Refusal(s: State, caller: nat, pid: int, pgid: int): (r: Option<Errno>)
    requires Has(s, caller)
    ensures r.None? ==> pgid >= 0 && Target(s, caller, pid).Some? && Has(s, Target(s, caller, pid).value)
  {
    if pid < 0 || pgid < 0 then Some(EINVAL)
    else if Target(s, caller, pid).None? then Some(ESRCH)
    else Objection(s, caller, Target(s, caller, pid).value, pgid)
  }

  ghost function Regrouped(s: State, caller: nat, pid: int, pgid: int): State
    requires Has(s, caller)
  {
    if Refusal(s, caller, pid, pgid).Some? then s
    else
      var k := Target(s, caller, pid).value;
      Put(s, k, s.processes[k].(pgid := Wanted(s.processes[k], pgid)))
  }

  ghost predicate Leads(s: State, caller: nat)
    requires Has(s, caller)
  {
    s.processes[caller].pid == s.processes[caller].pgid
  }

  /** What a request leaves behind; only processes on the list make any. */
  ghost function After(s: State, request: Request): State {
    match request
    case ForkBy(k) => if Has(s, k) then Forked(s, s.processes[k]) else s
    case Regroup(k, pid, pgid) => if Has(s, k) then Regrouped(s, k, pid, pgid) else s
    case Start(k) => if Has(s, k) && !Leads(s, k) then Put(s, k, Started(s.processes[k])) else s
    case Collect(k) => if Has(s, k) then Without(s, k) else s
  }

  /** A new session is not named after a group that others are in. */
  ghost predicate Proper(s: State, request: Request) {
    request.Start? && Has(s, request.caller) && !Leads(s, request.caller) ==> SoleMember(s, request.caller)
  }

  lemma RequestExactly(s: State, request: Request)
    requires Orderly(s)
    ensures Orderly(After(s, request)) <==> Proper(s, request)
  {
    match request {
      case ForkBy(k) => if Has(s, k) { ForkKeeps(s, k); }
      case Regroup(k, pid, pgid) =>
        if Has(s, k) && Refusal(s, k, pid, pgid).None? {
          var j := Target(s, k, pid).value;
          MoveKeeps(s, j, Wanted(s.processes[j], pgid));
        }
      case Start(k) => if Has(s, k) && !Leads(s, k) { StartExactly(s, k); }
      case Collect(k) => if Has(s, k) { ReapKeeps(s, k); }
    }
  }

  ghost predicate Run(states: seq<State>, requests: seq<Request>) {
    && |states| == |requests| + 1 && states[0] == FIRST
    && forall i {:trigger requests[i]} :: 0 <= i < |requests| ==> states[i + 1] == After(states[i], requests[i])
  }

  /** A run from `init` stays in order throughout exactly when every session it starts is a proper one. */
  lemma {:induction false} RunExactly(states: seq<State>, requests: seq<Request>, n: nat)
    requires Run(states, requests) && n <= |requests|
    ensures (forall i :: 0 <= i <= n ==> Orderly(states[i])) <==>
      (forall i :: 0 <= i < n ==> Proper(states[i], requests[i]))
  {
    if n > 0 {
      RunExactly(states, requests, n - 1);
      assert states[n] == After(states[n - 1], requests[n - 1]);
      if Orderly(states[n - 1]) { RequestExactly(states[n - 1], requests[n - 1]); }
    }
  }

  /** `init`, the first process, leads its own group and session. */
  const FIRST := State([Process(1, 0, 1, 1)], 2)

  class ProcessList {
    var s: State

    ghost predicate Valid()
      reads this
    {
      Orderly(s)
    }

    constructor ()
      ensures Valid() && s == FIRST
    {
      s := State([Process(1, 0, 1, 1)], 2);
    }

    /** `by_pid`. */
    method Find(pid: int) returns (r: Option<nat>)
      ensures r == Locate(s.processes, pid)
    {
      var k := 0;
      while k < |s.processes|
        invariant k <= |s.processes|
        invariant Locate(s.processes, pid) ==
          match Locate(s.processes[k..], pid) case Some(i) => Some(i + k) case None => None
      {
        if s.processes[k].pid == pid { return Some(k); }
        assert s.processes[k..][1..] == s.processes[k + 1..];
        k := k + 1;
      }
      return None;
    }

    /** Some process of that session is in that group. */
    method GroupExists(pgid: nat, sid: nat) returns (found: bool)
      ensures found <==> exists r :: InGroup(s, r, pgid, sid)
    {
      var i := 0;
      while i < |s.processes|
        invariant i <= |s.processes| && forall r :: 0 <= r < i ==> !InGroup(s, r, pgid, sid)
      {
        if s.processes[i].pgid == pgid && s.processes[i].sid == sid {
          assert InGroup(s, i, pgid, sid);
          return true;
        }
        i := i + 1;
      }
      return false;
    }

    /** The part of `create` that inherits. */
    method Fork(caller: nat) returns (pid: nat)
      requires Valid() && Has(s, caller)
      modifies this
      ensures Valid() && pid == old(s).nextPid && s == After(old(s), ForkBy(caller))
      ensures forall i :: Has(old(s), i) ==> s.processes[i] == old(s).processes[i] && s.processes[i].pid != pid
      ensures |s.processes| == |old(s).processes| + 1
      ensures var p, child := old(s).processes[caller], s.processes[|old(s).processes|];
        child.pid == pid && child.parent == p.pid && child.pgid == p.pgid && child.sid == p.sid
    {
      ForkKeeps(s, caller);
      forall i | Has(s, i) ensures s.processes[i].pid < s.nextPid { assert Known(s, i); }
      pid := s.nextPid;
      var p := s.processes[caller];
      s := State(s.processes + [Process(s.nextPid, p.pid, p.pgid, p.sid)], s.nextPid + 1);
    }

    /** `set_process_group`. */
    method SetProcessGroup(caller: nat, pid: int, pgid: int) returns (r: Result<()>)
      requires Valid() && Has(s, caller)
      modifies this
      ensures Valid()
      ensures s == After(old(s), Regroup(caller, pid, pgid))
      ensures r == match old(Refusal(s, caller, pid, pgid)) case Some(error) => Err(error) case None => Ok(())
      ensures r.Ok? <==> pid >= 0 && pgid >= 0 && exists k :: MayMove(old(s), caller, k, pid, pgid)
      ensures r.Ok? ==> exists k ::
        && MayMove(old(s), caller, k, pid, pgid)
        && s == Put(old(s), k, old(s).processes[k].(pgid := if pgid == 0 then old(s).processes[k].pid else pgid))
      ensures r.Err? ==> s == old(s)
    {
      MoveExactly(s, caller, pid, pgid);
      if pid < 0 || pgid < 0 { return Err(EINVAL); }
      var k := caller;
      if pid != 0 {
        var found := Find(pid);
        if found.None? { return Err(ESRCH); }
        k := found.value;
      }
      var me, target := s.processes[caller], s.processes[k];
      if k != caller && target.parent != me.pid { return Err(ESRCH); }
      if target.sid != me.sid { return Err(EPERM); }
      if target.pid == target.sid { return Err(EPERM); }
      var wanted := if pgid == 0 then target.pid else pgid;
      if wanted != target.pid {
        var found := GroupExists(wanted, me.sid);
        if !found { return Err(EPERM); }
      }
      MoveKeeps(s, k, wanted);
      s := Put(s, k, target.(pgid := wanted));
      return Ok(());
    }

    /** `start_session`: whether order is kept is said exactly. */
    method StartSession(caller: nat) returns (r: Result<nat>)
      requires Valid() && Has(s, caller)
      modifies this
      ensures r == if old(Leads(s, caller)) then Err(EPERM) else Ok(old(s).processes[caller].pid)
      ensures s == After(old(s), Start(caller)) && (Valid() <==> Proper(old(s), Start(caller)))
      ensures var p := old(s).processes[caller];
        if p.pid == p.pgid then r == Err(EPERM) && s == old(s)
        else r == Ok(p.pid) && s == Put(old(s), caller, Process(p.pid, p.parent, p.pid, p.pid))
    {
      var p := s.processes[caller];
      if p.pid == p.pgid { return Err(EPERM); }
      StartExactly(s, caller);
      s := Put(s, caller, p.(sid := p.pid, pgid := p.pid));
      return Ok(p.pid);
    }

    /** The end of `reap_child`: the process leaves the list. */
    method Reap(k: nat)
      requires Valid() && Has(s, k)
      modifies this
      ensures Valid() && s == After(old(s), Collect(k))
    {
      ReapKeeps(s, k);
      s := Without(s, k);
    }
  }

  /**
   * The run that needs the proviso: a process makes its own group, forks into it, goes back to its
   * parent's group and starts a session. Its child is then in its group and not in its session.
   */
  method GroupSplit() returns (list: ProcessList)
    ensures list.s.processes == [Process(1, 0, 1, 1), Process(2, 1, 2, 2), Process(3, 2, 2, 1)] && !list.Valid()
  {
    list := new ProcessList();
    var two := list.Fork(0);
    var made := list.SetProcessGroup(1, 0, 0);
    assert list.s.processes[1] == Process(2, 1, 2, 1);
    var three := list.Fork(1);
    assert list.s.processes == [Process(1, 0, 1, 1), Process(2, 1, 2, 1), Process(3, 2, 2, 1)];
    assert InGroup(list.s, 0, 1, 1);
    var back := list.SetProcessGroup(1, 0, 1);
    assert list.s.processes[1] == Process(2, 1, 1, 1) && list.s.processes[2].pgid == 2;
    assert Has(list.s, 2);
    var session := list.StartSession(1);
  }
}
