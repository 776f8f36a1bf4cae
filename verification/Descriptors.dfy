/** The system calls on descriptor tables: what each does to the slots, and that all counts follow. */
module Descriptors {
  import opened Base
  import opened OpenFiles

  ghost predicate LowestFree(table: Table, lowest: int, fd: int) {
    && 0 <= lowest <= fd < |table| && table[fd].description.None?
    && forall k :: lowest <= k < fd ==> table[k].description.Some?
  }

  ghost predicate NoneFree(table: Table, lowest: int) {
    0 <= lowest && forall k :: lowest <= k < |table| ==> table[k].description.Some?
  }

  /** What looking for the lowest free slot gives. */
  ghost predicate Allocated(table: Table, lowest: int, r: Result<nat>) {
    match r
    case Ok(fd) => LowestFree(table, lowest, fd)
    case Err(e) => if lowest < 0 then e == EINVAL else e == EMFILE && NoneFree(table, lowest)
  }

  predicate Present(table: Table, fd: int) {
    0 <= fd < |table| && table[fd].description.Some?
  }

  /** No other process's slots changed. */
  ghost predicate OthersKept(s: State, s': State, pid: nat) {
    s'.tables.Keys == s.tables.Keys && forall p :: p in s.tables && p != pid ==> s'.tables[p] == s.tables[p]
  }

  /** The slots of one process changed, at most, and are now these. */
  ghost predicate OnlyTable(s: State, s': State, pid: nat, table: Table)
    requires pid in s.tables
  {
    OthersKept(s, s', pid) && s'.tables[pid] == table
  }

  /** The slots below `fd` are as they shall be, the rest as they were. */
  ghost predicate Upto(table: Table, goal: Table, now: Table, fd: int) {
    && |table| == |goal| == |now|
    && (forall k :: 0 <= k < fd && k < |now| ==> now[k] == goal[k])
    && (forall k :: fd <= k < |now| && 0 <= k ==> now[k] == table[k])
  }

  /** The table of a process that has nothing open. */
  function Blank(): Table {
    seq(MAX_DESCRIPTORS, _ => EMPTY)
  }

  /** The table as it is after exec. */
  function WithoutMarked(table: Table): Table {
    seq(|table|, k requires 0 <= k < |table| => if table[k].closeOnExec then EMPTY else table[k])
  }

  // --- steadiness of the basic changes

  lemma SteadyRelease(s: State, loose: multiset<nat>, d: nat)
    requires Counted(s, loose) && d in s.descriptions && s.descriptions[d].count > 0
    requires s.descriptions[d].inode in s.inodes && s.inodes[s.descriptions[d].inode].refs > 0
    ensures Steady(s, Release(s, d)) && Shrunk(s, Release(s, d))
  {
    var i := s.descriptions[d].inode;
    assert InodeOk(s, i);
    assert d in Openers(s, i);
  }

  /** Nothing new was made. */
  ghost predicate Shrunk(s: State, s': State) {
    s'.descriptions.Keys <= s.descriptions.Keys && s'.inodes.Keys <= s.inodes.Keys
  }

  lemma SteadyOn(s: State, s1: State, s2: State)
    requires Steady(s, s1) && Steady(s1, s2) && Shrunk(s1, s2)
    ensures Steady(s, s2)
  {
  }

  /** An emptied slot and its reference given up. */
  lemma CloseKeeps(s: State, loose: multiset<nat>, pid: nat, fd: nat)
    requires Counted(s, loose) && pid in s.tables && fd < |s.tables[pid]| && s.tables[pid][fd].description.Some?
    ensures var s1, d := SetSlot(s, pid, fd, EMPTY), s.tables[pid][fd].description.value;
      && d in s1.descriptions && s1.descriptions[d].count > 0
      && s1.descriptions[d].inode in s1.inodes && s1.inodes[s1.descriptions[d].inode].refs > 0
      && Counted(Release(s1, d), loose) && Steady(s, Release(s1, d)) && Shrunk(s, Release(s1, d))
      && OnlyTable(s, Release(s1, d), pid, s.tables[pid][fd := EMPTY])
  {
    var s1, d := SetSlot(s, pid, fd, EMPTY), s.tables[pid][fd].description.value;
    TakeKeeps(s, loose, pid, fd);
    assert DescriptionOk(s1, loose + multiset{d}, d) && InodeOk(s1, s1.descriptions[d].inode);
    ReleaseKeeps(s1, loose + multiset{d}, d);
    SteadyRelease(s1, loose + multiset{d}, d);
    assert loose + multiset{d} - multiset{d} == loose;
  }

  /** One more slot for a description. */
  function Share(s: State, pid: nat, fd: nat, d: nat, closeOnExec: bool): State
    requires d in s.descriptions && pid in s.tables && fd < |s.tables[pid]|
  {
    SetSlot(Ref(s, d), pid, fd, Slot(Some(d), closeOnExec))
  }

  lemma ShareKeeps(s: State, loose: multiset<nat>, pid: nat, fd: nat, d: nat, closeOnExec: bool)
    requires Counted(s, loose) && pid in s.tables && fd < |s.tables[pid]| && s.tables[pid][fd].description.None? &&
      d in s.descriptions
    ensures Counted(Share(s, pid, fd, d, closeOnExec), loose) && Steady(s, Share(s, pid, fd, d, closeOnExec))
  {
    RefKeeps(s, loose, d);
    PutKeeps(Ref(s, d), loose + multiset{d}, pid, fd, d, closeOnExec);
    assert loose + multiset{d} - multiset{d} == loose;
  }

  lemma ShareTable(s: State, pid: nat, fd: nat, d: nat, closeOnExec: bool)
    requires d in s.descriptions && pid in s.tables && fd < |s.tables[pid]|
    ensures Ref(SetSlot(s, pid, fd, Slot(Some(d), closeOnExec)), d) == Share(s, pid, fd, d, closeOnExec)
    ensures OnlyTable(s, Share(s, pid, fd, d, closeOnExec), pid, s.tables[pid][fd := Slot(Some(d), closeOnExec)])
  {
  }

  lemma Overwrite(s: State, pid: nat, fd: nat, first: Slot, second: Slot)
    requires pid in s.tables && fd < |s.tables[pid]|
    ensures SetSlot(SetSlot(s, pid, fd, first), pid, fd, second) == SetSlot(s, pid, fd, second)
  {
    assert s.tables[pid][fd := first][fd := second] == s.tables[pid][fd := second];
    assert s.tables[pid := s.tables[pid][fd := first]][pid := s.tables[pid][fd := second]] ==
      s.tables[pid := s.tables[pid][fd := second]];
  }

  /** Slots, descriptions and inodes as before. */
  ghost predicate Untouched(s: State, s': State) {
    s'.tables == s.tables && s'.descriptions == s.descriptions && s'.inodes == s.inodes
  }

  /** Two new ends in the two lowest free slots, and a pipe with one reader and one writer. */
  ghost predicate PipeMade(s: State, s': State, pid: nat, i: nat, d: nat, e: nat, ends: (nat, nat)) {
    && pid in s.tables && LowestFree(s.tables[pid], 0, ends.0)
    && LowestFree(s.tables[pid][ends.0 := Slot(Some(d), false)], 0, ends.1)
    && OnlyTable(s, s', pid, s.tables[pid][ends.0 := Slot(Some(d), false)][ends.1 := Slot(Some(e), false)])
    && s'.descriptions == s.descriptions[d := Description(i, ReadOnly, 1)][e := Description(i, WriteOnly, 1)]
    && s'.inodes == s.inodes[i := Inode(2, 0, 1, 1)]
  }

  /** A slot is to be had exactly if one from there on is free; it is the first such, and the others stay. */
  lemma FirstFree(table: Table, lowest: int, r: Result<nat>, slot: Slot)
    requires Allocated(table, lowest, r) && slot.description.Some?
    ensures r.Ok? <==> 0 <= lowest && exists k :: lowest <= k < |table| && !Present(table, k)
    ensures r.Ok? ==>
      && lowest <= r.value < |table| && !Present(table, r.value) && Present(table[r.value := slot], r.value)
      && forall k :: 0 <= k < |table| && k != r.value ==>
        table[r.value := slot][k] == table[k] && (lowest <= k < r.value ==> Present(table, k))
  {
    if r.Ok? { assert !Present(table, r.value); }
  }

  /** A pipe's read end comes first, and both descriptors are the lowest there were. */
  lemma PipeNumbers(s: State, s': State, pid: nat, i: nat, d: nat, e: nat, ends: (nat, nat))
    requires PipeMade(s, s', pid, i, d, e, ends) && d != e
    ensures ends.0 < ends.1 < |s.tables[pid]| == |s'.tables[pid]|
    ensures s'.tables[pid][ends.0].description == Some(d) && s'.tables[pid][ends.1].description == Some(e)
    ensures Reads(s'.descriptions[d].access) && !Writes(s'.descriptions[d].access)
    ensures Writes(s'.descriptions[e].access) && !Reads(s'.descriptions[e].access)
    ensures s'.descriptions[d].inode == s'.descriptions[e].inode
    ensures forall k :: 0 <= k < ends.1 ==> (Present(s.tables[pid], k) <==> k != ends.0)
  {
    var table := s.tables[pid][ends.0 := Slot(Some(d), false)];
    forall k | 0 <= k < ends.1 ensures Present(s.tables[pid], k) <==> k != ends.0 {
      assert table[k].description.Some?;
    }
  }

  /** The system calls, and the making of a process with nothing open. */
  datatype Request =
    | NewProcess(pid: nat)
    | DoOpen(pid: nat, inode: nat, access: Access, closeOnExec: bool, description: nat, memory: bool)
    | DoPipe(pid: nat, inode: nat, reader: nat, writer: nat, memory: bool, copied: bool)
    | DoDup(pid: nat, fd: int, to: int)
    | DoDupFrom(pid: nat, fd: int, lowest: int, closeOnExec: bool)
    | Mark(pid: nat, fd: int, closeOnExec: bool)
    | DoClose(pid: nat, fd: int)
    | DoFork(parent: nat, child: nat)
    | Exec(pid: nat)
    | Exit(pid: nat)

  /** The request makes a description at that address, of that inode. */
  predicate MadeFor(request: Request, d: nat, inode: nat) {
    match request
    case DoOpen(_, i, _, _, e, _) => d == e && inode == i
    case DoPipe(_, i, e, f, _, _) => (d == e || d == f) && inode == i
    case _ => false
  }

  class Kernel {
    var st: State

    ghost predicate Valid()
      reads this
    {
      Counted(st, multiset{})
    }

    constructor (inodes: map<nat, Inode>)
      requires forall i :: i in inodes ==>
        && inodes[i].refs == inodes[i].others > 0
        && inodes[i].readers == inodes[i].writers == 0
      ensures Valid() && st == State(map[], map[], inodes, multiset{}, multiset{})
    {
      st := State(map[], map[], inodes, multiset{}, multiset{});
      new;
      forall i | i in inodes ensures InodeOk(st, i) {
        assert Openers(st, i) == {} && Readers(st, i) == {} && Writers(st, i) == {};
      }
    }

    /** `allocate_descriptor`. */
    method Allocate(pid: nat, d: nat, lowest: int) returns (r: Result<nat>)
      requires pid in st.tables && |st.tables[pid]| == MAX_DESCRIPTORS
      modifies this
      ensures Allocated(old(st).tables[pid], lowest, r)
      ensures st == if r.Ok? then SetSlot(old(st), pid, r.value, Slot(Some(d), false)) else old(st)
    {
      if lowest < 0 { return Err(EINVAL); }
      var fd := lowest;
      while fd < MAX_DESCRIPTORS
        invariant lowest <= fd && st == old(st)
        invariant forall k :: lowest <= k < fd && k < MAX_DESCRIPTORS ==> st.tables[pid][k].description.Some?
      {
        if st.tables[pid][fd].description.None? {
          st := SetSlot(st, pid, fd, Slot(Some(d), false));
          return Ok(fd);
        }
        fd := fd + 1;
      }
      return Err(EMFILE);
    }

    /** `close_descriptor`; `loose` is what the calling system call holds meanwhile. */
    method Close(pid: nat, fd: int, ghost loose: multiset<nat>) returns (r: Result<()>)
      requires Counted(st, loose) && pid in st.tables
      modifies this
      ensures Counted(st, loose) && Steady(old(st), st) && Shrunk(old(st), st)
      ensures r == if Present(old(st).tables[pid], fd) then Ok(()) else Err(EBADF)
      ensures r.Ok? ==> OnlyTable(old(st), st, pid, old(st).tables[pid][fd := EMPTY])
      ensures r.Err? ==> st == old(st)
      ensures forall d :: d in loose ==> d in st.descriptions
    {
      if fd < 0 || fd >= MAX_DESCRIPTORS || st.tables[pid][fd].description.None? { return Err(EBADF); }
      var d := st.tables[pid][fd].description.value;
      CloseKeeps(st, loose, pid, fd);
      st := SetSlot(st, pid, fd, EMPTY);
      st := Release(st, d);
      return Ok(());
    }

    /** `dup`, and `F_DUPFD` with its lowest descriptor. */
    method DupFrom(pid: nat, fd: int, lowest: int, closeOnExec: bool) returns (r: Result<nat>)
      requires Valid() && pid in st.tables
      modifies this
      ensures Valid() && Steady(old(st), st) && Shrunk(old(st), st)
      ensures if !Present(old(st).tables[pid], fd) then r == Err(EBADF) else Allocated(old(st).tables[pid], lowest, r)
      ensures r.Ok? ==>
        OnlyTable(old(st), st, pid,
        old(st).tables[pid][r.value := old(st).tables[pid][fd].(closeOnExec := closeOnExec)])
      ensures r.Err? ==> st == old(st)
    {
      if fd < 0 || fd >= MAX_DESCRIPTORS || st.tables[pid][fd].description.None? { return Err(EBADF); }
      var d := st.tables[pid][fd].description.value;
      assert SlotOk(st, pid, fd);
      r := Allocate(pid, d, lowest);
      if r.Err? { return; }
      ShareTable(old(st), pid, r.value, d, false);
      ShareTable(old(st), pid, r.value, d, closeOnExec);
      ShareKeeps(old(st), multiset{}, pid, r.value, d, closeOnExec);
      st := Ref(st, d);
      if closeOnExec {
        Overwrite(Ref(old(st), d), pid, r.value, Slot(Some(d), false), Slot(Some(d), true));
        st := SetSlot(st, pid, r.value, Slot(Some(d), true));
      }
    }

    /** `dup2`. */
    method Dup2(pid: nat, fd: int, to: nat) returns (r: Result<nat>)
      requires Valid() && pid in st.tables
      modifies this
      ensures Valid() && Steady(old(st), st) && Shrunk(old(st), st)
      ensures r == if !Present(old(st).tables[pid], fd) || to >= MAX_DESCRIPTORS then Err(EBADF) else Ok(to)
      ensures r.Ok? && to != fd ==>
        OnlyTable(old(st), st, pid, old(st).tables[pid][to := old(st).tables[pid][fd].(closeOnExec := false)])
      ensures r.Err? || to == fd ==> st == old(st)
    {
      if fd < 0 || fd >= MAX_DESCRIPTORS || st.tables[pid][fd].description.None? { return Err(EBADF); }
      var d := st.tables[pid][fd].description.value;
      if to >= MAX_DESCRIPTORS { return Err(EBADF); }
      if to == fd { return Ok(to); }
      assert SlotOk(st, pid, fd) && SlotOk(st, pid, to);
      if st.tables[pid][to].description.Some? {
        var _ := Close(pid, to, multiset{});
      }
      assert SlotOk(st, pid, fd);
      ShareKeeps(st, multiset{}, pid, to, d, false);
      Reslot(old(st), st, pid, to, d);
      st := Ref(st, d);
      st := SetSlot(st, pid, to, Slot(Some(d), false));
      return Ok(to);
    }

    /** `duplicate_descriptor`, which takes a negative target to mean any. */
    method Duplicate(pid: nat, fd: int, to: int) returns (r: Result<nat>)
      requires Valid() && pid in st.tables
      modifies this
      ensures Valid() && Steady(old(st), st) && Shrunk(old(st), st)
      ensures !Present(old(st).tables[pid], fd) ==> r == Err(EBADF)
      ensures Present(old(st).tables[pid], fd) && to < 0 ==> Allocated(old(st).tables[pid], 0, r)
      ensures Present(old(st).tables[pid], fd) && to >= 0 ==> r == if to >= MAX_DESCRIPTORS then Err(EBADF) else Ok(to)
      ensures r.Ok? && to != fd ==>
        OnlyTable(old(st), st, pid, old(st).tables[pid][r.value := old(st).tables[pid][fd].(closeOnExec := false)])
      ensures r.Err? || to == fd ==> st == old(st)
    {
      if to < 0 {
        r := DupFrom(pid, fd, 0, false);
      } else {
        r := Dup2(pid, fd, to);
      }
    }

    method SetCloseOnExec(pid: nat, fd: int, closeOnExec: bool) returns (r: Result<()>)
      requires Valid() && pid in st.tables
      modifies this
      ensures Valid() && st.descriptions == old(st).descriptions && st.inodes == old(st).inodes
      ensures r == if Present(old(st).tables[pid], fd) then Ok(()) else Err(EBADF)
      ensures r.Ok? ==>
        OnlyTable(old(st), st, pid, old(st).tables[pid][fd := old(st).tables[pid][fd].(closeOnExec := closeOnExec)])
      ensures r.Err? ==> st == old(st)
    {
      if fd < 0 || fd >= MAX_DESCRIPTORS || st.tables[pid][fd].description.None? { return Err(EBADF); }
      MarkKeeps(st, multiset{}, pid, fd, closeOnExec);
      st := SetSlot(st, pid, fd, st.tables[pid][fd].(closeOnExec := closeOnExec));
      return Ok(());
    }

    /** `close_all_descriptors`, on exit. */
    method CloseAll(pid: nat)
      requires Valid() && pid in st.tables
      modifies this
      ensures Valid() && Steady(old(st), st) && Shrunk(old(st), st) && OnlyTable(old(st), st, pid, Blank())
      ensures forall fd :: 0 <= fd < MAX_DESCRIPTORS ==> st.tables[pid][fd].description.None?
    {
      for fd := 0 to MAX_DESCRIPTORS
        invariant Valid() && Steady(old(st), st) && Shrunk(old(st), st) && OthersKept(old(st), st, pid)
        invariant Upto(old(st).tables[pid], Blank(), st.tables[pid], fd)
      {
        assert SlotOk(st, pid, fd);
        if st.tables[pid][fd].description.Some? {
          var _ := Close(pid, fd, multiset{});
        }
      }
    }

    /** `close_on_exec_descriptors`. */
    method CloseMarked(pid: nat)
      requires Valid() && pid in st.tables
      modifies this
      ensures Valid() && Steady(old(st), st) && Shrunk(old(st), st)
      ensures OnlyTable(old(st), st, pid, WithoutMarked(old(st).tables[pid]))
      ensures forall fd :: 0 <= fd < MAX_DESCRIPTORS ==>
        var before, after := old(st).tables[pid][fd], st.tables[pid][fd];
        && (before.closeOnExec ==> after.description.None?)
        && (!before.closeOnExec ==> after == before)
    {
      ghost var table := st.tables[pid];
      for fd := 0 to MAX_DESCRIPTORS
        invariant Valid() && Steady(old(st), st) && Shrunk(old(st), st) && OthersKept(old(st), st, pid)
        invariant Upto(table, WithoutMarked(table), st.tables[pid], fd)
      {
        assert SlotOk(st, pid, fd);
        if st.tables[pid][fd].description.Some? && st.tables[pid][fd].closeOnExec {
          var _ := Close(pid, fd, multiset{});
        }
      }
    }

    /** The descriptor part of `fork`: the child's table is the parent's, flags and all. */
    method Fork(parent: nat, child: nat)
      requires Valid() && parent in st.tables && child !in st.tables
      modifies this
      ensures Valid() && Steady(old(st), st) && Shrunk(old(st), st)
      ensures st.tables.Keys == old(st).tables.Keys + {child} && st.tables[child] == old(st).tables[parent]
      ensures forall p :: p in old(st).tables ==> st.tables[p] == old(st).tables[p]
    {
      NewTableKeeps(st, child);
      st := st.(tables := st.tables[child := Blank()]);
      ghost var begun := st;
      for fd := 0 to MAX_DESCRIPTORS
        invariant Valid() && Forking(old(st), begun, st, parent, child, fd)
      {
        assert SlotOk(st, parent, fd);
        var entry := st.tables[parent][fd];
        if entry.description.Some? {
          ForkingStep(old(st), begun, st, parent, child, fd);
          var _ := ShareInto(child, fd, entry.description.value, entry.closeOnExec);
        }
      }
    }

    /** The body of the loop in `fork`: refer, allocate at or above `fd`, and carry the flag over. */
    method ShareInto(pid: nat, fd: nat, d: nat, closeOnExec: bool) returns (r: Result<nat>)
      requires Valid() && pid in st.tables && fd < MAX_DESCRIPTORS && st.tables[pid][fd].description.None? &&
        d in st.descriptions
      modifies this
      ensures Valid() && st == Share(old(st), pid, fd, d, closeOnExec) && Steady(old(st), st) && r == Ok(fd)
    {
      st := Ref(st, d);
      r := Allocate(pid, d, fd);
      ShareKeeps(old(st), multiset{}, pid, fd, d, closeOnExec);
      Overwrite(Ref(old(st), d), pid, fd, Slot(Some(d), false), Slot(Some(d), closeOnExec));
      st := SetSlot(st, pid, fd, st.tables[pid][fd].(closeOnExec := closeOnExec));
    }

    /** `release_description` on a reference the call holds. */
    method LetGo(d: nat, ghost loose: multiset<nat>)
      requires Counted(st, loose) && d in loose
      modifies this
      ensures Counted(st, loose - multiset{d}) && Steady(old(st), st) && Shrunk(old(st), st) &&
        st.tables == old(st).tables
    {
      ReleaseKeeps(st, loose, d);
      SteadyRelease(st, loose, d);
      st := Release(st, d);
    }

    /** `allocate_descriptor` for a reference the call holds, which becomes the slot's. */
    method Install(pid: nat, d: nat, ghost loose: multiset<nat>) returns (r: Result<nat>)
      requires Counted(st, loose) && d in loose && pid in st.tables
      modifies this
      ensures Allocated(old(st).tables[pid], 0, r)
      ensures r.Ok? ==> Counted(st, loose - multiset{d}) && st == SetSlot(old(st), pid, r.value, Slot(Some(d), false))
      ensures r.Err? ==> st == old(st)
    {
      r := Allocate(pid, d, 0);
      if r.Ok? { PutKeeps(old(st), loose, pid, r.value, d, false); }
    }

    /** Gives up a description no slot ever named: everything is as it was before. */
    method Abandon(d: nat, ghost before: State)
      requires Counted(st, multiset{d}) && Counted(before, multiset{}) && Steady(before, st) &&
        st.tables == before.tables
      modifies this
      ensures Valid() && Steady(before, st) && Untouched(before, st)
    {
      assert multiset{d} - multiset{d} == multiset{};
      LetGo(d, multiset{d});
      SteadyOn(before, old(st), st);
      TablesDetermine(before, st);
    }

    method AbandonBoth(d: nat, e: nat, ghost before: State)
      requires Counted(st, multiset{d} + multiset{e}) && Counted(before, multiset{}) && Steady(before, st) &&
        st.tables == before.tables
      modifies this
      ensures Valid() && Steady(before, st) && Untouched(before, st)
    {
      assert multiset{d} + multiset{e} - multiset{d} == multiset{e};
      LetGo(d, multiset{d} + multiset{e});
      SteadyOn(before, old(st), st);
      Abandon(e, before);
    }

    /** The end of `open`, once the inode is known; `d` is where the description would go. */
    method Open(pid: nat, i: nat, access: Access, closeOnExec: bool, d: nat, memory: bool) returns (r: Result<nat>)
      requires Valid() && pid in st.tables && i in st.inodes && d !in st.descriptions
      modifies this
      ensures Valid() && Steady(old(st), st)
      ensures if memory then Allocated(old(st).tables[pid], 0, r) else r == Err(ENOMEM)
      ensures r.Ok? ==> OnlyTable(old(st), st, pid, old(st).tables[pid][r.value := Slot(Some(d), closeOnExec)])
      ensures r.Ok? ==> st.descriptions == old(st).descriptions[d := Description(i, access, 1)]
      ensures r.Err? ==> Untouched(old(st), st)
    {
      if !memory { return Err(ENOMEM); }
      MakeKeeps(st, multiset{}, d, i, access);
      st := Make(st, d, i, access);
      assert multiset{} + multiset{d} == multiset{d} && multiset{d} - multiset{d} == multiset{};
      r := Install(pid, d, multiset{d});
      if r.Err? {
        Abandon(d, old(st));
      } else if closeOnExec {
        var _ := SetCloseOnExec(pid, r.value, true);
      }
    }

    /**
     * `pipe`. `i`, `d` and `e` are where the inode and the ends would go; `copied` says the numbers
     * reached the caller.
     */
    method Pipe(pid: nat, i: nat, d: nat, e: nat, memory: bool, copied: bool) returns (r: Result<(nat, nat)>)
      requires Valid() && pid in st.tables && i !in st.inodes && d !in st.descriptions && e !in st.descriptions &&
        d != e
      modifies this
      ensures Valid() && Steady(old(st), st)
      ensures r.Ok? ==> PipeMade(old(st), st, pid, i, d, e, r.value)
      ensures r.Err? ==> Untouched(old(st), st)
      ensures r.Err? ==> r.error == if !memory then ENOMEM else if Room(old(st).tables[pid]) then EFAULT else EMFILE
      ensures memory && copied && Room(old(st).tables[pid]) ==> r.Ok?
    {
      if !memory { return Err(ENOMEM); }
      assert multiset{} + multiset{d} + multiset{e} == multiset{d} + multiset{e};
      MakePipeKeeps(st, multiset{}, i, d, e);
      PipeSteady(st, i, d, e);
      st := MakePipe(st, i, d, e);
      r := PlaceEnds(pid, i, d, e, copied, old(st));
    }

    /** `pipe` once the inode and the ends are made. */
    method PlaceEnds(pid: nat, ghost i: nat, d: nat, e: nat, copied: bool, ghost before: State)
      returns (r: Result<(nat, nat)>)
      requires Counted(before, multiset{}) && pid in before.tables && i !in before.inodes
      requires d !in before.descriptions && e !in before.descriptions && d != e
      requires st == MakePipe(before, i, d, e) && Counted(st, multiset{d} + multiset{e}) && Steady(before, st)
      modifies this
      ensures Valid() && Steady(before, st)
      ensures r.Ok? ==> PipeMade(before, st, pid, i, d, e, r.value)
      ensures r.Err? ==> Untouched(before, st) && r.error == if Room(before.tables[pid]) then EFAULT else EMFILE
      ensures copied && Room(before.tables[pid]) ==> r.Ok?
    {
      var readFd := PlaceReader(pid, d, e);
      assert st.tables.Keys == before.tables.Keys;
      if readFd.Err? {
        AbandonBoth(d, e, before);
        NoRoom(before.tables[pid]);
        return Err(readFd.error);
      }
      r := PlaceWriter(pid, i, d, e, readFd.value, copied, before);
    }

    method PlaceReader(pid: nat, d: nat, ghost e: nat) returns (r: Result<nat>)
      requires Counted(st, multiset{d} + multiset{e}) && pid in st.tables
      modifies this
      ensures Allocated(old(st).tables[pid], 0, r)
      ensures r.Ok? ==> Counted(st, multiset{e}) && st == SetSlot(old(st), pid, r.value, Slot(Some(d), false))
      ensures r.Err? ==> st == old(st)
    {
      assert multiset{d} + multiset{e} - multiset{d} == multiset{e};
      r := Install(pid, d, multiset{d} + multiset{e});
    }

    /** With the read end in its slot. */
    method PlaceWriter(pid: nat, ghost i: nat, ghost d: nat, e: nat, readFd: nat, copied: bool, ghost before: State)
      returns (r: Result<(nat, nat)>)
      requires Counted(before, multiset{}) && pid in before.tables && i !in before.inodes
      requires d !in before.descriptions && e !in before.descriptions && d != e
      requires LowestFree(before.tables[pid], 0, readFd) && Counted(st, multiset{e}) &&
        Steady(before, MakePipe(before, i, d, e))
      requires st == SetSlot(MakePipe(before, i, d, e), pid, readFd, Slot(Some(d), false))
      modifies this
      ensures Valid() && Steady(before, st)
      ensures r.Ok? ==> PipeMade(before, st, pid, i, d, e, r.value)
      ensures r.Err? ==> Untouched(before, st) && r.error == if Room(before.tables[pid]) then EFAULT else EMFILE
      ensures copied && Room(before.tables[pid]) ==> r.Ok?
    {
      RoomLeft(before.tables[pid], readFd, d);
      r := PipeRest(pid, readFd, e, copied);
      if r.Err? {
        PipeUndone(before, i, d, e, pid, readFd, st);
      } else {
        PipeDone(before, i, d, e, pid, r.value, st);
      }
    }

    /** `pipe` from the write end on, with the read end in its slot. */
    method PipeRest(pid: nat, readFd: nat, e: nat, copied: bool) returns (r: Result<(nat, nat)>)
      requires Counted(st, multiset{e}) && pid in st.tables && Present(st.tables[pid], readFd)
      modifies this
      ensures Valid()
      ensures r.Err? ==>
        && OnlyTable(old(st), st, pid, old(st).tables[pid][readFd := EMPTY]) && Steady(old(st), st)
        && Shrunk(old(st), st)
      ensures r.Err? ==> r.error == if NoneFree(old(st).tables[pid], 0) then EMFILE else EFAULT
      ensures r.Ok? <==> copied && !NoneFree(old(st).tables[pid], 0)
      ensures r.Ok? ==>
        && r.value.0 == readFd && LowestFree(old(st).tables[pid], 0, r.value.1)
        && st == SetSlot(old(st), pid, r.value.1, Slot(Some(e), false))
    {
      assert multiset{e} - multiset{e} == multiset{};
      var writeFd := Install(pid, e, multiset{e});
      if writeFd.Err? {
        DropRead(pid, readFd, e);
        return Err(writeFd.error);
      }
      if !copied {
        DropBoth(pid, readFd, writeFd.value);
        BothDropped(old(st), pid, readFd, writeFd.value, e);
        return Err(EFAULT);
      }
      return Ok((readFd, writeFd.value));
    }

    /** The read end closed, and the write end that got no slot given up. */
    method DropRead(pid: nat, readFd: nat, e: nat)
      requires Counted(st, multiset{e}) && pid in st.tables && Present(st.tables[pid], readFd)
      modifies this
      ensures Valid() && Steady(old(st), st) && Shrunk(old(st), st)
      ensures OnlyTable(old(st), st, pid, old(st).tables[pid][readFd := EMPTY])
    {
      assert multiset{e} - multiset{e} == multiset{};
      var _ := Close(pid, readFd, multiset{e});
      ghost var half := st;
      LetGo(e, multiset{e});
      SteadyOn(old(st), half, st);
    }

    /** Both ends closed again. */
    method DropBoth(pid: nat, readFd: nat, writeFd: nat)
      requires Valid() && pid in st.tables && readFd != writeFd
      requires Present(st.tables[pid], readFd) && Present(st.tables[pid], writeFd)
      modifies this
      ensures Valid() && Steady(old(st), st) && Shrunk(old(st), st)
      ensures OnlyTable(old(st), st, pid, old(st).tables[pid][readFd := EMPTY][writeFd := EMPTY])
    {
      var _ := Close(pid, readFd, multiset{});
      ghost var half := st;
      var _ := Close(pid, writeFd, multiset{});
      SteadyOn(old(st), half, st);
    }

    /** One request; what is made goes where nothing is. */
    method Execute(request: Request)
      requires Valid()
      modifies this
      ensures Valid() && Steady(old(st), st)
      ensures forall d :: d in st.descriptions && d !in old(st).descriptions ==>
        MadeFor(request, d, st.descriptions[d].inode)
    {
      match request {
        case NewProcess(pid) =>
          if pid !in st.tables {
            NewTableKeeps(st, pid);
            st := st.(tables := st.tables[pid := Blank()]);
          }
        case DoOpen(pid, i, access, closeOnExec, d, memory) =>
          if pid in st.tables && i in st.inodes && d !in st.descriptions {
            var _ := Open(pid, i, access, closeOnExec, d, memory);
          }
        case DoPipe(pid, i, d, e, memory, copied) =>
          if pid in st.tables && i !in st.inodes && d !in st.descriptions && e !in st.descriptions && d != e {
            var _ := Pipe(pid, i, d, e, memory, copied);
          }
        case DoFork(parent, child) =>
          if parent in st.tables && child !in st.tables { Fork(parent, child); }
        case _ =>
          if request.pid in st.tables { Rearrange(request); }
      }
    }

    /** A request that makes no process, description or inode. */
    method Rearrange(request: Request)
      requires Valid() &&
        (request.DoDup? || request.DoDupFrom? || request.Mark? || request.DoClose? || request.Exec? || request.Exit?)
      requires request.pid in st.tables
      modifies this
      ensures Valid() && Steady(old(st), st) && Shrunk(old(st), st)
    {
      match request {
        case DoDup(pid, fd, to) => var _ := Duplicate(pid, fd, to);
        case DoDupFrom(pid, fd, lowest, closeOnExec) => var _ := DupFrom(pid, fd, lowest, closeOnExec);
        case Mark(pid, fd, closeOnExec) => var _ := SetCloseOnExec(pid, fd, closeOnExec);
        case DoClose(pid, fd) => var _ := Close(pid, fd, multiset{});
        case Exec(pid) => CloseMarked(pid);
        case Exit(pid) => CloseAll(pid);
        case _ => assert false;
      }
    }

    /**
     * Every run: a description is there exactly while some slot names it, has been destroyed once for
     * each time it was made but for the one still there, and every end of every pipe is counted.
     */
    method Run(requests: seq<Request>)
      requires Valid()
      modifies this
      ensures Valid()
      ensures forall d :: d in st.descriptions <==> exists pid, fd :: Names(st, pid, fd, d)
      ensures forall d :: d in st.descriptions ==> st.descriptions[d].count == |Holders(st, d)|
      ensures forall d :: st.made[d] == st.unmade[d] + (if d in st.descriptions then 1 else 0)
      ensures forall i :: i in st.inodes ==>
        && st.inodes[i].readers == |Readers(st, i)|
        && st.inodes[i].writers == |Writers(st, i)|
    {
      for k := 0 to |requests|
        invariant Valid()
      {
        Execute(requests[k]);
      }
      forall d ensures d in st.descriptions <==> exists pid, fd :: Names(st, pid, fd, d) { LiveIffNamed(st, d); }
      forall d ensures st.made[d] == st.unmade[d] + (if d in st.descriptions then 1 else 0) { assert LedgerOk(st, d); }
      forall d | d in st.descriptions
        ensures st.descriptions[d].count == |Holders(st, d)| { assert DescriptionOk(st, multiset{}, d); }
      assert forall i :: i in st.inodes ==> InodeOk(st, i);
    }
  }

  lemma RoomLeft(table: Table, fd: nat, d: nat)
    requires LowestFree(table, 0, fd)
    ensures Room(table) <==> !NoneFree(table[fd := Slot(Some(d), false)], 0)
  {
    var rest := table[fd := Slot(Some(d), false)];
    if Room(table) {
      var k, m :| 0 <= k < m < |table| && table[k].description.None? && table[m].description.None?;
      assert rest[m].description.None?;
    }
    if !NoneFree(rest, 0) {
      var m :| 0 <= m < |rest| && rest[m].description.None?;
      assert 0 <= fd < m < |table|;
    }
  }

  /** Filling a slot and emptying it again is leaving it alone. */
  lemma BothDropped(s: State, pid: nat, readFd: nat, writeFd: nat, e: nat)
    requires Counted(s, multiset{e}) && pid in s.tables && readFd < |s.tables[pid]| && writeFd < |s.tables[pid]|
    requires s.tables[pid][writeFd].description.None? && readFd != writeFd
    ensures var s1, table := SetSlot(s, pid, writeFd, Slot(Some(e), false)), s.tables[pid];
      && s1.tables[pid][readFd := EMPTY][writeFd := EMPTY] == table[readFd := EMPTY]
      && s1.descriptions == s.descriptions && s1.inodes == s.inodes && OthersKept(s, s1, pid)
  {
    assert SlotOk(s, pid, writeFd);
    var table := s.tables[pid];
    assert table[writeFd := Slot(Some(e), false)][readFd := EMPTY][writeFd := EMPTY] == table[readFd := EMPTY];
  }

  lemma PipeSteady(s: State, i: nat, d: nat, e: nat)
    requires i !in s.inodes && d !in s.descriptions && e !in s.descriptions && d != e
    ensures Steady(s, MakePipe(s, i, d, e))
  {
  }

  lemma NoRoom(table: Table)
    requires NoneFree(table, 0)
    ensures !Room(table)
  {
  }

  lemma PipeDone(s: State, i: nat, d: nat, e: nat, pid: nat, ends: (nat, nat), s': State)
    requires pid in s.tables && i !in s.inodes && d !in s.descriptions && e !in s.descriptions && d != e
    requires LowestFree(s.tables[pid], 0, ends.0) &&
      LowestFree(s.tables[pid][ends.0 := Slot(Some(d), false)], 0, ends.1)
    requires s' == SetSlot(SetSlot(MakePipe(s, i, d, e), pid, ends.0, Slot(Some(d), false)), pid, ends.1,
      Slot(Some(e), false))
    ensures PipeMade(s, s', pid, i, d, e, ends) && Steady(s, s')
  {
  }

  lemma PipeUndone(s: State, i: nat, d: nat, e: nat, pid: nat, fd: nat, s': State)
    requires Counted(s, multiset{}) && Counted(s', multiset{}) && pid in s.tables && LowestFree(s.tables[pid], 0, fd)
    requires i !in s.inodes && d !in s.descriptions && e !in s.descriptions && d != e
    requires var s1 := SetSlot(MakePipe(s, i, d, e), pid, fd, Slot(Some(d), false));
      OnlyTable(s1, s', pid, s1.tables[pid][fd := EMPTY]) && Steady(s1, s') && Shrunk(s1, s')
    ensures Untouched(s, s') && Steady(s, s')
  {
    assert SlotOk(s, pid, fd);
    assert s.tables[pid][fd := Slot(Some(d), false)][fd := EMPTY] == s.tables[pid];
    assert s'.tables == s.tables;
    SteadyOn(s, SetSlot(MakePipe(s, i, d, e), pid, fd, Slot(Some(d), false)), s');
    TablesDetermine(s, s');
  }

  /** Two free slots. */
  ghost predicate Room(table: Table) {
    exists k, m :: 0 <= k < m < |table| && table[k].description.None? && table[m].description.None?
  }

  /** Nothing was made or unmade. */
  ghost predicate Level(s: State, s': State) {
    s'.descriptions.Keys == s.descriptions.Keys && s'.inodes == s.inodes
  }

  lemma ShareLevel(s: State, s1: State, pid: nat, fd: nat, d: nat, closeOnExec: bool)
    requires Steady(s, s1) && Level(s, s1) && d in s1.descriptions && pid in s1.tables && fd < |s1.tables[pid]|
    ensures Steady(s, Share(s1, pid, fd, d, closeOnExec)) && Level(s, Share(s1, pid, fd, d, closeOnExec))
    ensures OthersKept(s1, Share(s1, pid, fd, d, closeOnExec), pid)
    ensures Share(s1, pid, fd, d, closeOnExec).tables[pid] == s1.tables[pid][fd := Slot(Some(d), closeOnExec)]
  {
  }

  /** The first slots of the child's table are the parent's; nothing else has changed. */
  ghost predicate Forking(first: State, begun: State, s: State, parent: nat, child: nat, fd: int) {
    && parent in begun.tables && child in begun.tables && parent != child
    && Steady(first, s) && Level(first, s) && OthersKept(begun, s, child)
    && Upto(Blank(), begun.tables[parent], s.tables[child], fd)
  }

  lemma ForkingStep(first: State, begun: State, s: State, parent: nat, child: nat, fd: nat)
    requires Forking(first, begun, s, parent, child, fd) && fd < |s.tables[child]|
    requires s.tables[parent][fd].description.Some? && s.tables[parent][fd].description.value in s.descriptions
    ensures var slot := s.tables[parent][fd];
      Forking(first, begun, Share(s, child, fd, slot.description.value, slot.closeOnExec), parent, child, fd + 1)
  {
    var slot := s.tables[parent][fd];
    ShareLevel(first, s, child, fd, slot.description.value, slot.closeOnExec);
  }

  lemma NewTableKeeps(s: State, pid: nat)
    requires Counted(s, multiset{}) && pid !in s.tables
    ensures Counted(s.(tables := s.tables[pid := Blank()]), multiset{})
  {
    var s' := s.(tables := s.tables[pid := Blank()]);
    forall d ensures LedgerOk(s', d) { assert LedgerOk(s, d); }
    forall p, f | p in s'.tables && 0 <= f < |s'.tables[p]| ensures SlotOk(s', p, f) {
      if p != pid { assert SlotOk(s, p, f); }
    }
    forall d | d in s'.descriptions ensures DescriptionOk(s', multiset{}, d) {
      assert DescriptionOk(s, multiset{}, d);
      assert Holders(s', d) == Holders(s, d);
    }
    forall i | i in s'.inodes ensures InodeOk(s', i) {
      assert InodeOk(s, i);
      SameOpeners(s, s', i);
    }
  }

  lemma Reslot(s: State, s1: State, pid: nat, to: nat, d: nat)
    requires pid in s.tables && to < |s.tables[pid]| && d in s1.descriptions && d in s.descriptions && Steady(s, s1) &&
      Shrunk(s, s1)
    requires s1.tables == s.tables || s1.tables == s.tables[pid := s.tables[pid][to := EMPTY]]
    ensures pid in s1.tables && to < |s1.tables[pid]|
    ensures OnlyTable(s, Share(s1, pid, to, d, false), pid, s.tables[pid][to := Slot(Some(d), false)])
    ensures Steady(s, Share(s1, pid, to, d, false)) && Shrunk(s, Share(s1, pid, to, d, false))
  {
    assert s1.tables[pid][to := Slot(Some(d), false)] == s.tables[pid][to := Slot(Some(d), false)];
  }
}
