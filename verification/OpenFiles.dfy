/**
 * Descriptor slots, open file descriptions and inodes: three levels, each counting the one above.
 * `loose` are the references to a description that a system call holds and no slot names yet.
 */
module OpenFiles {
  import opened Base

  const MAX_DESCRIPTORS: nat := 64

  datatype Access = ReadOnly | WriteOnly | ReadWrite

  predicate Reads(access: Access) { access != WriteOnly }
  predicate Writes(access: Access) { access != ReadOnly }

  datatype Slot = Slot(description: Option<nat>, closeOnExec: bool)

  const EMPTY: Slot := Slot(None, false)

  type Table = seq<Slot>

  datatype Description = Description(inode: nat, access: Access, count: nat)

  /**
   * `others` are references not held by a description: directory entries, working directories, mounts.
   * `readers` and `writers` mean something only for a pipe.
   */
  datatype Inode = Inode(refs: nat, others: nat, readers: nat, writers: nat)

  /** `made` and `unmade` record how often a description was made and destroyed at an address. */
  datatype State = State(
    tables: map<nat, Table>,
    descriptions: map<nat, Description>,
    inodes: map<nat, Inode>,
    made: multiset<nat>,
    unmade: multiset<nat>)

  // --- what the counts should be

  predicate Names(s: State, pid: nat, fd: int, d: nat) {
    pid in s.tables && 0 <= fd < |s.tables[pid]| && s.tables[pid][fd].description == Some(d)
  }

  /** The slots that name a description. */
  ghost function Holders(s: State, d: nat): set<(nat, int)> {
    set pid, fd | pid in s.tables && 0 <= fd < |s.tables[pid]| && Names(s, pid, fd, d) :: (pid, fd)
  }

  ghost function Openers(s: State, i: nat): set<nat> {
    set d | d in s.descriptions && s.descriptions[d].inode == i
  }

  ghost function Readers(s: State, i: nat): set<nat> {
    set d | d in Openers(s, i) && Reads(s.descriptions[d].access)
  }

  ghost function Writers(s: State, i: nat): set<nat> {
    set d | d in Openers(s, i) && Writes(s.descriptions[d].access)
  }

  ghost predicate DescriptionOk(s: State, loose: multiset<nat>, d: nat)
    requires d in s.descriptions
  {
    && s.descriptions[d].count == |Holders(s, d)| + loose[d] && s.descriptions[d].count > 0
    && s.descriptions[d].inode in s.inodes
  }

  ghost predicate InodeOk(s: State, i: nat)
    requires i in s.inodes
  {
    var x := s.inodes[i];
    && x.refs == x.others + |Openers(s, i)| && x.refs > 0
    && x.readers == |Readers(s, i)| && x.writers == |Writers(s, i)|
  }

  ghost predicate SlotOk(s: State, pid: nat, fd: int)
    requires pid in s.tables && 0 <= fd < |s.tables[pid]|
  {
    if s.tables[pid][fd].description.Some? then s.tables[pid][fd].description.value in s.descriptions
    else s.tables[pid][fd] == EMPTY
  }

  ghost predicate Counted(s: State, loose: multiset<nat>) {
    && (forall pid :: pid in s.tables ==> |s.tables[pid]| == MAX_DESCRIPTORS)
    && (forall pid, fd {:trigger SlotOk(s, pid, fd)} :: pid in s.tables && 0 <= fd < |s.tables[pid]| ==>
      SlotOk(s, pid, fd))
    && (forall d :: d in loose ==> d in s.descriptions)
    && (forall d {:trigger DescriptionOk(s, loose, d)} :: d in s.descriptions ==> DescriptionOk(s, loose, d))
    && (forall i {:trigger InodeOk(s, i)} :: i in s.inodes ==> InodeOk(s, i))
    && (forall d {:trigger LedgerOk(s, d)} :: LedgerOk(s, d))
  }

  /** Whatever was made is unmade once, or still there. */
  ghost predicate LedgerOk(s: State, d: nat) {
    s.made[d] == s.unmade[d] + (if d in s.descriptions then 1 else 0)
  }

  /** With no call in progress, a description exists exactly when some slot names it. */
  lemma LiveIffNamed(s: State, d: nat)
    requires Counted(s, multiset{})
    ensures d in s.descriptions <==> exists pid, fd :: Names(s, pid, fd, d)
  {
    if d in s.descriptions {
      assert DescriptionOk(s, multiset{}, d);
      var h :| h in Holders(s, d);
      assert Names(s, h.0, h.1, d);
    }
    if pid, fd :| Names(s, pid, fd, d) {
      assert SlotOk(s, pid, fd);
    }
  }

  // --- a reference more

  function Ref(s: State, d: nat): State
    requires d in s.descriptions
  {
    s.(descriptions := s.descriptions[d := s.descriptions[d].(count := s.descriptions[d].count + 1)])
  }

  lemma RefKeeps(s: State, loose: multiset<nat>, d: nat)
    requires Counted(s, loose) && d in s.descriptions
    ensures Counted(Ref(s, d), loose + multiset{d})
  {
    var s' := Ref(s, d);
    forall e ensures LedgerOk(s', e) { assert LedgerOk(s, e); }
    forall pid, fd | pid in s'.tables && 0 <= fd < |s'.tables[pid]| ensures SlotOk(s', pid, fd) {
      assert SlotOk(s, pid, fd);
    }
    forall e | e in s'.descriptions ensures DescriptionOk(s', loose + multiset{d}, e) {
      assert DescriptionOk(s, loose, e);
      assert Holders(s', e) == Holders(s, e);
    }
    forall i | i in s'.inodes ensures InodeOk(s', i) {
      assert InodeOk(s, i);
      SameOpeners(s, s', i);
    }
  }

  lemma SameOpeners(s: State, s': State, i: nat)
    requires s'.descriptions.Keys == s.descriptions.Keys
    requires forall d :: d in s.descriptions ==>
      s'.descriptions[d].inode == s.descriptions[d].inode && s'.descriptions[d].access == s.descriptions[d].access
    ensures Openers(s', i) == Openers(s, i) && Readers(s', i) == Readers(s, i) && Writers(s', i) == Writers(s, i)
  {
  }

  // --- a slot filled or emptied

  function SetSlot(s: State, pid: nat, fd: nat, slot: Slot): State
    requires pid in s.tables && fd < |s.tables[pid]|
  {
    s.(tables := s.tables[pid := s.tables[pid][fd := slot]])
  }

  /** Setting a slot moves just that slot between the sets of holders. */
  lemma HoldersAfter(s: State, pid: nat, fd: nat, slot: Slot, e: nat)
    requires pid in s.tables && fd < |s.tables[pid]|
    ensures Holders(SetSlot(s, pid, fd, slot), e) ==
      if slot.description == Some(e) then Holders(s, e) + {(pid, fd)} else Holders(s, e) - {(pid, fd)}
  {
    var s' := SetSlot(s, pid, fd, slot);
    forall p, f | p in s.tables && 0 <= f < |s.tables[p]| && (p != pid || f != fd)
      ensures Names(s', p, f, e) <==> Names(s, p, f, e) {
    }
  }

  lemma HoldersSet(s: State, pid: nat, fd: nat, slot: Slot, e: nat)
    requires pid in s.tables && fd < |s.tables[pid]|
    ensures |Holders(SetSlot(s, pid, fd, slot), e)| ==
      |Holders(s, e)| - (if Names(s, pid, fd, e) then 1 else 0) + (if slot.description == Some(e) then 1 else 0)
  {
    HoldersAfter(s, pid, fd, slot, e);
    assert Names(s, pid, fd, e) <==> (pid, fd) in Holders(s, e);
  }

  lemma SetSlotRest(s: State, loose: multiset<nat>, pid: nat, fd: nat, slot: Slot)
    requires Counted(s, loose) && pid in s.tables && fd < |s.tables[pid]|
    requires if slot.description.Some? then slot.description.value in s.descriptions else slot == EMPTY
    ensures var s' := SetSlot(s, pid, fd, slot);
      && (forall p :: p in s'.tables ==> |s'.tables[p]| == MAX_DESCRIPTORS)
      && (forall p, f {:trigger SlotOk(s', p, f)} :: p in s'.tables && 0 <= f < |s'.tables[p]| ==> SlotOk(s', p, f))
      && (forall i {:trigger InodeOk(s', i)} :: i in s'.inodes ==> InodeOk(s', i))
  {
    var s' := SetSlot(s, pid, fd, slot);
    forall p, f | p in s'.tables && 0 <= f < |s'.tables[p]| ensures SlotOk(s', p, f) {
      assert SlotOk(s, p, f);
    }
    forall i | i in s'.inodes ensures InodeOk(s', i) {
      assert InodeOk(s, i);
      SameOpeners(s, s', i);
    }
  }

  /** A slot may come to name another description as the loose references pay for it. */
  lemma SetSlotKeeps(s: State, loose: multiset<nat>, pid: nat, fd: nat, slot: Slot, loose': multiset<nat>)
    requires Counted(s, loose) && pid in s.tables && fd < |s.tables[pid]|
    requires if slot.description.Some? then slot.description.value in s.descriptions else slot == EMPTY
    requires forall d :: d in loose' ==> d in s.descriptions
    requires forall d ::
      loose'[d] + (if slot.description == Some(d) then 1 else 0) ==
      loose[d] + (if s.tables[pid][fd].description == Some(d) then 1 else 0)
    ensures Counted(SetSlot(s, pid, fd, slot), loose')
  {
    var s' := SetSlot(s, pid, fd, slot);
    forall e ensures LedgerOk(s', e) { assert LedgerOk(s, e); }
    SetSlotRest(s, loose, pid, fd, slot);
    forall e | e in s'.descriptions ensures DescriptionOk(s', loose', e) {
      assert DescriptionOk(s, loose, e);
      HoldersSet(s, pid, fd, slot, e);
    }
  }

  lemma PutKeeps(s: State, loose: multiset<nat>, pid: nat, fd: nat, d: nat, closeOnExec: bool)
    requires Counted(s, loose) && pid in s.tables && fd < |s.tables[pid]| && s.tables[pid][fd].description.None? &&
      d in loose
    ensures Counted(SetSlot(s, pid, fd, Slot(Some(d), closeOnExec)), loose - multiset{d})
  {
    SetSlotKeeps(s, loose, pid, fd, Slot(Some(d), closeOnExec), loose - multiset{d});
  }

  lemma TakeKeeps(s: State, loose: multiset<nat>, pid: nat, fd: nat)
    requires Counted(s, loose) && pid in s.tables && fd < |s.tables[pid]| && s.tables[pid][fd].description.Some?
    ensures Counted(SetSlot(s, pid, fd, EMPTY), loose + multiset{s.tables[pid][fd].description.value})
  {
    assert SlotOk(s, pid, fd);
    SetSlotKeeps(s, loose, pid, fd, EMPTY, loose + multiset{s.tables[pid][fd].description.value});
  }

  /** The flag of a slot is not part of any count. */
  lemma MarkKeeps(s: State, loose: multiset<nat>, pid: nat, fd: nat, closeOnExec: bool)
    requires Counted(s, loose) && pid in s.tables && fd < |s.tables[pid]| && s.tables[pid][fd].description.Some?
    ensures Counted(SetSlot(s, pid, fd, s.tables[pid][fd].(closeOnExec := closeOnExec)), loose)
  {
    assert SlotOk(s, pid, fd);
    SetSlotKeeps(s, loose, pid, fd, s.tables[pid][fd].(closeOnExec := closeOnExec), loose);
  }

  // --- a description made

  function Bump(x: Inode, access: Access): Inode {
    x.(refs := x.refs + 1,
       readers := if Reads(access) then x.readers + 1 else x.readers,
       writers := if Writes(access) then x.writers + 1 else x.writers)
  }

  /** The constructor: one reference to the inode, and the inode told. */
  function Make(s: State, d: nat, i: nat, access: Access): State
    requires d !in s.descriptions && i in s.inodes
  {
    s.(descriptions := s.descriptions[d := Description(i, access, 1)],
       inodes := s.inodes[i := Bump(s.inodes[i], access)],
       made := s.made + multiset{d})
  }

  lemma DropOpeners(s: State, d: nat, j: nat)
    requires d in s.descriptions
    ensures var s' := s.(descriptions := s.descriptions - {d}); var x := s.descriptions[d];
      && |Openers(s', j)| == |Openers(s, j)| - (if x.inode == j then 1 else 0)
      && |Readers(s', j)| == |Readers(s, j)| - (if x.inode == j && Reads(x.access) then 1 else 0)
      && |Writers(s', j)| == |Writers(s, j)| - (if x.inode == j && Writes(x.access) then 1 else 0)
  {
    var s' := s.(descriptions := s.descriptions - {d});
    var x := s.descriptions[d];
    OneLess(Openers(s, j), Openers(s', j), d, x.inode == j);
    OneLess(Readers(s, j), Readers(s', j), d, x.inode == j && Reads(x.access));
    OneLess(Writers(s, j), Writers(s', j), d, x.inode == j && Writes(x.access));
  }

  lemma OneLess(a: set<nat>, b: set<nat>, d: nat, had: bool)
    requires d !in b && (d in a <==> had) && forall e :: e != d ==> (e in a <==> e in b)
    ensures |b| == |a| - if had then 1 else 0
  {
    assert a == if had then b + {d} else b;
  }

  lemma MakeOpeners(s: State, d: nat, i: nat, access: Access, j: nat)
    requires d !in s.descriptions && i in s.inodes
    ensures var s' := Make(s, d, i, access);
      && |Openers(s', j)| == |Openers(s, j)| + (if i == j then 1 else 0)
      && |Readers(s', j)| == |Readers(s, j)| + (if i == j && Reads(access) then 1 else 0)
      && |Writers(s', j)| == |Writers(s, j)| + (if i == j && Writes(access) then 1 else 0)
  {
    var s' := Make(s, d, i, access);
    DropOpeners(s', d, j);
    var back := s'.(descriptions := s'.descriptions - {d});
    assert back.descriptions == s.descriptions;
    assert Openers(back, j) == Openers(s, j) && Readers(back, j) == Readers(s, j) && Writers(back, j) == Writers(s, j);
  }

  lemma MakeKeeps(s: State, loose: multiset<nat>, d: nat, i: nat, access: Access)
    requires Counted(s, loose) && d !in s.descriptions && i in s.inodes
    ensures Counted(Make(s, d, i, access), loose + multiset{d})
  {
    var s' := Make(s, d, i, access);
    forall e ensures LedgerOk(s', e) { assert LedgerOk(s, e); }
    forall p, f | p in s'.tables && 0 <= f < |s'.tables[p]| ensures SlotOk(s', p, f) {
      assert SlotOk(s, p, f);
    }
    forall e | e in s'.descriptions ensures DescriptionOk(s', loose + multiset{d}, e) {
      assert Holders(s', e) == Holders(s, e);
      if e == d {
        Unnamed(s, loose, d);
      } else {
        assert DescriptionOk(s, loose, e);
      }
    }
    forall j | j in s'.inodes ensures InodeOk(s', j) {
      assert InodeOk(s, j);
      MakeOpeners(s, d, i, access, j);
    }
  }

  lemma Unnamed(s: State, loose: multiset<nat>, d: nat)
    requires Counted(s, loose) && d !in s.descriptions
    ensures Holders(s, d) == {} && loose[d] == 0
  {
    forall p, f | p in s.tables && 0 <= f < |s.tables[p]| ensures !Names(s, p, f, d) {
      assert SlotOk(s, p, f);
    }
  }

  // --- a reference less

  /** `closed`, with its guards, and the inode's own reference. */
  function Drop(x: Inode, access: Access): Inode
    requires x.refs > 0
  {
    x.(refs := x.refs - 1,
       readers := if Reads(access) && x.readers > 0 then x.readers - 1 else x.readers,
       writers := if Writes(access) && x.writers > 0 then x.writers - 1 else x.writers)
  }

  /** `release_description`: the last reference closes the file and lets go of the inode. */
  function Release(s: State, d: nat): State
    requires d in s.descriptions && s.descriptions[d].count > 0
    requires s.descriptions[d].inode in s.inodes && s.inodes[s.descriptions[d].inode].refs > 0
  {
    var x := s.descriptions[d];
    if x.count > 1 then s.(descriptions := s.descriptions[d := x.(count := x.count - 1)])
    else
      var node := Drop(s.inodes[x.inode], x.access);
      s.(descriptions := s.descriptions - {d},
         inodes := if node.refs == 0 then s.inodes - {x.inode} else s.inodes[x.inode := node],
         unmade := s.unmade + multiset{d})
  }

  lemma LastReleaseInodes(s: State, loose: multiset<nat>, d: nat, j: nat)
    requires Counted(s, loose) && d in s.descriptions && s.descriptions[d].count == 1
    requires s.descriptions[d].inode in s.inodes && s.inodes[s.descriptions[d].inode].refs > 0 &&
      j in Release(s, d).inodes
    ensures InodeOk(Release(s, d), j)
  {
    var s', s1 := Release(s, d), s.(descriptions := s.descriptions - {d});
    assert InodeOk(s, j) && DescriptionOk(s, loose, d);
    DropOpeners(s, d, j);
    assert Openers(s', j) == Openers(s1, j) && Readers(s', j) == Readers(s1, j) && Writers(s', j) == Writers(s1, j);
  }

  lemma ReleaseKeeps(s: State, loose: multiset<nat>, d: nat)
    requires Counted(s, loose) && d in loose
    ensures d in s.descriptions && s.descriptions[d].count > 0
    ensures s.descriptions[d].inode in s.inodes && s.inodes[s.descriptions[d].inode].refs > 0
    ensures Counted(Release(s, d), loose - multiset{d})
  {
    assert DescriptionOk(s, loose, d);
    assert InodeOk(s, s.descriptions[d].inode);
    var s', loose' := Release(s, d), loose - multiset{d};
    forall e ensures LedgerOk(s', e) { assert LedgerOk(s, e); }
    var last := s.descriptions[d].count == 1;
    assert last ==> Holders(s, d) == {} && loose[d] == 1;
    forall p, f | p in s'.tables && 0 <= f < |s'.tables[p]| ensures SlotOk(s', p, f) {
      assert SlotOk(s, p, f);
      assert Names(s, p, f, d) ==> (p, f) in Holders(s, d);
    }
    forall e | e in s'.descriptions ensures DescriptionOk(s', loose', e) {
      ReleaseDescription(s, loose, d, e);
    }
    forall j | j in s'.inodes ensures InodeOk(s', j) {
      if last { LastReleaseInodes(s, loose, d, j); } else {
        assert InodeOk(s, j);
        SameOpeners(s, s', j);
      }
    }
  }

  lemma ReleaseDescription(s: State, loose: multiset<nat>, d: nat, e: nat)
    requires Counted(s, loose) && d in loose && d in s.descriptions && s.descriptions[d].count > 0
    requires s.descriptions[d].inode in s.inodes && s.inodes[s.descriptions[d].inode].refs > 0
    requires e in Release(s, d).descriptions
    ensures DescriptionOk(Release(s, d), loose - multiset{d}, e)
  {
    var s' := Release(s, d);
    assert DescriptionOk(s, loose, d) && DescriptionOk(s, loose, e);
    assert Holders(s', e) == Holders(s, e);
    var i := s.descriptions[e].inode;
    if i !in s'.inodes {
      // The inode would still count `e` among its openers.
      assert InodeOk(s, i);
      assert {d, e} <= Openers(s, i);
      SubsetSize({d, e}, Openers(s, i));
    }
  }

  lemma {:induction false} SubsetSize(a: set<nat>, b: set<nat>)
    requires a <= b
    ensures |a| <= |b|
  {
    if a != {} {
      var x :| x in a;
      SubsetSize(a - {x}, b - {x});
    }
  }

  // --- a new pipe

  /** A reference that is not a description's goes away. */
  function LetGo(s: State, i: nat): State
    requires i in s.inodes && s.inodes[i].others > 0 && s.inodes[i].refs > 1
  {
    s.(inodes := s.inodes[i := s.inodes[i].(refs := s.inodes[i].refs - 1, others := s.inodes[i].others - 1)])
  }

  lemma InodesKeep(s: State, s': State, loose: multiset<nat>)
    requires Counted(s, loose) && s' == s.(inodes := s'.inodes)
    requires forall d :: d in s.descriptions ==> s.descriptions[d].inode in s'.inodes
    requires forall i {:trigger InodeOk(s', i)} :: i in s'.inodes ==> InodeOk(s', i)
    ensures Counted(s', loose)
  {
    forall e ensures LedgerOk(s', e) { assert LedgerOk(s, e); }
    forall p, f | p in s'.tables && 0 <= f < |s'.tables[p]| ensures SlotOk(s', p, f) {
      assert SlotOk(s, p, f);
    }
    forall e | e in s'.descriptions ensures DescriptionOk(s', loose, e) {
      assert DescriptionOk(s, loose, e);
      assert Holders(s', e) == Holders(s, e);
    }
  }

  lemma InodeSame(s: State, s': State, loose: multiset<nat>, i: nat)
    requires Counted(s, loose) && s' == s.(inodes := s'.inodes) && i in s.inodes && i in s'.inodes
    requires s'.inodes[i].readers == s.inodes[i].readers && s'.inodes[i].writers == s.inodes[i].writers
    requires s'.inodes[i].refs > 0 && s'.inodes[i].refs - s'.inodes[i].others == s.inodes[i].refs - s.inodes[i].others
    ensures InodeOk(s', i)
  {
    assert InodeOk(s, i);
    SameOpeners(s, s', i);
  }

  lemma LetGoKeeps(s: State, loose: multiset<nat>, i: nat)
    requires Counted(s, loose) && i in s.inodes && s.inodes[i].others > 0 && s.inodes[i].refs > 1
    ensures Counted(LetGo(s, i), loose)
  {
    var s' := LetGo(s, i);
    forall j | j in s'.inodes ensures InodeOk(s', j) {
      assert InodeOk(s, j);
      InodeSame(s, s', loose, j);
    }
    forall d | d in s.descriptions ensures s.descriptions[d].inode in s'.inodes {
      assert DescriptionOk(s, loose, d);
    }
    InodesKeep(s, s', loose);
  }

  lemma NewInodeKeeps(s: State, loose: multiset<nat>, i: nat)
    requires Counted(s, loose) && i !in s.inodes
    ensures Counted(s.(inodes := s.inodes[i := Inode(1, 1, 0, 0)]), loose)
  {
    var s' := s.(inodes := s.inodes[i := Inode(1, 1, 0, 0)]);
    forall d | d in s.descriptions ensures s.descriptions[d].inode in s.inodes {
      assert DescriptionOk(s, loose, d);
    }
    forall j | j in s'.inodes ensures InodeOk(s', j) {
      if j == i {
        assert Openers(s', i) == {};
      } else {
        assert InodeOk(s, j);
        InodeSame(s, s', loose, j);
      }
    }
    InodesKeep(s, s', loose);
  }

  /** `create_pair`: an inode without a name, and one description for each end. */
  function MakePipe(s: State, i: nat, r: nat, w: nat): State
    requires i !in s.inodes && r !in s.descriptions && w !in s.descriptions && r != w
  {
    Make(Make(s.(inodes := s.inodes[i := Inode(0, 0, 0, 0)]), r, i, ReadOnly), w, i, WriteOnly)
  }

  lemma MakePipeVia(s: State, i: nat, r: nat, w: nat, s2: State)
    requires i !in s.inodes && r !in s.descriptions && w !in s.descriptions && r != w
    requires s2 == Make(Make(s.(inodes := s.inodes[i := Inode(1, 1, 0, 0)]), r, i, ReadOnly), w, i, WriteOnly)
    ensures i in s2.inodes && s2.inodes[i].others > 0 && s2.inodes[i].refs > 1 && LetGo(s2, i) == MakePipe(s, i, r, w)
  {
  }

  lemma MakePipeKeeps(s: State, loose: multiset<nat>, i: nat, r: nat, w: nat)
    requires Counted(s, loose) && i !in s.inodes && r !in s.descriptions && w !in s.descriptions && r != w
    ensures Counted(MakePipe(s, i, r, w), loose + multiset{r} + multiset{w})
  {
    var s1 := s.(inodes := s.inodes[i := Inode(1, 1, 0, 0)]);
    NewInodeKeeps(s, loose, i);
    MakeKeeps(s1, loose, r, i, ReadOnly);
    var s2 := Make(Make(s1, r, i, ReadOnly), w, i, WriteOnly);
    MakeKeeps(Make(s1, r, i, ReadOnly), loose + multiset{r}, w, i, WriteOnly);
    MakePipeVia(s, i, r, w, s2);
    LetGoKeeps(s2, loose + multiset{r} + multiset{w}, i);
  }

  // --- the tables determine the rest

  /** No description or inode turned into another, and what is held elsewhere stayed. */
  ghost predicate Steady(s: State, s': State) {
    && (forall d :: d in s.descriptions && d in s'.descriptions ==>
          s'.descriptions[d].inode == s.descriptions[d].inode && s'.descriptions[d].access == s.descriptions[d].access)
    && (forall i :: i in s.inodes && i in s'.inodes ==> s'.inodes[i].others == s.inodes[i].others)
    && (forall i :: i in s.inodes && s.inodes[i].others > 0 ==> i in s'.inodes)
    && (forall i :: i in s'.inodes && i !in s.inodes ==> s'.inodes[i].others == 0)
  }

  /** With the same slots and nothing else held, every count is the same: a call undone leaves no trace. */
  lemma TablesDetermine(s: State, s': State)
    requires Counted(s, multiset{}) && Counted(s', multiset{}) && Steady(s, s') && s'.tables == s.tables
    ensures s'.descriptions == s.descriptions && s'.inodes == s.inodes
  {
    SameDescriptions(s, s');
    assert s'.descriptions == s.descriptions;
    forall i | i in s.inodes ensures i in s'.inodes {
      assert InodeOk(s, i);
      OpenedExists(s, s', i);
    }
    forall i | i in s'.inodes ensures i in s.inodes {
      assert InodeOk(s', i);
      OpenedExists(s', s, i);
    }
    forall i | i in s.inodes ensures s'.inodes[i] == s.inodes[i] {
      assert InodeOk(s, i) && InodeOk(s', i);
      SameOpeners(s, s', i);
    }
  }

  lemma OpenedExists(s: State, s': State, i: nat)
    requires Counted(s', multiset{}) && s'.descriptions == s.descriptions
    ensures Openers(s, i) != {} ==> i in s'.inodes
  {
    forall d | d in Openers(s, i) ensures i in s'.inodes {
      assert DescriptionOk(s', multiset{}, d);
    }
  }

  lemma SameDescriptions(s: State, s': State)
    requires Counted(s, multiset{}) && Counted(s', multiset{}) && Steady(s, s') && s'.tables == s.tables
    ensures s'.descriptions.Keys == s.descriptions.Keys
    ensures forall d :: d in s.descriptions ==> s'.descriptions[d] == s.descriptions[d]
  {
    forall d ensures d in s.descriptions <==> d in s'.descriptions {
      LiveIffNamed(s, d);
      LiveIffNamed(s', d);
      assert forall pid, fd :: Names(s, pid, fd, d) <==> Names(s', pid, fd, d);
    }
    forall d | d in s.descriptions ensures s'.descriptions[d] == s.descriptions[d] {
      assert DescriptionOk(s, multiset{}, d) && DescriptionOk(s', multiset{}, d);
      assert Holders(s', d) == Holders(s, d);
    }
  }

  /** End of file on a pipe means what it should: nobody has it open for writing. */
  lemma NoWriterIffNone(s: State, loose: multiset<nat>, i: nat)
    requires Counted(s, loose) && i in s.inodes
    ensures s.inodes[i].writers == 0 <==>
      forall d :: d in s.descriptions && s.descriptions[d].inode == i ==> s.descriptions[d].access == ReadOnly
    ensures s.inodes[i].readers == 0 <==>
      forall d :: d in s.descriptions && s.descriptions[d].inode == i ==> s.descriptions[d].access == WriteOnly
  {
    assert InodeOk(s, i);
    if s.inodes[i].writers != 0 { var d :| d in Writers(s, i); }
    if s.inodes[i].readers != 0 { var d :| d in Readers(s, i); }
    forall d | d in s.descriptions && s.descriptions[d].inode == i
      ensures (Writes(s.descriptions[d].access) ==> d in Writers(s, i)) &&
      (Reads(s.descriptions[d].access) ==> d in Readers(s, i)) {
    }
  }
}
