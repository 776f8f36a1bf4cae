/**
 * The address-space operations. Each one is code over tables and frames, specified by what it
 * does to the page maps of all spaces.
 */
module AddressSpaces {
  import opened Base
  import opened PageTables
  import opened PageTableSteps
  import opened PageMaps
  import opened Teardown
  import opened Cloning
  import opened Isolation
  import opened Rollback
  import opened CloneCost
  import opened Protection
  import Physical

  const USER_SPACE_END: nat := 0x0000_8000_0000_0000
  const TWO_64: nat := 0x1_0000_0000_0000_0000

  ghost predicate Accessible(m: map<nat, Entry>, n: nat, forWrite: bool) {
    n in m && m[n].flags.user && (forWrite ==> m[n].flags.writable)
  }

  /** Every byte of the range is a user byte one may access. */
  ghost predicate RangeValid(m: map<nat, Entry>, address: nat, length: nat, forWrite: bool) {
    && address + length <= USER_SPACE_END
    && forall a: nat :: address <= a < address + length ==> Accessible(m, a / 4096, forWrite)
  }

  /** Byte by byte is page by page. */
  lemma PagesCoverBytes(m: map<nat, Entry>, address: nat, length: nat, forWrite: bool)
    requires length > 0
    ensures (forall a: nat :: address <= a < address + length ==> Accessible(m, a / 4096, forWrite)) <==>
      forall n: nat :: address / 4096 <= n < (address + length + 4095) / 4096 ==> Accessible(m, n, forWrite)
  {
    if forall a: nat :: address <= a < address + length ==> Accessible(m, a / 4096, forWrite) {
      forall n: nat | address / 4096 <= n < (address + length + 4095) / 4096 ensures Accessible(m, n, forWrite) {
        var a := if n * 4096 < address then address else n * 4096;
        assert Accessible(m, a / 4096, forWrite);
      }
    }
  }

  /** Leaf entries tell what the processor will do, which ANDs the bits of every level. */
  lemma RangeIsGranted(s: State, t: Tree, sp: nat, address: nat, length: nat, forWrite: bool)
    requires Inv(s, t) && sp in s.spaces
    ensures RangeValid(PageMap(s, sp), address, length, forWrite) <==>
      && address + length <= USER_SPACE_END
      && forall a: nat :: address <= a < address + length ==>
        var (user, writable) := WalkPermissions(s.tables, s.spaces[sp].root, 4, a / 4096);
        user && (forWrite ==> writable)
  {
    if RangeValid(PageMap(s, sp), address, length, forWrite) {
      forall a: nat | address <= a < address + length
        ensures var (user, writable) := WalkPermissions(s.tables, s.spaces[sp].root, 4, a / 4096);
          user && (forWrite ==> writable)
      {
        assert Accessible(PageMap(s, sp), a / 4096, forWrite);
        LeafCheckSuffices(s, t, sp, a / 4096);
      }
    } else if address + length <= USER_SPACE_END {
      var a: nat :| address <= a < address + length && !Accessible(PageMap(s, sp), a / 4096, forWrite);
      LeafCheckSuffices(s, t, sp, a / 4096);
      var (user, writable) := WalkPermissions(s.tables, s.spaces[sp].root, 4, a / 4096);
      assert !(user && (forWrite ==> writable));
    }
  }

  lemma MinusAbsent(m: map<nat, Entry>, k: nat)
    ensures k !in m ==> m - {k} == m
  {
  }

  lemma WithoutStep(m: map<nat, Entry>, m1: map<nat, Entry>, m2: map<nat, Entry>, start: nat, k: nat)
    requires m1 == Without(m, start, k) && m2 == m1 - {start + k}
    ensures m2 == Without(m, start, k + 1)
  {
  }

  /** `s` is `s0` with the range unmapped from one space. */
  ghost predicate Unmapped(s0: State, s: State, t: Tree, sp: nat, start: nat, count: nat) {
    && Inv(s, t) && sp in s0.spaces && OnlySpace(s0, s, sp)
    && PageMap(s, sp) == Without(PageMap(s0, sp), start, count)
    && s.data == s0.data && s.free == s0.free
  }

  lemma UnmappedStep(s0: State, s1: State, s2: State, t2: Tree, sp: nat, start: nat, k: nat)
    requires sp in s0.spaces && OnlySpace(s0, s1, sp) && PageMap(s1, sp) == Without(PageMap(s0, sp), start, k)
    requires s1.data == s0.data && s1.free == s0.free
    requires Inv(s2, t2) && OnlySpace(s1, s2, sp) && PageMap(s2, sp) == PageMap(s1, sp) - {start + k}
    requires s2.data == s1.data && s2.free == s1.free
    ensures Unmapped(s0, s2, t2, sp, start, k + 1)
  {
    WithoutStep(PageMap(s0, sp), PageMap(s1, sp), PageMap(s2, sp), start, k);
    OnlySpaceTrans(s0, s1, s2, sp);
  }

  /** How many pages from `start` are mapped in a row, `count` at most. */
  ghost function Mapped(m: map<nat, Entry>, start: nat, count: nat): nat
    decreases count
  {
    if count == 0 || start !in m then 0 else 1 + Mapped(m, start + 1, count - 1)
  }

  /** The map with new flags on a range of its pages. */
  ghost function Reflagged(m: map<nat, Entry>, start: nat, count: nat, flags: Flags): map<nat, Entry> {
    map n | n in m :: if InRange(n, start, count) then Entry(true, m[n].frame, flags) else m[n]
  }

  ghost predicate Protected(s0: State, s: State, t: Tree, sp: nat, start: nat, count: nat, flags: Flags) {
    && Inv(s, t) && sp in s0.spaces && OnlySpace(s0, s, sp)
    && PageMap(s, sp) == Reflagged(PageMap(s0, sp), start, count, flags)
    && s.data == s0.data && s.free == s0.free
  }

  lemma ReflaggedStep(m: map<nat, Entry>, m1: map<nat, Entry>, start: nat, k: nat, flags: Flags)
    requires m1 == Reflagged(m, start, k, flags) && start + k in m1
    ensures start + k in m && m1[start + k] == m[start + k]
    ensures m1[start + k := Entry(true, m1[start + k].frame, flags)] == Reflagged(m, start, k + 1, flags)
  {
  }

  lemma ProtectedStep(s0: State, s1: State, s2: State, t2: Tree, sp: nat, start: nat, k: nat, flags: Flags)
    requires sp in s0.spaces && OnlySpace(s0, s1, sp) && PageMap(s1, sp) == Reflagged(PageMap(s0, sp), start, k, flags)
    requires s1.data == s0.data && s1.free == s0.free && start + k in PageMap(s1, sp)
    requires Inv(s2, t2) && OnlySpace(s1, s2, sp)
    requires PageMap(s2, sp) == PageMap(s1, sp)[start + k := Entry(true, PageMap(s1, sp)[start + k].frame, flags)]
    requires s2.data == s1.data && s2.free == s1.free
    ensures Protected(s0, s2, t2, sp, start, k + 1, flags)
  {
    ReflaggedStep(PageMap(s0, sp), PageMap(s1, sp), start, k, flags);
    OnlySpaceTrans(s0, s1, s2, sp);
  }

  // --- anonymous memory

  /** The map gained exactly this page, on a zeroed frame that was free. */
  ghost predicate Fresh(s0: State, s: State, sp: nat, page: nat, flags: Flags)
    requires sp in s0.spaces && sp in s.spaces
  {
    exists f :: f in s0.free && f in s.data && s.data[f] == ZeroPage()
      && PageMap(s, sp) == PageMap(s0, sp)[page := Entry(true, f, flags)]
  }

  lemma HoleFilled(s0: State, s1: State, s: State, sp: nat, page: nat, flags: Flags, f: nat, content: Page)
    requires sp in s0.spaces && f in s0.free && f !in s0.data && s1 == TakeData(s0, f, content)
    requires forall q :: q in s0.spaces ==> PageMap(s1, q) == PageMap(s0, q)
    requires OnlySpace(s1, s, sp) && s.data == s1.data &&
      PageMap(s, sp) == PageMap(s1, sp)[page := Entry(true, f, flags)]
    ensures OnlySpace(s0, s, sp) && MemoryKept(s0, s) && f in s.data && s.data[f] == content
    ensures PageMap(s, sp) == PageMap(s0, sp)[page := Entry(true, f, flags)]
  {
  }

  lemma HoleLeft(s0: State, s1: State, s2: State, s: State, sp: nat, f: nat, content: Page)
    requires sp in s0.spaces && f in s0.free && f !in s0.data && s1 == TakeData(s0, f, content)
    requires forall q :: q in s0.spaces ==> PageMap(s1, q) == PageMap(s0, q)
    requires OnlySpace(s1, s2, sp) && s2.data == s1.data && PageMap(s2, sp) == PageMap(s1, sp)
    requires s == GiveData(s2, f) && forall q :: q in s2.spaces ==> PageMap(s, q) == PageMap(s2, q)
    ensures OnlySpace(s0, s, sp) && MemoryKept(s0, s) && PageMap(s, sp) == PageMap(s0, sp)
  {
  }

  ghost predicate FilledPage(s0: State, s: State, e: Entry, flags: Flags) {
    e.present && e.flags == flags && e.frame in s0.free && e.frame in s.data && s.data[e.frame] == ZeroPage()
  }

  /** Old pages are as they were; the holes of the range are zeroed memory that used to be free. */
  ghost predicate Filled(s0: State, s: State, sp: nat, start: nat, count: nat, flags: Flags)
    requires sp in s0.spaces && sp in s.spaces
  {
    var m0, m := PageMap(s0, sp), PageMap(s, sp);
    && (forall n :: n in m0 ==> n in m && m[n] == m0[n])
    && (forall n: nat :: InRange(n, start, count) ==> n in m)
    && (forall n :: n in m && n !in m0 ==> InRange(n, start, count) && FilledPage(s0, s, m[n], flags))
    && (forall f :: f in s.free ==> f in s0.free)
  }

  lemma FilledStep(s0: State, s1: State, s2: State, sp: nat, start: nat, k: nat, flags: Flags)
    requires sp in s0.spaces && sp in s1.spaces && sp in s2.spaces
    requires Filled(s0, s1, sp, start, k, flags) && MemoryKept(s1, s2)
    requires if start + k in PageMap(s1, sp) then PageMap(s2, sp) == PageMap(s1, sp)
             else Fresh(s1, s2, sp, start + k, flags)
    requires forall f :: f in s2.free ==> f in s1.free
    ensures Filled(s0, s2, sp, start, k + 1, flags)
  {
    var m0, m1, m2 := PageMap(s0, sp), PageMap(s1, sp), PageMap(s2, sp);
    forall n | n in m2 && n !in m0 ensures InRange(n, start, k + 1) && FilledPage(s0, s2, m2[n], flags) {
      if n in m1 {
        assert FilledPage(s0, s1, m1[n], flags);
      }
    }
  }

  /** How far `map_anonymous` has come. */
  ghost predicate Filling(s0: State, t0: Tree, s: State, t: Tree, sp: nat, start: nat, k: nat, flags: Flags) {
    && sp in s0.spaces && sp in s.spaces && Inv(s, t) && OnlySpace(s0, s, sp) && MemoryKept(s0, s)
    && Filled(s0, s, sp, start, k, flags) && RangeBilled(s0, t0, s, t, PageMap(s0, sp), sp, start, k)
  }

  lemma FillingStart(s: State, t: Tree, sp: nat, start: nat, flags: Flags)
    requires Inv(s, t) && sp in s.spaces
    ensures Filling(s, t, s, t, sp, start, 0, flags)
  {
    NothingBilled(s, t, PageMap(s, sp), sp, start);
  }

  lemma FillingStep(s0: State, t0: Tree, s1: State, t1: Tree, s: State, t: Tree, sp: nat, start: nat, k: nat,
    flags: Flags)
    requires Filling(s0, t0, s1, t1, sp, start, k, flags)
    requires Inv(s, t) && OnlySpace(s1, s, sp) && MemoryKept(s1, s) && forall f :: f in s.free ==> f in s1.free
    requires if start + k in PageMap(s1, sp) then s == s1 && t == t1
             else Fresh(s1, s, sp, start + k, flags) && PathBilled(s1, t1, s, t, sp, start + k, true)
    ensures Filling(s0, t0, s, t, sp, start, k + 1, flags)
  {
    FilledBelow(s0, s1, sp, start, k, flags);
    OnlySpaceTrans(s0, s1, s, sp);
    FilledStep(s0, s1, s, sp, start, k, flags);
    NextBilled(s0, t0, s1, t1, s, t, PageMap(s0, sp), sp, start, k);
  }

  lemma FillingEnds(s0: State, t0: Tree, s1: State, t1: Tree, s: State, t: Tree, sp: nat, start: nat, k: nat,
    count: nat, flags: Flags)
    requires Filling(s0, t0, s1, t1, sp, start, k, flags) && k < count && start + k !in PageMap(s1, sp)
    requires OnlySpace(s1, s, sp) && PageMap(s, sp) == PageMap(s1, sp) && PathBilled(s1, t1, s, t, sp, start + k, false)
    ensures OnlySpace(s0, s, sp)
    ensures Outcome(PageMap(s0, sp), t0.node.Keys, sp, start, count, |s0.free|, Err(ENOMEM),
      Without(PageMap(s, sp), start, k))
  {
    OnlySpaceTrans(s0, s1, s, sp);
    FilledBelow(s0, s1, sp, start, k, flags);
    FilledThenGone(s0, s1, sp, start, k, flags);
    OutcomeErr(s0, t0, s1, t1, s, t, PageMap(s0, sp), sp, start, k, count);
  }

  /** A page the call has not come to yet is mapped exactly if it was before. */
  lemma FilledBelow(s0: State, s: State, sp: nat, start: nat, k: nat, flags: Flags)
    requires sp in s0.spaces && sp in s.spaces && Filled(s0, s, sp, start, k, flags)
    ensures start + k in PageMap(s, sp) <==> start + k in PageMap(s0, sp)
  {
  }

  /** Taking the range out again loses this call's additions and the rest of the range alike. */
  lemma FilledThenGone(s0: State, s: State, sp: nat, start: nat, k: nat, flags: Flags)
    requires sp in s0.spaces && sp in s.spaces && Filled(s0, s, sp, start, k, flags)
    ensures Without(PageMap(s, sp), start, k) == Without(PageMap(s0, sp), start, k)
  {
  }

  lemma TornDownMemory(s0: State, t: Tree, sp: nat, s: State)
    requires TornDown(s0, t, sp, s)
    ensures forall f :: f in s.free <==> f in s0.free || f in Owned(t, sp)
    ensures forall f :: f in s0.data && f !in Owned(t, sp) ==> f in s.data && s.data[f] == s0.data[f]
  {
    forall f ensures f in s.free <==> f in s0.free || f in Owned(t, sp) {
      assert TornAt(s0, s0.spaces[sp].root, Owned(t, sp), s, f);
    }
    forall f | f in s0.data && f !in Owned(t, sp) ensures f in s.data && s.data[f] == s0.data[f] {
      assert TornAt(s0, s0.spaces[sp].root, Owned(t, sp), s, f);
    }
  }

  /** A mapped page's frame holds memory, its own or foreign. */
  lemma LeafFrame(s: State, t: Tree, sp: nat, page: nat)
    requires Shape(s, t) && sp in s.spaces && page in PageMap(s, sp)
    ensures page < USER_PAGES && PageMap(s, sp)[page].present && PageMap(s, sp)[page].frame in s.data
    ensures PageMap(s, sp)[page].flags.foreign ==> PageMap(s, sp)[page].frame in s.outside
  {
    PageMapPoint(s, t, sp, page);
    var q := Place(sp, 1, page / 512);
    assert At(s, t, q);
    assert EntryOk(s, t, q, page % 512);
    var e := PageMap(s, sp)[page];
    assert FrameAt(s, t, e.frame);
    if !e.flags.foreign { assert At(s, t, Child(q, page % 512)); }
  }

  lemma EntryOkAt(s: State, t: Tree, q: Place, i: nat)
    requires Shape(s, t) && IsTable(s, t, q) && 2 <= q.level <= 4 && i < Slots(q.level)
    ensures EntryAt(s, t, q, i).present ==> !EntryAt(s, t, q, i).flags.huge
    ensures !EntryAt(s, t, q, i).present ==> Child(q, i) !in t.node
  {
    assert At(s, t, q);
    assert EntryOk(s, t, q, i);
    ChildHangs(s, t, q, i);
  }

  /** Tearing the half-made copy down takes none of the memory that was in use before. */
  lemma DestroyedCopy(s: State, s0: State, s1: State, t1: Tree, s2: State, src: nat, dst: nat)
    requires dst !in s.spaces && s0.data == s.data && s0.spaces.Keys == s.spaces.Keys + {dst}
    requires CopyHeld(s0, s1, t1, src, dst)
    requires forall f :: f in s1.data && f !in Owned(t1, dst) ==> f in s2.data && s2.data[f] == s1.data[f]
    ensures MemoryKept(s, s2)
  {
  }

  /** How far the copying has come, and that what it has is paid for; told to those who ask. */
  ghost predicate CopyGoes(s0: State, t0: Tree, s: State, t: Tree, src: nat, dst: nat, k: nat, c: nat, ok: bool) {
    forall u {:trigger Told(u)} :: u == t0 ==>
      && CopyHeld(s0, s, t, src, dst) && CopyBilled(s0, t0, s, t, src, dst, ok)
      && (ok ==> CopiedBelow(s, src, dst, k, c))
  }

  /** As with `Asked`. */
  ghost predicate Told(t: Tree) {
    true
  }

  lemma CopyGoesFirst(s: State, t: Tree, src: nat, dst: nat)
    requires Inv(s, t) && src in s.spaces && dst in s.spaces && src != dst && PageMap(s, dst) == map[]
    requires forall f :: f in Owned(t, dst) ==> f !in s.data
    ensures CopyGoes(s, t, s, t, src, dst, 3, 0, true)
  {
    CopyStart(s, t, src, dst);
    assert CopyHeld(s, s, t, src, dst) && CopiedBelow(s, src, dst, 3, 0);
  }

  /** A copy that has failed has failed, however far it was to go. */
  lemma CopyFails(s0: State, t0: Tree, s: State, t: Tree, src: nat, dst: nat, k: nat, c: nat, c': nat)
    requires CopyGoes(s0, t0, s, t, src, dst, k, c, false)
    ensures CopyGoes(s0, t0, s, t, src, dst, k, c', false)
  {
    assert Told(t0);
  }

  lemma CopyGoesDown(s0: State, t0: Tree, s: State, t: Tree, src: nat, dst: nat, k: nat, c: nat)
    requires 1 <= k <= 3 && CopyGoes(s0, t0, s, t, src, dst, k, c, true)
    ensures CopyGoes(s0, t0, s, t, src, dst, k - 1, c * 512, true)
  {
    assert Told(t0);
    CopiedDown(s, src, dst, k, c);
  }

  lemma CopyGoesUp(s0: State, t0: Tree, s: State, t: Tree, src: nat, dst: nat, k: nat, c: nat, ok: bool)
    requires 1 <= k <= 3 && CopyGoes(s0, t0, s, t, src, dst, k - 1, c * 512, ok)
    ensures CopyGoes(s0, t0, s, t, src, dst, k, c, ok)
  {
    assert Told(t0);
    if ok { CopiedUp(s, src, dst, k, c); }
  }

  /** A slot with nothing under it is copied by doing nothing. */
  lemma CopyGoesPast(s0: State, t0: Tree, s: State, t: Tree, src: nat, dst: nat, level: nat, prefix: nat, i: nat)
    requires 1 <= level <= 4 && i < Slots(level)
    requires CopyGoes(s0, t0, s, t, src, dst, level - 1, prefix * 512 + i, true)
    requires Shape(s, t) && IsTable(s, t, Place(src, level, prefix)) && src in s.spaces && dst in s.spaces
    requires !EntryAt(s, t, Place(src, level, prefix), i).present
    ensures CopyGoes(s0, t0, s, t, src, dst, level - 1, prefix * 512 + i + 1, true)
  {
    assert Told(t0);
    if level == 1 {
      SlotPage(s, t, src, prefix, i);
      CopiedHole(s, src, dst, prefix * 512 + i);
    } else {
      EntryOkAt(s, t, Place(src, level, prefix), i);
      CopiedSkip(s, t, src, dst, level - 1, prefix * 512 + i);
    }
  }

  /** What a slot of a page table says about its page, in a copy that has come that far. */
  lemma CopyLeaf(s0: State, t0: Tree, s: State, t: Tree, src: nat, dst: nat, prefix: nat, i: nat)
    requires i < 512 && CopyGoes(s0, t0, s, t, src, dst, 0, prefix * 512 + i, true) && Place(src, 1, prefix) in t.node
    ensures Inv(s, t) && src in s.spaces && dst in s.spaces && src != dst && IsTable(s, t, Place(src, 1, prefix))
    ensures prefix * 512 + i !in PageMap(s, dst)
    ensures var e := EntryAt(s, t, Place(src, 1, prefix), i);
      e.present ==> prefix * 512 + i in PageMap(s, src) && PageMap(s, src)[prefix * 512 + i] == e
  {
    assert Told(t0) && At(s, t, Place(src, 1, prefix));
    SlotPage(s, t, src, prefix, i);
  }

  /** One page more, or the frames for it are not there. */
  lemma CopyGoesOn(s0: State, t0: Tree, s1: State, t1: Tree, s: State, t: Tree, src: nat, dst: nat, n: nat, e: Entry,
    ok: bool)
    requires CopyGoes(s0, t0, s1, t1, src, dst, 0, n, true) && src in s1.spaces && dst in s1.spaces
    requires Inv(s, t) && OnlySpace(s1, s, dst) && MemoryKept(s1, s) && Grown(t1, t)
    requires forall f :: f in t.loc ==> f in t1.loc || f in s1.free
    requires n in PageMap(s1, src) && PageBilled(s1, t1, s, t, PageMap(s1, src)[n], dst, n, ok)
    requires ok ==> PageMap(s, dst) == PageMap(s1, dst)[n := e] && Matches(s, PageMap(s1, src)[n], e)
    ensures CopyGoes(s0, t0, s, t, src, dst, 0, n + 1, ok)
  {
    assert Told(t0);
    CopyHeldTrans(s0, s1, s, t1, t, src, dst);
    CopyStep(s0, t0, s1, t1, s, t, src, dst, n, ok);
    if ok { CopiedPage(s1, s, src, dst, n, e); }
  }

  /** A new space has its root and nothing else. */
  lemma NeedsAreNew(s: State, t: Tree, t': Tree, m: map<nat, Entry>, sp: nat)
    requires Shape(s, t) && sp !in s.spaces && Adds(t, t', {Place(sp, 4, 0)})
    ensures CopyNeeds(m, sp) - t'.node.Keys == CopyNeeds(m, sp)
  {
    AddsKeys(t, t', {Place(sp, 4, 0)});
    forall q | q in CopyNeeds(m, sp) ensures q !in t'.node.Keys {
      assert q in t.node ==> At(s, t, q);
    }
  }

  /** A copy has a place for everything it maps. */
  lemma NeedsArePlaced(s: State, t: Tree, m: map<nat, Entry>, src: nat, dst: nat)
    requires Shape(s, t) && src in s.spaces && dst in s.spaces && m == PageMap(s, src) && IsCopy(s, src, dst)
    ensures CopyNeeds(m, dst) <= t.node.Keys
  {
    forall q | q in CopyNeeds(m, dst) ensures q in t.node.Keys {
      var n :| n in m && q in PageNeeds(m[n], dst, n);
      assert Matches(s, m[n], PageMap(s, dst)[n]);
      PageMapPoint(s, t, dst, n);
      if q.level == 0 { PrivatePlace(s, t, dst, n); } else { AncestorsPlaced(s, t, dst, n, q.level); }
    }
  }

  /** A space that maps nothing yet has no memory to lose. */
  lemma NothingOwned(s: State, t: Tree, sp: nat)
    requires Shape(s, t) && sp in s.spaces && PageMap(s, sp) == map[]
    ensures forall f :: f in Owned(t, sp) ==> f !in s.data
  {
    forall f | f in Owned(t, sp) ensures f !in s.data {
      if f in s.data { OwnedMemory(s, t, sp, f); }
    }
  }

  // --- runs

  datatype Request =
    | Create(sp: nat, heapOk: bool)
    | Anonymous(sp: nat, start: nat, count: nat, flags: Flags)
    | Shared(sp: nat, page: nat, frame: nat, flags: Flags)
    | Unmap(sp: nat, start: nat, count: nat)
    | Reflag(sp: nat, start: nat, count: nat, flags: Flags)
    | Fork(src: nat, dst: nat, heapOk: bool)
    | Destroy(sp: nat)

  /** Frames owned elsewhere are still owned elsewhere, not free, with the same bytes. */
  ghost predicate ForeignUntouched(s0: State, s: State) {
    && s.outside == s0.outside
    && forall f :: f in s0.outside ==> f !in s.free && f in s0.data && f in s.data && s.data[f] == s0.data[f]
  }

  lemma ForeignStart(s: State, t: Tree)
    requires Shape(s, t)
    ensures ForeignUntouched(s, s)
  {
    forall f | f in s.outside ensures f !in s.free && f in s.data {
      assert FrameAt(s, t, f);
    }
  }

  lemma ForeignKept(s0: State, s: State, t: Tree)
    requires Shape(s, t) && s.outside == s0.outside
    requires forall f :: f in s0.outside ==> f in s0.data && f in s.data && s.data[f] == s0.data[f]
    ensures ForeignUntouched(s0, s)
  {
    ForeignStart(s, t);
  }

  lemma ForeignTrans(s0: State, s1: State, s2: State)
    requires ForeignUntouched(s0, s1) && ForeignUntouched(s1, s2)
    ensures ForeignUntouched(s0, s2)
  {
  }

  lemma OutsideNotOwned(s: State, t: Tree, sp: nat)
    requires Shape(s, t)
    ensures forall f :: f in s.outside ==> f in s.data && f !in Owned(t, sp)
  {
    forall f | f in s.outside ensures f in s.data && f !in Owned(t, sp) {
      assert FrameAt(s, t, f);
    }
  }

  /** What `protect` does to a mapped page. */
  lemma ReflagDone(s: State, t: Tree, sp: nat, page: nat, pt: nat, flags: Flags)
    requires Inv(s, t) && sp in s.spaces && page < USER_PAGES && PathAt(s, t, sp, page, 1, pt, false)
    requires page in PageMap(s, sp)
    ensures var e := Entry(true, PageMap(s, sp)[page].frame, flags);
      var s' := SetLeaf(s, sp, pt, page % 512, e, s.spaces[sp].resident);
      && s' == WithFlags(s, sp, page, pt, PageMap(s, sp)[page].frame, flags)
      && OnlySpace(s, s', sp) && PageMap(s', sp) == PageMap(s, sp)[page := e]
      && (MayReflag(PageMap(s, sp)[page], flags) ==> KeepsAccount(s, sp, page, flags))
      && (KeepsAccount(s, sp, page, flags) ==> Inv(s', t))
      && ((exists t' :: Inv(s', t')) <==> KeepsAccount(s, sp, page, flags))
  {
    var s' := WithFlags(s, sp, page, pt, PageMap(s, sp)[page].frame, flags);
    ReflagExactly(s, t, sp, page, pt, flags);
    if PageMap(s, sp)[page].flags.user { UserIsOpen(s, t, sp, page); }
    forall r | r in s.spaces
      ensures s'.spaces[r].root == s.spaces[r].root && (r != sp ==> PageMap(s', r) == PageMap(s, r))
    {
      ReflagMap(s, t, sp, page, pt, flags, r);
    }
    ReflagMap(s, t, sp, page, pt, flags, sp);
  }

  /** The page's entry, and nothing else, has the new flags. */
  ghost predicate LeafReflagged(s: State, t: Tree, s': State, sp: nat, page: nat, flags: Flags)
    requires sp in s.spaces && page in PageMap(s, sp)
  {
    exists pt :: PathAt(s, t, sp, page, 1, pt, false) &&
      s' == WithFlags(s, sp, page, pt, PageMap(s, sp)[page].frame, flags)
  }

  class AddressSpaces {
    var st: State
    ghost var tree: Tree

    ghost predicate Valid()
      reads this
    {
      Inv(st, tree)
    }

    /** The contract of `Physical.PageAllocator.AllocatePage`, on the set of free frames. */
    method TakeFrame() returns (r: Result<nat>)
      ensures if st.free == {} then r == Err(ENOMEM) else r.Ok? && Physical.IsLowest(r.value, st.free)
    {
      if st.free == {} {
        return Err(ENOMEM);
      }
      Physical.LowestExists(st.free);
      var f :| f in st.free && forall g :: g in st.free ==> f <= g;
      return Ok(f);
    }

    method EnsureTable(frame: nat, i: nat, user: bool, ghost q: Place) returns (r: Result<nat>)
      requires Valid() && IsTable(st, tree, q) && tree.node[q] == frame
      requires 2 <= q.level <= 4 && i < Slots(q.level)
      requires user && q.level < 4 ==> UserAbove(st, tree, q)
      modifies this
      ensures Silent(old(st), old(tree), st, tree)
      ensures r.Err? ==> r.error == ENOMEM && st == old(st) && !old(EntryAt(st, tree, q, i).present)
      ensures r.Err? ==> tree == old(tree) && st.free == {} && Child(q, i) !in tree.node.Keys
      ensures r.Ok? ==> Paid(old(st), old(tree), st, tree, {Child(q, i)})
      ensures r.Ok? ==> IsTable(st, tree, Child(q, i)) && tree.node[Child(q, i)] == r.value
      ensures r.Ok? && user ==> IsTable(st, tree, q) && EntryAt(st, tree, q, i).flags.user
    {
      ChildHangs(st, tree, q, i);
      if !st.tables[frame][i].present {
        var page := TakeFrame();
        if page.Err? {
          return page;
        }
        LinkSilent(st, tree, q, i, page.value);
        LinkPaid(st, tree, q, i, page.value);
        st := LinkTable(st, frame, i, page.value);
        tree := Grow(tree, Child(q, i), page.value);
      }
      ghost var s1 := st;
      assert Silent(old(st), old(tree), st, tree);
      if user {
        GrantSilent(st, tree, q, i);
        st := GrantUser(st, frame, i);
        SilentTrans(old(st), old(tree), s1, tree, st, tree);
      }
      InnerEntry(st, tree, q, i);
      if st.tables[frame][i].flags.huge {
        return Err(EEXIST);
      }
      return Ok(st.tables[frame][i].frame);
    }

    /** One step down towards the page table of `page`. */
    method EnsureBelow(frame: nat, sp: nat, page: nat, level: nat, user: bool) returns (r: Result<nat>)
      requires Valid() && sp in st.spaces && page < USER_PAGES && 2 <= level <= 4
      requires PathAt(st, tree, sp, page, level, frame, user)
      modifies this
      ensures Silent(old(st), old(tree), st, tree)
      ensures r.Err? ==> r.error == ENOMEM && page !in PageMap(st, sp)
      ensures r.Ok? ==> PathAt(st, tree, sp, page, level - 1, r.value, user)
      ensures StepBilled(old(st), old(tree), st, tree, sp, page, level - 1, r.Ok?)
    {
      ghost var q := Place(sp, level, Prefix(page, level));
      TopIndex(page);
      Descend(sp, page, level);
      if page in PageMap(st, sp) { MappedInner(st, tree, sp, page, level); }
      assert Child(q, Index(page, level)) == Above(sp, page, level - 1);
      r := EnsureTable(frame, Index(page, level), user, q);
    }

    /** The first three steps of `map`: the page table of a page, made if need be. */
    method EnsureLeafTable(sp: nat, page: nat, user: bool) returns (r: Result<nat>)
      requires Valid() && sp in st.spaces && page < USER_PAGES
      modifies this
      ensures Silent(old(st), old(tree), st, tree)
      ensures r.Err? ==> r.error == ENOMEM && page !in PageMap(st, sp)
      ensures r.Ok? ==> PathAt(st, tree, sp, page, 1, r.value, user)
      ensures TablesBilled(old(st), old(tree), st, tree, sp, page, r.Ok?)
    {
      RootPath(st, tree, sp, page, user);
      DownStart(st, tree, sp, page);
      r := Ok(st.spaces[sp].root);
      var level := 4;
      while level > 1
        invariant 1 <= level <= 4
        invariant Silent(old(st), old(tree), st, tree)
        invariant r.Ok? && PathAt(st, tree, sp, page, level, r.value, user)
        invariant DownBilled(old(st), old(tree), st, tree, sp, page, level)
      {
        ghost var s1, t1 := st, tree;
        r := EnsureBelow(r.value, sp, page, level, user);
        SilentTrans(old(st), old(tree), s1, t1, st, tree);
        if r.Err? {
          DownEnds(old(st), old(tree), s1, t1, st, tree, sp, page, level);
          return;
        }
        DownStep(old(st), old(tree), s1, t1, st, tree, sp, page, level);
        level := level - 1;
      }
      DownDone(old(st), old(tree), st, tree, sp, page);
    }

    /**
     * Maps one page. EEXIST exactly when the page is mapped already; ENOMEM when a table could
     * not be had; a failed call changes no translation of any space.
     */
    method Map(sp: nat, page: nat, frame: nat, flags: Flags) returns (r: Result<()>)
      requires Valid() && sp in st.spaces && page < USER_PAGES
      requires if flags.foreign then frame in st.outside
               else frame in st.data && frame !in tree.loc && frame !in st.outside
      modifies this
      ensures Valid() && OnlySpace(old(st), st, sp) && st.data == old(st.data) && Grown(old(tree), tree)
      ensures forall f :: f in tree.loc ==> f in old(tree.loc) || f in old(st.free) || f == frame
      ensures r.Err? ==> frame !in tree.loc || frame in old(tree.loc)
      ensures forall f :: f in st.free ==> f in old(st.free)
      ensures r == Err(EEXIST) <==> page in old(PageMap(st, sp))
      ensures r.Err? ==> r.error in {EEXIST, ENOMEM} && PageMap(st, sp) == old(PageMap(st, sp))
      ensures r.Ok? ==> PageMap(st, sp) == old(PageMap(st, sp))[page := Entry(true, frame, flags)]
      ensures Billed(old(st), old(tree), st, tree, sp, page, flags.foreign, r)
    {
      assert FrameAt(st, tree, frame);
      var pt := EnsureLeafTable(sp, page, flags.user);
      ghost var s1, t1 := st, tree;
      SilentOnly(old(st), old(tree), s1, t1, sp);
      if pt.Err? {
        RefusalBilled(old(st), old(tree), st, tree, sp, page, flags.foreign, pt.error);
        return Err(pt.error);
      }
      LeafOfPath(st, tree, sp, page, pt.value, flags.user);
      if st.tables[pt.value][page % 512].present {
        RefusalBilled(old(st), old(tree), st, tree, sp, page, flags.foreign, EEXIST);
        return Err(EEXIST);
      }
      WriteLeaf(sp, page, frame, flags, pt.value);
      LeafBilled(old(st), old(tree), s1, t1, st, sp, page, frame, flags);
      SilentThenLeaf(old(st), old(tree), s1, t1, st, sp);
      return Ok(());
    }

    /** The end of `map`: the entry and the resident count. */
    method WriteLeaf(sp: nat, page: nat, frame: nat, flags: Flags, pt: nat)
      requires Valid() && sp in st.spaces && page < USER_PAGES && PathAt(st, tree, sp, page, 1, pt, flags.user)
      requires !st.tables[pt][page % 512].present
      requires if flags.foreign then frame in st.outside
               else frame in st.data && frame !in tree.loc && frame !in st.outside
      modifies this
      ensures Valid() && OnlySpace(old(st), st, sp) && st.data == old(st.data) && st.free == old(st.free)
      ensures Place(sp, 0, page) !in old(tree.node) && tree == LeafTree(old(tree), sp, page, frame, flags)
      ensures Grown(old(tree), tree)
      ensures PageMap(st, sp) == old(PageMap(st, sp))[page := Entry(true, frame, flags)]
    {
      FreshLeafKeeps(st, tree, sp, page, frame, flags, pt);
      st := SetLeaf(st, sp, pt, page % 512, Entry(true, frame, flags), st.spaces[sp].resident + 1);
      tree := LeafTree(tree, sp, page, frame, flags);
    }

    /** The page table of a page, if the walk gets that far. */
    method WalkToLeafTable(sp: nat, page: nat) returns (r: Option<nat>)
      requires Valid() && sp in st.spaces && page < USER_PAGES
      ensures r.None? ==> page !in PageMap(st, sp)
      ensures r.Some? ==> PathAt(st, tree, sp, page, 1, r.value, false)
    {
      RootPath(st, tree, sp, page, false);
      var table := st.spaces[sp].root;
      var level := 4;
      while level > 1
        invariant 1 <= level <= 4 && PathAt(st, tree, sp, page, level, table, false)
      {
        WalkStep(st, tree, sp, page, level, table);
        var entry := st.tables[table][Index(page, level)];
        if !entry.present || entry.flags.huge {
          return None;
        }
        table := entry.frame;
        level := level - 1;
      }
      return Some(table);
    }

    /** Translation is lookup in the page map, plus the offset. */
    method Translate(sp: nat, address: nat) returns (r: Result<nat>)
      requires Valid() && sp in st.spaces && address < USER_SPACE_END
      ensures address / 4096 !in PageMap(st, sp) ==> r == Err(EFAULT)
      ensures address / 4096 in PageMap(st, sp) ==>
        r == Ok(PageMap(st, sp)[address / 4096].frame * 4096 + address % 4096)
    {
      var page := address / 4096;
      RootPath(st, tree, sp, page, false);
      var table := st.spaces[sp].root;
      var level := 4;
      while level > 1
        invariant 1 <= level <= 4 && PathAt(st, tree, sp, page, level, table, false)
      {
        WalkStep(st, tree, sp, page, level, table);
        var entry := st.tables[table][Index(page, level)];
        var size := [1, 0x1000, 0x20_0000, 0x4000_0000, 0x80_0000_0000][level];
        var large: Result<nat> := Ok(entry.frame * 4096 + address % size);
        if !entry.present {
          return Err(EFAULT);
        }
        if entry.flags.huge {
          return large;
        }
        table := entry.frame;
        level := level - 1;
      }
      LeafOfPath(st, tree, sp, page, table, false);
      var entry := st.tables[table][page % 512];
      if !entry.present {
        return Err(EFAULT);
      }
      assert entry == PageMap(st, sp)[page];
      return Ok(entry.frame * 4096 + address % 4096);
    }

    /**
     * True exactly when every byte of the range is in the user half, mapped, open to user mode
     * and, for a write, writable; addresses wrap as 64-bit addition does.
     */
    method ValidateUserRange(sp: nat, address: nat, length: nat, forWrite: bool) returns (ok: bool)
      requires Valid() && sp in st.spaces && address < TWO_64 && length < TWO_64
      ensures ok <==> RangeValid(PageMap(st, sp), address, length, forWrite)
      ensures ok <==>
        && address + length <= USER_SPACE_END
        && forall a: nat :: address <= a < address + length ==>
          var (user, writable) := WalkPermissions(st.tables, st.spaces[sp].root, 4, a / 4096);
          user && (forWrite ==> writable)
    {
      RangeIsGranted(st, tree, sp, address, length, forWrite);
      if length > 0 { PagesCoverBytes(PageMap(st, sp), address, length, forWrite); }
      var end := (address + length) % TWO_64;
      if end < address || end > USER_SPACE_END {
        return false;
      }
      if length == 0 {
        return true;
      }
      var page := address / 4096;
      var last := (end + 4095) / 4096;
      while page < last
        invariant address / 4096 <= page <= last
        invariant forall n: nat :: address / 4096 <= n < page ==> Accessible(PageMap(st, sp), n, forWrite)
      {
        var pt := WalkToLeafTable(sp, page);
        if pt.None? {
          assert !Accessible(PageMap(st, sp), page, forWrite);
          return false;
        }
        LeafOfPath(st, tree, sp, page, pt.value, false);
        var entry := st.tables[pt.value][page % 512];
        if !entry.present || !entry.flags.user || (forWrite && !entry.flags.writable) {
          assert !Accessible(PageMap(st, sp), page, forWrite);
          return false;
        }
        page := page + 1;
      }
      return true;
    }

    /** Removes exactly one page from one map; the frame is not given back. */
    method Unmap(sp: nat, page: nat)
      requires Valid() && sp in st.spaces && page < USER_PAGES
      modifies this
      ensures Valid() && OnlySpace(old(st), st, sp)
      ensures PageMap(st, sp) == old(PageMap(st, sp)) - {page}
      ensures st.data == old(st.data) && st.free == old(st.free)
    {
      MinusAbsent(PageMap(st, sp), page);
      var pt := WalkToLeafTable(sp, page);
      if pt.None? {
        return;
      }
      LeafOfPath(st, tree, sp, page, pt.value, false);
      if !st.tables[pt.value][page % 512].present {
        return;
      }
      ClearLeafKeeps(st, tree, sp, page, pt.value);
      st := SetLeaf(st, sp, pt.value, page % 512, ZERO, st.spaces[sp].resident - 1);
      tree := Prune(tree, Place(sp, 0, page));
    }

    method UnmapRange(sp: nat, start: nat, count: nat)
      requires Valid() && sp in st.spaces && start + count <= USER_PAGES
      modifies this
      ensures Unmapped(old(st), st, tree, sp, start, count)
    {
      for k := 0 to count
        invariant Unmapped(old(st), st, tree, sp, start, k)
      {
        ghost var s1 := st;
        Unmap(sp, start + k);
        UnmappedStep(old(st), s1, st, tree, sp, start, k);
      }
    }

    /** Keeps the frames and replaces the permissions, up to the first page that is not mapped. */
    method Protect(sp: nat, start: nat, count: nat, flags: Flags) returns (r: Result<()>)
      requires Valid() && sp in st.spaces && start + count <= USER_PAGES
      requires forall n :: n in PageMap(st, sp) && InRange(n, start, count) ==> MayReflag(PageMap(st, sp)[n], flags)
      modifies this
      ensures Protected(old(st), st, tree, sp, start, Mapped(old(PageMap(st, sp)), start, count), flags)
      ensures r == if Mapped(old(PageMap(st, sp)), start, count) == count then Ok(()) else Err(EFAULT)
    {
      ghost var m0 := PageMap(st, sp);
      for k := 0 to count
        invariant Protected(old(st), st, tree, sp, start, k, flags)
        invariant Mapped(m0, start, count) == k + Mapped(m0, start + k, count - k)
      {
        ghost var s1 := st;
        r := ProtectPage(sp, start + k, flags);
        if r.Err? {
          return;
        }
        ProtectedStep(old(st), s1, st, tree, sp, start, k, flags);
      }
      return Ok(());
    }

    /** One page, whatever the flags. A sound account of the frames is left exactly if they keep it. */
    method ProtectPage(sp: nat, page: nat, flags: Flags) returns (r: Result<()>)
      requires Valid() && sp in st.spaces && page < USER_PAGES
      modifies this
      ensures page !in old(PageMap(st, sp)) ==> r == Err(EFAULT) && st == old(st) && tree == old(tree)
      ensures page in old(PageMap(st, sp)) ==>
        && r == Ok(()) && OnlySpace(old(st), st, sp) && st.data == old(st.data) && st.free == old(st.free)
        && PageMap(st, sp) == old(PageMap(st, sp)[page := Entry(true, PageMap(st, sp)[page].frame, flags)])
      ensures page in old(PageMap(st, sp)) ==>
        && tree == old(tree) && ((exists t :: Inv(st, t)) <==> old(KeepsAccount(st, sp, page, flags)))
        && LeafReflagged(old(st), old(tree), st, sp, page, flags)
        && (old(KeepsAccount(st, sp, page, flags)) || MayReflag(old(PageMap(st, sp)[page]), flags) ==> Valid())
    {
      var pt := WalkToLeafTable(sp, page);
      if pt.None? {
        return Err(EFAULT);
      }
      LeafOfPath(st, tree, sp, page, pt.value, false);
      var e := st.tables[pt.value][page % 512];
      if !e.present {
        return Err(EFAULT);
      }
      ReflagDone(st, tree, sp, page, pt.value, flags);
      st := SetLeaf(st, sp, pt.value, page % 512, Entry(true, e.frame, flags), st.spaces[sp].resident);
      return Ok(());
    }

    /**
     * Fills the holes of a range with fresh zeroed memory, leaving what is mapped alone. It fails
     * exactly when the frames it needs are more than are free; then every page of the range before
     * the one that could not be had is unmapped, whether this call had mapped it or not.
     */
    method MapAnonymous(sp: nat, start: nat, count: nat, flags: Flags) returns (r: Result<()>)
      requires Valid() && sp in st.spaces && start + count <= USER_PAGES && !flags.foreign
      modifies this
      ensures Valid() && OnlySpace(old(st), st, sp) && MemoryKept(old(st), st)
      ensures r.Ok? ==> Filled(old(st), st, sp, start, count, flags)
      ensures Outcome(old(PageMap(st, sp)), old(tree.node.Keys), sp, start, count, old(|st.free|), r, PageMap(st, sp))
      ensures r.Ok? ==> RangeBilled(old(st), old(tree), st, tree, old(PageMap(st, sp)), sp, start, count)
    {
      FillingStart(st, tree, sp, start, flags);
      for k := 0 to count
        invariant Filling(old(st), old(tree), st, tree, sp, start, k, flags)
      {
        ghost var s1, t1 := st, tree;
        r := FillPage(sp, start + k, flags);
        if r.Err? {
          RollBack(sp, start, k, count, flags, old(st), old(tree), s1, t1);
          return;
        }
        FillingStep(old(st), old(tree), s1, t1, st, tree, sp, start, k, flags);
      }
      OutcomeOk(old(st), old(tree), st, tree, old(PageMap(st, sp)), sp, start, count, PageMap(st, sp));
      return Ok(());
    }

    /** The way out of `map_anonymous`: everything before the page that could not be had goes. */
    method RollBack(sp: nat, start: nat, k: nat, ghost count: nat, ghost flags: Flags, ghost s0: State, ghost t0: Tree,
      ghost s1: State, ghost t1: Tree)
      requires Valid() && sp in st.spaces && k < count && start + count <= USER_PAGES
      requires Filling(s0, t0, s1, t1, sp, start, k, flags) && start + k !in PageMap(s1, sp)
      requires OnlySpace(s1, st, sp) && MemoryKept(s1, st) && PageMap(st, sp) == PageMap(s1, sp)
      requires PathBilled(s1, t1, st, tree, sp, start + k, false)
      modifies this
      ensures Valid() && OnlySpace(s0, st, sp) && MemoryKept(s0, st)
      ensures Outcome(PageMap(s0, sp), t0.node.Keys, sp, start, count, |s0.free|, Err(ENOMEM), PageMap(st, sp))
    {
      FillingEnds(s0, t0, s1, t1, st, tree, sp, start, k, count, flags);
      ghost var s2 := st;
      UnmapRange(sp, start, k);
      OnlySpaceTrans(s0, s2, st, sp);
    }

    /** One page of `map_anonymous`. */
    method FillPage(sp: nat, page: nat, flags: Flags) returns (r: Result<()>)
      requires Valid() && sp in st.spaces && page < USER_PAGES && !flags.foreign
      modifies this
      ensures Valid() && OnlySpace(old(st), st, sp) && MemoryKept(old(st), st)
      ensures forall f :: f in st.free ==> f in old(st.free)
      ensures r.Err? ==> r.error == ENOMEM && page !in old(PageMap(st, sp))
      ensures r.Err? ==> PageMap(st, sp) == old(PageMap(st, sp))
      ensures page in old(PageMap(st, sp)) ==> st == old(st) && tree == old(tree)
      ensures r.Ok? && page !in old(PageMap(st, sp)) ==> Fresh(old(st), st, sp, page, flags)
      ensures page !in old(PageMap(st, sp)) ==> PathBilled(old(st), old(tree), st, tree, sp, page, r.Ok?)
    {
      var there := Translate(sp, page * 4096);
      if there.Ok? {
        return Ok(());
      }
      r := FillHole(sp, page, flags);
    }

    /** A zeroed frame for a page that has none. */
    method FillHole(sp: nat, page: nat, flags: Flags) returns (r: Result<()>)
      requires Valid() && sp in st.spaces && page < USER_PAGES && !flags.foreign && page !in PageMap(st, sp)
      modifies this
      ensures Valid() && OnlySpace(old(st), st, sp) && MemoryKept(old(st), st)
      ensures forall f :: f in st.free ==> f in old(st.free)
      ensures r.Err? ==> r.error == ENOMEM && PageMap(st, sp) == old(PageMap(st, sp))
      ensures r.Ok? ==> Fresh(old(st), st, sp, page, flags)
      ensures PathBilled(old(st), old(tree), st, tree, sp, page, r.Ok?)
    {
      HoleUnplaced(st, tree, sp, page);
      var frame := AllocateZeroedPage();
      if frame.Err? {
        NothingFree(st, tree, st, tree, sp, page);
        return Err(frame.error);
      }
      r := PlaceFrame(sp, page, flags, frame.value, ZeroPage(), old(st));
    }

    /** The frame just taken is mapped, or given back. */
    method PlaceFrame(sp: nat, page: nat, flags: Flags, frame: nat, ghost content: Page, ghost before: State)
      returns (r: Result<()>)
      requires Valid() && sp in before.spaces && page < USER_PAGES && !flags.foreign
      requires page !in PageMap(before, sp) && Place(sp, 0, page) !in tree.node
      requires frame !in before.data && frame !in before.outside && frame !in tree.loc
      requires frame in before.free && st == TakeData(before, frame, content) && |st.free| == |before.free| - 1
      requires forall q :: q in before.spaces ==> PageMap(st, q) == PageMap(before, q)
      modifies this
      ensures Valid() && OnlySpace(before, st, sp) && MemoryKept(before, st)
      ensures forall f :: f in st.free ==> f in before.free
      ensures r.Err? ==> r.error == ENOMEM && PageMap(st, sp) == PageMap(before, sp)
      ensures r.Ok? ==>
        && frame in st.data && st.data[frame] == content
        && PageMap(st, sp) == PageMap(before, sp)[page := Entry(true, frame, flags)]
      ensures Grown(old(tree), tree) && forall f :: f in tree.loc ==> f in old(tree.loc) || f in before.free
      ensures PathBilled(before, old(tree), st, tree, sp, page, r.Ok?)
    {
      ghost var s1 := st;
      assert forall f :: f in s1.free ==> f in before.free;
      r := MapTaken(sp, page, frame, flags, before);
      assert forall f :: f in tree.loc ==> f in old(tree.loc) || f in before.free;
      if r.Ok? {
        HoleFilled(before, s1, st, sp, page, flags, frame, content);
      } else {
        GiveBack(sp, page, frame, content, before, s1, old(tree));
      }
    }

    /** A frame that counts as spent already is mapped, if the tables for it can be had. */
    method MapTaken(sp: nat, page: nat, frame: nat, flags: Flags, ghost before: State) returns (r: Result<()>)
      requires Valid() && sp in st.spaces && page < USER_PAGES && !flags.foreign && |st.free| == |before.free| - 1
      requires page !in PageMap(st, sp) && Place(sp, 0, page) !in tree.node
      requires frame in st.data && frame !in st.outside && frame !in tree.loc
      modifies this
      ensures Valid() && OnlySpace(old(st), st, sp) && st.data == old(st.data) && Grown(old(tree), tree)
      ensures forall f :: f in tree.loc ==> f in old(tree.loc) || f in old(st.free) || f == frame
      ensures forall f :: f in st.free ==> f in old(st.free)
      ensures r.Err? ==> r.error == ENOMEM && frame !in tree.loc && PageMap(st, sp) == old(PageMap(st, sp))
      ensures r.Ok? ==> PageMap(st, sp) == old(PageMap(st, sp))[page := Entry(true, frame, flags)]
      ensures PathBilled(before, old(tree), st, tree, sp, page, r.Ok?)
    {
      r := Map(sp, page, frame, flags);
      FillBilled(before, old(tree), old(st), st, tree, sp, page, r);
    }

    /** The way out when the frame could not be mapped. */
    method GiveBack(sp: nat, ghost page: nat, frame: nat, ghost content: Page, ghost before: State, ghost s1: State,
      ghost t0: Tree)
      requires Valid() && sp in before.spaces && frame in before.free && frame !in before.data && frame !in tree.loc
      requires s1 == TakeData(before, frame, content) && OnlySpace(s1, st, sp) && st.data == s1.data
      requires frame in st.data && frame !in st.outside && PageMap(st, sp) == PageMap(s1, sp)
      requires (forall q :: q in before.spaces ==> PageMap(s1, q) == PageMap(before, q))
      requires (forall f :: f in st.free ==> f in s1.free) && PathBilled(before, t0, st, tree, sp, page, false)
      modifies this`st
      ensures Valid() && OnlySpace(before, st, sp) && MemoryKept(before, st) && PageMap(st, sp) == PageMap(before, sp)
      ensures (forall f :: f in st.free ==> f in before.free) && PathBilled(before, t0, st, tree, sp, page, false)
    {
      FreeUnplaced(frame);
      StillShort(before, t0, old(st), tree, st, tree, sp, page);
      HoleLeft(before, s1, old(st), st, sp, frame, content);
    }

    /** A zeroed frame that belongs to no space yet. */
    method AllocateZeroedPage() returns (r: Result<nat>)
      requires Valid()
      modifies this`st
      ensures r.Err? ==> r.error == ENOMEM && st == old(st) && st.free == {}
      ensures r.Ok? ==> r.value in old(st.free) && st == TakeData(old(st), r.value, ZeroPage()) && Valid()
      ensures r.Ok? ==> r.value !in tree.loc && r.value !in st.outside && r.value !in old(st.data)
      ensures r.Ok? ==> |st.free| == old(|st.free|) - 1
      ensures r.Ok? ==> forall sp :: sp in st.spaces ==> PageMap(st, sp) == old(PageMap(st, sp))
    {
      r := TakeFrame();
      if r.Ok? {
        TakeDataKeeps(st, tree, r.value, ZeroPage());
        OneTaken(st, r.value, ZeroPage());
        st := TakeData(st, r.value, ZeroPage());
      }
    }

    /** A frame no space ever got, given back. */
    method FreeUnplaced(f: nat)
      requires Valid() && f in st.data && f !in tree.loc && f !in st.outside
      modifies this`st
      ensures Valid() && st == GiveData(old(st), f)
      ensures forall sp :: sp in st.spaces ==> PageMap(st, sp) == old(PageMap(st, sp))
    {
      assert FrameAt(st, tree, f);
      GiveDataKeeps(st, tree, f);
      st := GiveData(st, f);
    }

    /** Another sound account of the same tables: what the code does depends on neither. */
    method Reaccount(f: nat, ghost t: Tree)
      requires Inv(Disown(st, f), t)
      modifies this
      ensures Valid() && st == Disown(old(st), f) && tree == t
    {
      st := Disown(st, f);
      tree := t;
    }

    /** `free_page`: the double-free panic is this precondition. */
    method ReleaseFrame(f: nat)
      requires f !in st.free
      modifies this`st
      ensures st == FreeFrame(old(st), f)
    {
      st := FreeFrame(st, f);
    }

    /**
     * The nested loops of `destroy_user_mappings` below the top level: frees everything under one
     * table, each frame once, reading no table after it is freed.
     */
    method DestroyTable(frame: nat, level: nat, ghost q: Place, ghost s0: State, ghost t0: Tree, ghost done: set<nat>)
      requires Tearing(s0, t0, q, done, st) && q.level == level && t0.node[q] == frame
      modifies this`st
      ensures Torn(s0, s0.spaces[q.space].root,
        done + Span(t0, q.space, level - 1, q.prefix * 512, (q.prefix + 1) * 512), st)
      ensures s0.spaces[q.space].root in st.tables
      ensures st.tables[s0.spaces[q.space].root] == old(st.tables[s0.spaces[q.space].root])
      decreases level
    {
      ghost var root, lo := s0.spaces[q.space].root, q.prefix * 512;
      SpanNext(t0, q.space, level - 1, lo, lo);
      assert done + {} == done;
      for i := 0 to 512
        invariant Torn(s0, root, done + Span(t0, q.space, level - 1, lo, lo + i), st)
        invariant root in st.tables && st.tables[root] == old(st.tables[root])
      {
        ghost var cur := done + Span(t0, q.space, level - 1, lo, lo + i);
        SlotsStand(s0, t0, q, done, i, st);
        DestroyEntry(frame, level, i, q, s0, t0, cur);
        SpanNext(t0, q.space, level - 1, lo, lo + i);
        assert cur + Span(t0, q.space, level - 1, lo + i, lo + i + 1) ==
          done + Span(t0, q.space, level - 1, lo, lo + i + 1);
      }
    }

    /** One entry of a table being torn down. */
    method DestroyEntry(frame: nat, level: nat, i: nat, ghost q: Place, ghost s0: State, ghost t0: Tree,
      ghost cur: set<nat>)
      requires TearingSlot(s0, t0, q, i, cur, st) && q.level == level && t0.node[q] == frame
      modifies this`st
      ensures Torn(s0, s0.spaces[q.space].root,
        cur + Span(t0, q.space, level - 1, q.prefix * 512 + i, q.prefix * 512 + i + 1), st)
      ensures s0.spaces[q.space].root in st.tables
      ensures st.tables[s0.spaces[q.space].root] == old(st.tables[s0.spaces[q.space].root])
      decreases level, 0
    {
      var entry := st.tables[frame][i];
      ghost var c, root := Child(q, i), s0.spaces[q.space].root;
      SlotSpan(s0, t0, q, i, cur, st);
      assert cur + {} == cur;
      if !entry.present {
        return;
      }
      if level > 1 {
        DestroyTable(entry.frame, level - 1, c, s0, t0, cur);
        ghost var below := cur + Span(t0, q.space, level - 2, c.prefix * 512, (c.prefix + 1) * 512);
        ChildStands(s0, t0, q, i, cur, st);
        assert below + {entry.frame} == cur + Span(t0, q.space, level - 1, c.prefix, c.prefix + 1);
        TornFree(s0, root, below, st, entry.frame);
        ReleaseFrame(entry.frame);
      } else if !entry.flags.foreign {
        TornFree(s0, root, cur, st, entry.frame);
        ReleaseFrame(entry.frame);
      }
    }

    /** One top-level slot: everything under it, then the table itself, then the entry. */
    method DestroySlot(sp: nat, i: nat, ghost s0: State, ghost t0: Tree)
      requires TearingRoot(s0, t0, sp, i, st) && i < 256
      modifies this`st
      ensures TearingRoot(s0, t0, sp, i + 1, st)
    {
      var root := st.spaces[sp].root;
      var entry := st.tables[root][i];
      ghost var cur := Span(t0, sp, 3, 0, i);
      ghost var before := st.tables[root];
      RootSlotSpan(s0, t0, sp, i, st);
      SpanNext(t0, sp, 3, 0, i);
      assert cur + {} == cur;
      if entry.present {
        DestroyTable(entry.frame, 3, Place(sp, 3, i), s0, t0, cur);
        ghost var below := cur + Span(t0, sp, 2, i * 512, (i + 1) * 512);
        RootChildStands(s0, t0, sp, i, cur, st);
        assert below + {entry.frame} == Span(t0, sp, 3, 0, i + 1);
        TornFree(s0, root, below, st, entry.frame);
        ReleaseFrame(entry.frame);
        TornRootWrite(s0, root, below + {entry.frame}, st, i, ZERO);
        st := WriteEntry(st, root, i, ZERO);
      }
      assert st.tables[root][i + 1..] == before[i..][1..];
      assert s0.tables[root][i + 1..] == s0.tables[root][i..][1..];
    }

    /**
     * Tears a space down to its root: frees every frame it owns exactly once and no other, so no
     * foreign frame, no kernel table and no other space is touched.
     */
    method DestroyUserMappings(sp: nat)
      requires Valid() && sp in st.spaces
      modifies this
      ensures Valid() && OnlySpace(old(st), st, sp) && PageMap(st, sp) == map[]
      ensures tree == Uprooted(old(tree), sp)
      ensures forall f :: f in st.free <==> f in old(st.free) || f in Owned(old(tree), sp)
      ensures forall f :: f in old(st.data) && f !in Owned(old(tree), sp) ==>
        f in st.data && st.data[f] == old(st.data)[f]
    {
      ghost var s0, t0 := st, tree;
      TornStart(s0, t0, sp);
      for i := 0 to 256
        invariant TearingRoot(s0, t0, sp, i, st)
      {
        DestroySlot(sp, i, s0, t0);
      }
      TornEnd(s0, t0, sp, st);
      TornDownKeeps(s0, t0, sp, st);
      TornDownMemory(s0, t0, sp, st);
      st := Emptied(st, sp);
      tree := Uprooted(t0, sp);
    }

    /** A fresh space: an empty user half and the shared kernel half. */
    method CreateUserSpace(sp: nat, heapOk: bool) returns (r: Result<()>)
      requires Valid() && sp !in st.spaces
      modifies this
      ensures r.Ok? <==> heapOk && old(st.free) != {}
      ensures r.Err? ==> r.error == ENOMEM && st == old(st) && tree == old(tree)
      ensures r.Ok? ==> |st.free| == old(|st.free|) - 1 && Adds(old(tree), tree, {Place(sp, 4, 0)})
      ensures r.Ok? ==>
        && Valid() && st.spaces.Keys == old(st.spaces.Keys) + {sp} && st.data == old(st.data)
        && st.outside == old(st.outside) && PageMap(st, sp) == map[]
        && forall q :: q in old(st.spaces) ==> PageMap(st, q) == old(PageMap(st, q))
    {
      var root := TakeFrame();
      if root.Err? {
        return Err(root.error);
      }
      var table := ZeroTable();
      for i := 256 to 512
        invariant forall j :: 256 <= j < i ==> table[j] == st.kernelHalf[j - 256]
        invariant forall j :: 0 <= j < 256 ==> table[j] == ZERO
      {
        table := table[i := st.kernelHalf[i - 256]];
      }
      if !heapOk {
        return Err(ENOMEM);
      }
      assert table[256..] == st.kernelHalf;
      NewSpaceKeeps(st, tree, sp, root.value, table);
      st := NewSpace(st, sp, root.value, table);
      tree := Grow(tree, Place(sp, 4, 0), root.value);
      return Ok(());
    }

    /** One page of the copy: a foreign frame is shared, any other is copied into a new frame. */
    method ClonePage(src: nat, dst: nat, page: nat, entry: Entry) returns (r: Result<()>, ghost e: Entry)
      requires Valid() && src in st.spaces && dst in st.spaces && src != dst
      requires page in PageMap(st, src) && PageMap(st, src)[page] == entry && page !in PageMap(st, dst)
      modifies this
      ensures Valid() && OnlySpace(old(st), st, dst) && MemoryKept(old(st), st) && Grown(old(tree), tree)
      ensures forall f :: f in tree.loc ==> f in old(tree.loc) || f in old(st.free)
      ensures r.Err? ==> r.error == ENOMEM
      ensures r.Ok? ==>
        PageMap(st, dst) == old(PageMap(st, dst))[page := e] && Matches(st, old(PageMap(st, src)[page]), e)
      ensures PageBilled(old(st), old(tree), st, tree, entry, dst, page, r.Ok?)
    {
      LeafFrame(st, tree, src, page);
      e := entry;
      if entry.flags.foreign {
        r := Map(dst, page, entry.frame, entry.flags);
        assert FrameAt(st, tree, entry.frame);
        ForeignBilled(old(st), old(tree), st, tree, entry, dst, page, r);
        return;
      }
      HoleUnplaced(st, tree, dst, page);
      var frame := TakeFrame();
      if frame.Err? {
        NothingFree(st, tree, st, tree, dst, page);
        PrivateBilled(st, tree, st, tree, entry, dst, page, false);
        return Err(frame.error), e;
      }
      e := Entry(true, frame.value, entry.flags);
      r := CopyFrame(dst, page, entry, frame.value);
    }

    /** The frame just found is filled with the parent's bytes and mapped, or given back. */
    method CopyFrame(dst: nat, page: nat, entry: Entry, frame: nat) returns (r: Result<()>)
      requires Valid() && dst in st.spaces && page < USER_PAGES && page !in PageMap(st, dst)
      requires entry.frame in st.data && !entry.flags.foreign && frame in st.free && Place(dst, 0, page) !in tree.node
      modifies this
      ensures Valid() && OnlySpace(old(st), st, dst) && MemoryKept(old(st), st) && Grown(old(tree), tree)
      ensures forall f :: f in tree.loc ==> f in old(tree.loc) || f in old(st.free)
      ensures r.Err? ==> r.error == ENOMEM
      ensures r.Ok? ==>
        && PageMap(st, dst) == old(PageMap(st, dst))[page := Entry(true, frame, entry.flags)]
        && frame in st.data && st.data[frame] == old(st.data)[entry.frame]
      ensures PageBilled(old(st), old(tree), st, tree, entry, dst, page, r.Ok?)
    {
      var content := st.data[entry.frame];
      assert FrameAt(st, tree, frame);
      OneTaken(st, frame, content);
      TakeDataKeeps(st, tree, frame, content);
      st := TakeData(st, frame, content);
      r := PlaceFrame(dst, page, entry.flags, frame, content, old(st));
      PrivateBilled(old(st), old(tree), st, tree, entry, dst, page, r.Ok?);
    }

    /** One slot of a page table being copied. */
    method CloneLeaf(frame: nat, prefix: nat, i: nat, src: nat, dst: nat, ghost s0: State, ghost t0: Tree)
      returns (r: Result<()>)
      requires i < 512 && CopyGoes(s0, t0, st, tree, src, dst, 0, prefix * 512 + i, true)
      requires Place(src, 1, prefix) in tree.node && tree.node[Place(src, 1, prefix)] == frame
      modifies this
      ensures CopyGoes(s0, t0, st, tree, src, dst, 0, prefix * 512 + i + 1, r.Ok?) && Grown(old(tree), tree)
      ensures r.Err? ==> r.error == ENOMEM
    {
      CopyLeaf(s0, t0, st, tree, src, dst, prefix, i);
      var entry := st.tables[frame][i];
      if !entry.present {
        CopyGoesPast(s0, t0, st, tree, src, dst, 1, prefix, i);
        return Ok(());
      }
      ghost var s1, t1, e := st, tree, entry;
      r, e := ClonePage(src, dst, prefix * 512 + i, entry);
      CopyGoesOn(s0, t0, s1, t1, st, tree, src, dst, prefix * 512 + i, e, r.Ok?);
    }

    /** One slot of a higher table being copied. */
    method CloneInner(frame: nat, level: nat, prefix: nat, i: nat, src: nat, dst: nat, ghost s0: State, ghost t0: Tree)
      returns (r: Result<()>)
      requires 2 <= level <= 4 && i < Slots(level)
      requires CopyGoes(s0, t0, st, tree, src, dst, level - 1, prefix * 512 + i, true)
      requires Place(src, level, prefix) in tree.node && tree.node[Place(src, level, prefix)] == frame
      modifies this
      ensures CopyGoes(s0, t0, st, tree, src, dst, level - 1, prefix * 512 + i + 1, r.Ok?) && Grown(old(tree), tree)
      ensures r.Err? ==> r.error == ENOMEM
      decreases level, 0
    {
      assert Told(t0) && At(st, tree, Place(src, level, prefix));
      var entry := st.tables[frame][i];
      EntryOkAt(st, tree, Place(src, level, prefix), i);
      if !entry.present || (level == 2 && entry.flags.huge) {
        CopyGoesPast(s0, t0, st, tree, src, dst, level, prefix, i);
        return Ok(());
      }
      InnerEntry(st, tree, Place(src, level, prefix), i);
      r := CloneBelow(entry.frame, level - 1, prefix * 512 + i, src, dst, s0, t0);
    }

    /** The table under such a slot. */
    method CloneBelow(frame: nat, level: nat, c: nat, src: nat, dst: nat, ghost s0: State, ghost t0: Tree)
      returns (r: Result<()>)
      requires 1 <= level <= 3 && CopyGoes(s0, t0, st, tree, src, dst, level, c, true)
      requires Place(src, level, c) in tree.node && tree.node[Place(src, level, c)] == frame
      modifies this
      ensures CopyGoes(s0, t0, st, tree, src, dst, level, c + 1, r.Ok?) && Grown(old(tree), tree)
      ensures r.Err? ==> r.error == ENOMEM
      decreases level, 3
    {
      CopyGoesDown(s0, t0, st, tree, src, dst, level, c);
      r := CloneTable(frame, level, c, src, dst, s0, t0);
      CopyGoesUp(s0, t0, st, tree, src, dst, level, c + 1, r.Ok?);
    }

    method CloneSlot(frame: nat, level: nat, prefix: nat, i: nat, src: nat, dst: nat, ghost s0: State, ghost t0: Tree)
      returns (r: Result<()>)
      requires 1 <= level <= 4 && i < Slots(level)
      requires CopyGoes(s0, t0, st, tree, src, dst, level - 1, prefix * 512 + i, true)
      requires Place(src, level, prefix) in tree.node && tree.node[Place(src, level, prefix)] == frame
      modifies this
      ensures CopyGoes(s0, t0, st, tree, src, dst, level - 1, prefix * 512 + i + 1, r.Ok?) && Grown(old(tree), tree)
      ensures r.Err? ==> r.error == ENOMEM
      decreases level, 1
    {
      if level == 1 {
        r := CloneLeaf(frame, prefix, i, src, dst, s0, t0);
      } else {
        r := CloneInner(frame, level, prefix, i, src, dst, s0, t0);
      }
    }

    /** The nested loops of `clone_user_space`, one level at a time. */
    method CloneTable(frame: nat, level: nat, prefix: nat, src: nat, dst: nat, ghost s0: State, ghost t0: Tree)
      returns (r: Result<()>)
      requires 1 <= level <= 4 && CopyGoes(s0, t0, st, tree, src, dst, level - 1, prefix * 512, true)
      requires Place(src, level, prefix) in tree.node && tree.node[Place(src, level, prefix)] == frame
      modifies this
      ensures CopyGoes(s0, t0, st, tree, src, dst, level - 1, prefix * 512 + Slots(level), r.Ok?) &&
        Grown(old(tree), tree)
      ensures r.Err? ==> r.error == ENOMEM
      decreases level, 2
    {
      for i := 0 to Slots(level)
        invariant CopyGoes(s0, t0, st, tree, src, dst, level - 1, prefix * 512 + i, true) && Grown(old(tree), tree)
      {
        r := CloneSlot(frame, level, prefix, i, src, dst, s0, t0);
        if r.Err? {
          CopyFails(s0, t0, st, tree, src, dst, level - 1, prefix * 512 + i + 1, prefix * 512 + Slots(level));
          return;
        }
      }
      return Ok(());
    }

    /**
     * Fork's copy of a user half. On success the new space maps exactly the parent's pages with
     * the parent's flags, foreign frames shared and all others copied; in every case no other
     * space and no memory in use has changed.
     */
    method CloneUserSpace(src: nat, dst: nat, heapOk: bool) returns (r: Result<()>)
      requires Valid() && src in st.spaces && dst !in st.spaces
      modifies this
      ensures Valid() && MemoryKept(old(st), st) && st.outside == old(st.outside)
      ensures forall q :: q in old(st.spaces) ==> q in st.spaces && PageMap(st, q) == old(PageMap(st, q))
      ensures r.Ok? ==> st.spaces.Keys == old(st.spaces.Keys) + {dst} && IsCopy(st, src, dst)
      ensures r.Err? ==> r.error == ENOMEM && st.spaces.Keys == old(st.spaces.Keys)
      ensures r.Ok? <==> heapOk && 1 + |CopyNeeds(old(PageMap(st, src)), dst)| <= old(|st.free|)
    {
      r := CreateUserSpace(dst, heapOk);
      if r.Err? {
        return;
      }
      ghost var s0, t0 := st, tree;
      NeedsAreNew(old(st), old(tree), t0, PageMap(s0, src), dst);
      NothingOwned(st, tree, dst);
      r := CopyPages(src, dst, s0, t0);
      if r.Err? {
        UndoClone(src, dst, old(st), s0);
      }
    }

    /** The copying, into a space that is still empty. */
    method CopyPages(src: nat, dst: nat, ghost s0: State, ghost t0: Tree) returns (r: Result<()>)
      requires Valid() && st == s0 && tree == t0 && src in st.spaces && dst in st.spaces && src != dst
      requires PageMap(st, dst) == map[] && forall f :: f in Owned(tree, dst) ==> f !in st.data
      modifies this
      ensures CopyHeld(s0, st, tree, src, dst)
      ensures r.Ok? ==> IsCopy(st, src, dst)
      ensures r.Err? ==> r.error == ENOMEM
      ensures r.Ok? <==> |CopyNeeds(PageMap(s0, src), dst) - t0.node.Keys| <= |s0.free|
    {
      CopyGoesFirst(s0, t0, src, dst);
      assert RootAt(st, tree, src);
      r := CloneTable(st.spaces[src].root, 4, 0, src, dst, s0, t0);
      assert Told(t0) && Asked(t0);
      if r.Err? {
        return;
      }
      CopiedAll(st, tree, src, dst);
      NeedsArePlaced(st, tree, PageMap(s0, src), src, dst);
      CopyDone(s0, t0, st, tree, src, dst);
    }

    /** A copy that failed is torn down and deleted. */
    method UndoClone(src: nat, dst: nat, ghost before: State, ghost s0: State)
      requires CopyHeld(s0, st, tree, src, dst) && dst !in before.spaces
      requires s0.data == before.data && s0.spaces.Keys == before.spaces.Keys + {dst} && s0.outside == before.outside
      requires forall q :: q in before.spaces ==> PageMap(s0, q) == PageMap(before, q)
      modifies this
      ensures Valid() && MemoryKept(before, st) && st.outside == before.outside && st.spaces.Keys == before.spaces.Keys
      ensures forall q :: q in before.spaces ==> PageMap(st, q) == PageMap(before, q)
    {
      ghost var s1, t1 := st, tree;
      DestroyUserMappings(dst);
      DestroyedCopy(before, s0, s1, t1, st, src, dst);
      DropKeeps(st, tree, dst);
      st := Drop(st, dst);
      tree := Dropped(tree, dst);
    }

    /** After boot: the free frames, what others own, and no user space. */
    constructor (free: set<nat>, shared: map<nat, Page>, kernelHalf: seq<Entry>)
      requires free !! shared.Keys && |kernelHalf| == 256
      ensures Valid() && st == State(map[], shared, free, shared.Keys, map[], kernelHalf) && tree == Tree(map[], map[])
    {
      st := State(map[], shared, free, shared.Keys, map[], kernelHalf);
      tree := Tree(map[], map[]);
      new;
      forall f ensures FrameAt(st, tree, f) { }
    }

    /** Whether the callers of `protect` would ask this of it. */
    method MayProtect(sp: nat, start: nat, count: nat, flags: Flags) returns (ok: bool)
      requires Valid() && sp in st.spaces && start + count <= USER_PAGES
      ensures ok <==>
        forall n :: n in PageMap(st, sp) && InRange(n, start, count) ==> MayReflag(PageMap(st, sp)[n], flags)
    {
      for k := 0 to count
        invariant forall n :: n in PageMap(st, sp) && InRange(n, start, k) ==> MayReflag(PageMap(st, sp)[n], flags)
      {
        var pt := WalkToLeafTable(sp, start + k);
        if pt.Some? {
          LeafOfPath(st, tree, sp, start + k, pt.value, false);
          var e := st.tables[pt.value][(start + k) % 512];
          if e.present && !MayReflag(e, flags) {
            assert InRange(start + k, start, count);
            return false;
          }
        }
      }
      return true;
    }

    /** Runs one request; a request that names no such space or leaves the user half is refused. */
    method Execute(op: Request)
      requires Valid()
      modifies this
      ensures Valid() && ForeignUntouched(old(st), st)
    {
      ghost var s0 := st;
      ForeignStart(st, tree);
      match op {
        case Create(sp, heapOk) =>
          if sp !in st.spaces {
            var _ := CreateUserSpace(sp, heapOk);
          }
        case Anonymous(sp, start, count, flags) =>
          if sp in st.spaces && start + count <= USER_PAGES && !flags.foreign {
            var _ := MapAnonymous(sp, start, count, flags);
          }
        case Shared(sp, page, frame, flags) =>
          if sp in st.spaces && page < USER_PAGES && flags.foreign && frame in st.outside {
            var _ := Map(sp, page, frame, flags);
          }
        case Unmap(sp, start, count) =>
          if sp in st.spaces && start + count <= USER_PAGES {
            UnmapRange(sp, start, count);
          }
        case Reflag(sp, start, count, flags) =>
          if sp in st.spaces && start + count <= USER_PAGES {
            var allowed := MayProtect(sp, start, count, flags);
            if allowed { var _ := Protect(sp, start, count, flags); }
          }
        case Fork(src, dst, heapOk) =>
          if src in st.spaces && dst !in st.spaces {
            var _ := CloneUserSpace(src, dst, heapOk);
          }
        case Destroy(sp) =>
          if sp in st.spaces {
            OutsideNotOwned(st, tree, sp);
            DestroyUserMappings(sp);
          }
      }
      ForeignKept(s0, st, tree);
    }

    /**
     * Every run: whatever is created, mapped, shared, unmapped, protected, forked and torn down, in any
     * order, the invariant holds, no free ever hits a frame that is free already, and foreign
     * frames keep their bytes and are never handed out.
     */
    method Run(ops: seq<Request>)
      requires Valid()
      modifies this
      ensures Valid() && ForeignUntouched(old(st), st)
    {
      ForeignStart(st, tree);
      for i := 0 to |ops|
        invariant Valid() && ForeignUntouched(old(st), st)
      {
        ghost var s1 := st;
        Execute(ops[i]);
        ForeignTrans(old(st), s1, st);
      }
    }
  }
  /** A call that fails takes a page away that it had not mapped: page 0 is mapped, page 1 is not, nothing is free. */
  method LosesPage(m: AddressSpaces, sp: nat, flags: Flags) returns (r: Result<()>)
    requires m.Valid() && sp in m.st.spaces && !flags.foreign && m.st.free == {}
    requires 0 in PageMap(m.st, sp) && 1 !in PageMap(m.st, sp)
    modifies m
    ensures sp in m.st.spaces && r == Err(ENOMEM)
    ensures PageMap(m.st, sp) == old(PageMap(m.st, sp)) - {0}
  {
    HoleUnplaced(m.st, m.tree, sp, 1);
    r := m.MapAnonymous(sp, 0, 2, flags);
    LostOne(old(PageMap(m.st, sp)), old(m.tree.node.Keys), sp, r, PageMap(m.st, sp));
  }

  /** Five frames at boot, one of them for the root of a space. */
  method EmptySpace(shared: map<nat, Page>) returns (m: AddressSpaces)
    requires shared.Keys !! {1, 2, 3, 4, 5}
    ensures m.st.outside == shared.Keys && m.st.spaces.Keys == {0}
    ensures fresh(m) && m.Valid() && 0 in m.st.spaces && PageMap(m.st, 0) == map[]
    ensures |m.st.free| == 4 && m.tree.node.Keys == {Place(0, 4, 0)}
  {
    m := new AddressSpaces({1, 2, 3, 4, 5}, shared, seq(256, _ => ZERO));
    ghost var t := m.tree;
    var made := m.CreateUserSpace(0, true);
    AddsKeys(t, m.tree, {Place(0, 4, 0)});
  }

  /** The other four are used up by one page. */
  method OnePage(flags: Flags) returns (m: AddressSpaces, r: Result<()>)
    requires !flags.foreign
    ensures fresh(m) && m.Valid() && 0 in m.st.spaces && r.Ok? && m.st.free == {} && PageMap(m.st, 0).Keys == {0}
  {
    m := EmptySpace(map[]);
    ghost var s1, t1 := m.st, m.tree;
    r := m.MapAnonymous(0, 0, 1, flags);
    FirstFour(s1, t1, m.st, m.tree, 0, r, PageMap(m.st, 0));
    FilledFirst(s1, m.st, 0, flags);
  }

  lemma FilledFirst(s0: State, s: State, sp: nat, flags: Flags)
    requires sp in s0.spaces && sp in s.spaces && Filled(s0, s, sp, 0, 1, flags) && PageMap(s0, sp) == map[]
    ensures PageMap(s, sp).Keys == {0}
  {
    assert InRange(0, 0, 1);
  }

  /** The loss, from boot. */
  method LosesPageFromBoot(flags: Flags) returns (m: AddressSpaces, r: Result<()>, ghost before: map<nat, Entry>)
    requires !flags.foreign
    ensures before.Keys == {0} && r == Err(ENOMEM) && 0 in m.st.spaces && PageMap(m.st, 0) == map[]
  {
    m, r := OnePage(flags);
    before := PageMap(m.st, 0);
    r := LosesPage(m, 0, flags);
  }
}
