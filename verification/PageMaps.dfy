/** What single steps mean for page maps: steps no map notices, and steps that write one page. */
module PageMaps {
  import opened Base
  import opened PageTables
  import opened PageTableSteps

  /** Nothing placed is moved or dropped. */
  ghost predicate Grown(t: Tree, t': Tree) {
    forall q :: q in t.node ==> q in t'.node && t'.node[q] == t.node[q]
  }

  lemma SameLeavesCounted(s: State, t: Tree, s': State, t': Tree)
    requires Inv(s, t) && Shape(s', t') && SameLeaves(s, t, s', t') && s'.spaces == s.spaces
    ensures Inv(s', t') && forall sp :: sp in s.spaces ==> PageMap(s', sp) == PageMap(s, sp)
  {
    forall sp | sp in s.spaces ensures PageMap(s', sp) == PageMap(s, sp) && CountedAt(s', sp) {
      SameLeavesSameMap(s, t, s', t', sp);
      assert CountedAt(s, sp);
    }
  }

  /** One table step: the invariant is kept, nothing placed moves, and no page map changes. */
  ghost predicate Silent(s: State, t: Tree, s': State, t': Tree) {
    && Inv(s', t')
    && Grown(t, t')
    && s'.spaces == s.spaces && s'.data == s.data && s'.outside == s.outside &&
      (forall f :: f in s'.free ==> f in s.free)
    && (forall f :: f in t'.loc ==> f in t.loc || f in s.free)
    && forall sp :: sp in s.spaces ==> PageMap(s', sp) == PageMap(s, sp)
  }

  lemma SilentTrans(s: State, t: Tree, s1: State, t1: Tree, s2: State, t2: Tree)
    requires Silent(s, t, s1, t1) && Silent(s1, t1, s2, t2)
    ensures Silent(s, t, s2, t2)
  {
  }

  lemma LinkSilent(s: State, t: Tree, q: Place, i: nat, f: nat)
    requires Inv(s, t) && CanLink(s, t, q, i, f)
    ensures Silent(s, t, LinkTable(s, t.node[q], i, f), Grow(t, Child(q, i), f))
  {
    LinkTableKeeps(s, t, q, i, f);
    ChildHangs(s, t, q, i);
    assert FrameAt(s, t, f);
    SameLeavesCounted(s, t, LinkTable(s, t.node[q], i, f), Grow(t, Child(q, i), f));
  }

  lemma GrantSilent(s: State, t: Tree, q: Place, i: nat)
    requires Inv(s, t) && CanGrant(s, t, q, i)
    ensures Silent(s, t, GrantUser(s, t.node[q], i), t)
  {
    GrantUserKeeps(s, t, q, i);
    SameLeavesCounted(s, t, GrantUser(s, t.node[q], i), t);
  }

  /** A present entry of an inner table leads to a table, and is not a huge page. */
  lemma InnerEntry(s: State, t: Tree, q: Place, i: nat)
    requires Shape(s, t) && IsTable(s, t, q) && 2 <= q.level && i < Slots(q.level)
    requires EntryAt(s, t, q, i).present
    ensures !EntryAt(s, t, q, i).flags.huge && IsTable(s, t, Child(q, i))
    ensures t.node[Child(q, i)] == EntryAt(s, t, q, i).frame
  {
    assert At(s, t, q);
    assert EntryOk(s, t, q, i);
    assert At(s, t, Child(q, i));
  }

  /** The entry leading to this table lets user mode through. */
  ghost predicate UserAbove(s: State, t: Tree, q: Place) {
    IsTable(s, t, Parent(q)) && EntryAt(s, t, Parent(q), q.prefix % 512).flags.user
  }

  /** `frame` is the table of `page` at `level`, open to user mode if asked. */
  ghost predicate PathAt(s: State, t: Tree, sp: nat, page: nat, level: nat, frame: nat, user: bool) {
    var q := Place(sp, level, Prefix(page, level));
    IsTable(s, t, q) && t.node[q] == frame && (user && level < 4 ==> UserAbove(s, t, q))
  }

  lemma RootPath(s: State, t: Tree, sp: nat, page: nat, user: bool)
    requires Shape(s, t) && sp in s.spaces && page < USER_PAGES
    ensures PathAt(s, t, sp, page, 4, s.spaces[sp].root, user)
  {
    TopIndex(page);
    assert RootAt(s, t, sp);
  }

  /** A mapped page has every table on its way. */
  lemma MappedInner(s: State, t: Tree, sp: nat, page: nat, k: nat)
    requires Shape(s, t) && sp in s.spaces && page in PageMap(s, sp) && 2 <= k <= 4
    requires IsTable(s, t, Place(sp, k, Prefix(page, k)))
    ensures EntryAt(s, t, Place(sp, k, Prefix(page, k)), Index(page, k)).present
  {
    PageMapPoint(s, t, sp, page);
    AncestorsPlaced(s, t, sp, page, k - 1);
    assert At(s, t, Place(sp, k - 1, Prefix(page, k - 1)));
  }

  /** One step down the walk of a page. */
  lemma WalkStep(s: State, t: Tree, sp: nat, page: nat, level: nat, frame: nat)
    requires Shape(s, t) && sp in s.spaces && page < USER_PAGES && 2 <= level <= 4
    requires PathAt(s, t, sp, page, level, frame, false)
    ensures !s.tables[frame][Index(page, level)].present ==> page !in PageMap(s, sp)
    ensures s.tables[frame][Index(page, level)].present ==>
      && !s.tables[frame][Index(page, level)].flags.huge
      && PathAt(s, t, sp, page, level - 1, s.tables[frame][Index(page, level)].frame, false)
  {
    TopIndex(page);
    Descend(sp, page, level);
    if page in PageMap(s, sp) { MappedInner(s, t, sp, page, level); }
    if s.tables[frame][Index(page, level)].present {
      InnerEntry(s, t, Place(sp, level, Prefix(page, level)), Index(page, level));
    }
  }

  /** The child of a page's table at level `k` is its table at level `k - 1`. */
  lemma Descend(sp: nat, page: nat, k: nat)
    requires k >= 1
    ensures Child(Place(sp, k, Prefix(page, k)), Index(page, k)) == Place(sp, k - 1, Prefix(page, k - 1))
    ensures Parent(Place(sp, k - 1, Prefix(page, k - 1))) == Place(sp, k, Prefix(page, k))
    ensures Prefix(page, k - 1) % 512 == Index(page, k)
  {
  }

  // --- leaf writes with the resident count in step

  function SetLeaf(s: State, sp: nat, frame: nat, i: nat, e: Entry, resident: nat): State
    requires frame in s.tables && i < 512 && sp in s.spaces
  {
    var w := WriteEntry(s, frame, i, e);
    State(w.tables, w.data, w.free, w.outside, w.spaces[sp := Space(s.spaces[sp].root, resident)], w.kernelHalf)
  }

  lemma CountKeepsShape(s: State, t: Tree, sp: nat, resident: nat)
    requires Shape(s, t) && sp in s.spaces
    ensures Shape(State(s.tables, s.data, s.free, s.outside, s.spaces[sp := Space(s.spaces[sp].root, resident)],
      s.kernelHalf), t)
  {
    var s' := State(s.tables, s.data, s.free, s.outside, s.spaces[sp := Space(s.spaces[sp].root, resident)],
      s.kernelHalf);
    forall p | p in t.node ensures At(s', t, p) {
      assert At(s, t, p);
      forall j: nat | p.level >= 1 && j < Slots(p.level) ensures EntryOk(s', t, p, j) {
        assert EntryOk(s, t, p, j);
      }
    }
    forall r | r in s'.spaces ensures RootAt(s', t, r) {
      assert RootAt(s, t, r);
    }
    forall g ensures FrameAt(s', t, g) {
      assert FrameAt(s, t, g);
    }
  }

  /** Other spaces, memory and foreign frames are as they were. */
  ghost predicate OnlySpace(s: State, s': State, sp: nat) {
    && s'.spaces.Keys == s.spaces.Keys && s'.outside == s.outside
    && forall r :: r in s.spaces ==>
         s'.spaces[r].root == s.spaces[r].root && (r != sp ==> PageMap(s', r) == PageMap(s, r))
  }

  /** A page map depends on nothing but the tables and the root. */
  lemma PageMapDepends(s: State, s': State, r: nat)
    requires r in s.spaces && r in s'.spaces && s'.tables == s.tables
    requires s'.spaces[r].root == s.spaces[r].root
    ensures PageMap(s', r) == PageMap(s, r)
  {
    var m := PageMap(s, r);
    forall n: nat ensures MapsTo(s', r, m, n) {
      assert MapsTo(s, r, m, n);
    }
    PageMapUnique(s', r, m);
  }

  ghost function LeafMap(s: State, q: Place, i: nat, e: Entry): map<nat, Entry>
    requires q.space in s.spaces && q.level >= 1
  {
    if e.present then PageMap(s, q.space)[Child(q, i).prefix := e]
    else PageMap(s, q.space) - {Child(q, i).prefix}
  }

  lemma SetLeafMaps(s: State, t: Tree, q: Place, i: nat, e: Entry, t': Tree, resident: nat, r: nat)
    requires CanWriteLeaf(s, t, q, i, e, t') && Child(q, i).prefix < USER_PAGES
    requires q.space in s.spaces && r in s.spaces
    ensures PageMap(SetLeaf(s, q.space, t.node[q], i, e, resident), r) ==
      if r == q.space then LeafMap(s, q, i, e) else PageMap(s, r)
  {
    var w := WriteEntry(s, t.node[q], i, e);
    WriteLeafMap(s, t, q, i, e, t', r);
    PageMapDepends(w, SetLeaf(s, q.space, t.node[q], i, e, resident), r);
  }

  lemma SetLeafKeeps(s: State, t: Tree, q: Place, i: nat, e: Entry, t': Tree, resident: nat)
    requires Inv(s, t) && CanWriteLeaf(s, t, q, i, e, t') && Child(q, i).prefix < USER_PAGES
    requires q.space in s.spaces && resident == |LeafMap(s, q, i, e)|
    ensures var s' := SetLeaf(s, q.space, t.node[q], i, e, resident);
      Inv(s', t') && OnlySpace(s, s', q.space) && PageMap(s', q.space) == LeafMap(s, q, i, e)
  {
    var s' := SetLeaf(s, q.space, t.node[q], i, e, resident);
    WriteLeafKeeps(s, t, q, i, e, t');
    CountKeepsShape(WriteEntry(s, t.node[q], i, e), t', q.space, resident);
    forall r | r in s.spaces
      ensures PageMap(s', r) == if r == q.space then LeafMap(s, q, i, e) else PageMap(s, r)
      ensures CountedAt(s', r)
    {
      SetLeafMaps(s, t, q, i, e, t', resident, r);
      assert CountedAt(s, r);
    }
  }

  lemma LeafOfPath(s: State, t: Tree, sp: nat, page: nat, frame: nat, user: bool)
    requires Shape(s, t) && sp in s.spaces && page < USER_PAGES && PathAt(s, t, sp, page, 1, frame, user)
    ensures Point(PageMap(s, sp), page, if s.tables[frame][page % 512].present then Some(s.tables[frame][page % 512])
      else None)
  {
    assert Prefix(page, 1) == page / 512;
    PageMapPoint(s, t, sp, page);
  }

  /** The slot of a page table is the page map at that page. */
  lemma SlotPage(s: State, t: Tree, sp: nat, prefix: nat, i: nat)
    requires Shape(s, t) && sp in s.spaces && IsTable(s, t, Place(sp, 1, prefix)) && i < 512
    ensures var e := EntryAt(s, t, Place(sp, 1, prefix), i);
      Point(PageMap(s, sp), prefix * 512 + i, if e.present then Some(e) else None)
  {
    TableInUserHalf(s, t, sp, prefix);
    PageMapPoint(s, t, sp, prefix * 512 + i);
  }

  lemma TableInUserHalf(s: State, t: Tree, sp: nat, prefix: nat)
    requires Shape(s, t) && Place(sp, 1, prefix) in t.node
    ensures prefix * 512 + 511 < USER_PAGES
  {
    var p1 := Place(sp, 1, prefix);
    assert At(s, t, p1);
    assert At(s, t, Parent(p1));
    assert At(s, t, Parent(Parent(p1)));
    assert At(s, t, Parent(Parent(Parent(p1))));
  }

  /** A frame nobody has may be placed under an absent leaf entry. */
  lemma FreshLeaf(s: State, t: Tree, sp: nat, page: nat, frame: nat, flags: Flags, pt: nat)
    requires Shape(s, t) && sp in s.spaces && PathAt(s, t, sp, page, 1, pt, flags.user)
    requires !s.tables[pt][page % 512].present
    requires if flags.foreign then frame in s.outside
             else frame in s.data && frame !in t.loc && frame !in s.outside
    ensures CanWriteLeaf(s, t, Place(sp, 1, page / 512), page % 512, Entry(true, frame, flags),
                         LeafTree(t, sp, page, frame, flags))
    ensures Child(Place(sp, 1, page / 512), page % 512) == Place(sp, 0, page)
  {
    var q := Place(sp, 1, page / 512);
    assert Prefix(page, 1) == page / 512;
    ChildHangs(s, t, q, page % 512);
    var t' := LeafTree(t, sp, page, frame, flags);
    forall g ensures FrameAt(s, t', g) {
      assert FrameAt(s, t, g);
    }
  }

  ghost function LeafTree(t: Tree, sp: nat, page: nat, frame: nat, flags: Flags): Tree {
    if flags.foreign then t else Grow(t, Place(sp, 0, page), frame)
  }

  lemma FreshLeafKeeps(s: State, t: Tree, sp: nat, page: nat, frame: nat, flags: Flags, pt: nat)
    requires Inv(s, t) && sp in s.spaces && page < USER_PAGES && PathAt(s, t, sp, page, 1, pt, flags.user)
    requires !s.tables[pt][page % 512].present
    requires if flags.foreign then frame in s.outside
             else frame in s.data && frame !in t.loc && frame !in s.outside
    ensures Place(sp, 0, page) !in t.node
    ensures var e := Entry(true, frame, flags);
      var s' := SetLeaf(s, sp, pt, page % 512, e, s.spaces[sp].resident + 1);
      && Inv(s', LeafTree(t, sp, page, frame, flags)) && Grown(t, LeafTree(t, sp, page, frame, flags))
      && OnlySpace(s, s', sp)
      && PageMap(s', sp) == PageMap(s, sp)[page := e]
  {
    var q := Place(sp, 1, page / 512);
    assert Prefix(page, 1) == page / 512;
    FreshLeaf(s, t, sp, page, frame, flags, pt);
    assert CountedAt(s, sp);
    ChildHangs(s, t, q, page % 512);
    LeafOfPath(s, t, sp, page, pt, flags.user);
    SetLeafKeeps(s, t, q, page % 512, Entry(true, frame, flags), LeafTree(t, sp, page, frame, flags),
      s.spaces[sp].resident + 1);
  }

  lemma OnlySpaceTrans(s: State, s1: State, s2: State, sp: nat)
    requires OnlySpace(s, s1, sp) && OnlySpace(s1, s2, sp)
    ensures OnlySpace(s, s2, sp)
  {
  }

  /** A silent step and then a leaf write is a leaf write. */
  lemma SilentThenLeaf(s: State, t: Tree, s1: State, t1: Tree, s2: State, sp: nat)
    requires Silent(s, t, s1, t1) && OnlySpace(s1, s2, sp)
    ensures OnlySpace(s, s2, sp)
  {
  }

  lemma SilentOnly(s: State, t: Tree, s1: State, t1: Tree, sp: nat)
    requires Silent(s, t, s1, t1)
    ensures OnlySpace(s, s1, sp)
  {
  }

  // --- unmap

  ghost function Prune(t: Tree, c: Place): Tree {
    if c in t.node then Tree(t.node - {c}, t.loc - {t.node[c]}) else t
  }

  lemma RemoveSize(m: map<nat, Entry>, k: nat)
    requires k in m
    ensures |m - {k}| == |m| - 1
  {
    assert m == (m - {k})[k := m[k]];
  }

  lemma ClearLeafOk(s: State, t: Tree, sp: nat, page: nat, pt: nat)
    requires Shape(s, t) && PathAt(s, t, sp, page, 1, pt, false)
    ensures CanWriteLeaf(s, t, Place(sp, 1, page / 512), page % 512, ZERO, Prune(t, Place(sp, 0, page)))
    ensures Child(Place(sp, 1, page / 512), page % 512) == Place(sp, 0, page)
  {
    assert Prefix(page, 1) == page / 512;
    forall g ensures FrameAt(s, Prune(t, Place(sp, 0, page)), g) {
      assert FrameAt(s, t, g);
    }
  }

  lemma ClearLeafKeeps(s: State, t: Tree, sp: nat, page: nat, pt: nat)
    requires Inv(s, t) && sp in s.spaces && page < USER_PAGES && PathAt(s, t, sp, page, 1, pt, false)
    requires page in PageMap(s, sp)
    ensures s.spaces[sp].resident > 0
    ensures var s' := SetLeaf(s, sp, pt, page % 512, ZERO, s.spaces[sp].resident - 1);
      && Inv(s', Prune(t, Place(sp, 0, page)))
      && OnlySpace(s, s', sp)
      && PageMap(s', sp) == PageMap(s, sp) - {page}
  {
    var q := Place(sp, 1, page / 512);
    assert Prefix(page, 1) == page / 512;
    RemoveSize(PageMap(s, sp), page);
    assert CountedAt(s, sp);
    ClearLeafOk(s, t, sp, page, pt);
    SetLeafKeeps(s, t, q, page % 512, ZERO, Prune(t, Place(sp, 0, page)), s.spaces[sp].resident - 1);
  }

  // --- protect

  /** New flags that keep the frame's owner and ask for no more user access than the page has. */
  predicate MayReflag(e: Entry, flags: Flags) {
    flags.foreign == e.flags.foreign && (flags.user ==> e.flags.user)
  }

  lemma ReflagLeafOk(s: State, t: Tree, sp: nat, page: nat, pt: nat, flags: Flags)
    requires Shape(s, t) && sp in s.spaces && page < USER_PAGES && PathAt(s, t, sp, page, 1, pt, flags.user)
    requires page in PageMap(s, sp) && flags.foreign == PageMap(s, sp)[page].flags.foreign
    ensures CanWriteLeaf(s, t, Place(sp, 1, page / 512), page % 512, Entry(true, PageMap(s, sp)[page].frame, flags), t)
    ensures Child(Place(sp, 1, page / 512), page % 512) == Place(sp, 0, page)
  {
    var q := Place(sp, 1, page / 512);
    assert Prefix(page, 1) == page / 512;
    LeafOfPath(s, t, sp, page, pt, flags.user);
    assert At(s, t, q);
    assert EntryOk(s, t, q, page % 512);
    ChildHangs(s, t, q, page % 512);
    if Child(q, page % 512) in t.node {
      assert At(s, t, Child(q, page % 512));
    }
  }

  lemma ReflagLeafKeeps(s: State, t: Tree, sp: nat, page: nat, pt: nat, flags: Flags)
    requires Inv(s, t) && sp in s.spaces && page < USER_PAGES && PathAt(s, t, sp, page, 1, pt, flags.user)
    requires page in PageMap(s, sp) && flags.foreign == PageMap(s, sp)[page].flags.foreign
    ensures var e := Entry(true, PageMap(s, sp)[page].frame, flags);
      var s' := SetLeaf(s, sp, pt, page % 512, e, s.spaces[sp].resident);
      && Inv(s', t)
      && OnlySpace(s, s', sp)
      && PageMap(s', sp) == PageMap(s, sp)[page := e]
  {
    var q := Place(sp, 1, page / 512);
    assert Prefix(page, 1) == page / 512;
    var e := Entry(true, PageMap(s, sp)[page].frame, flags);
    ReflagLeafOk(s, t, sp, page, pt, flags);
    assert CountedAt(s, sp);
    assert PageMap(s, sp)[page := e].Keys == PageMap(s, sp).Keys;
    SetLeafKeeps(s, t, q, page % 512, e, t, s.spaces[sp].resident);
  }

  // --- memory

  /** Only memory contents and the free set differ. */
  ghost predicate MemoryOnly(s: State, s': State) {
    s'.tables == s.tables && s'.spaces == s.spaces && s'.outside == s.outside && s'.kernelHalf == s.kernelHalf
  }

  lemma MemoryKeeps(s: State, t: Tree, s': State)
    requires Inv(s, t) && MemoryOnly(s, s')
    requires forall f :: f in s.data && (f in t.loc || f in s.outside) ==> f in s'.data
    requires forall f {:trigger FrameAt(s', t, f)} :: FrameAt(s', t, f)
    ensures Inv(s', t) && forall sp :: sp in s.spaces ==> PageMap(s', sp) == PageMap(s, sp)
  {
    forall p | p in t.node ensures At(s', t, p) {
      assert At(s, t, p);
      forall j: nat | p.level >= 1 && j < Slots(p.level) ensures EntryOk(s', t, p, j) {
        assert EntryOk(s, t, p, j);
      }
    }
    forall sp | sp in s.spaces ensures RootAt(s', t, sp) && PageMap(s', sp) == PageMap(s, sp) && CountedAt(s', sp) {
      assert RootAt(s, t, sp) && CountedAt(s, sp);
      PageMapDepends(s, s', sp);
    }
  }

  function TakeData(s: State, f: nat, content: Page): State {
    State(s.tables, s.data[f := content], s.free - {f}, s.outside, s.spaces, s.kernelHalf)
  }

  function GiveData(s: State, f: nat): State {
    State(s.tables, s.data - {f}, s.free + {f}, s.outside, s.spaces, s.kernelHalf)
  }

  lemma TakeDataKeeps(s: State, t: Tree, f: nat, content: Page)
    requires Inv(s, t) && f in s.free
    ensures f !in t.loc && f !in s.outside && f !in s.data
    ensures Inv(TakeData(s, f, content), t)
    ensures forall sp :: sp in s.spaces ==> PageMap(TakeData(s, f, content), sp) == PageMap(s, sp)
  {
    assert FrameAt(s, t, f);
    forall g ensures FrameAt(TakeData(s, f, content), t, g) {
      assert FrameAt(s, t, g);
    }
    MemoryKeeps(s, t, TakeData(s, f, content));
  }

  lemma GiveDataKeeps(s: State, t: Tree, f: nat)
    requires Inv(s, t) && f in s.data && f !in t.loc && f !in s.outside
    ensures Inv(GiveData(s, f), t)
    ensures forall sp :: sp in s.spaces ==> PageMap(GiveData(s, f), sp) == PageMap(s, sp)
  {
    forall g ensures FrameAt(GiveData(s, f), t, g) {
      assert FrameAt(s, t, g);
    }
    MemoryKeeps(s, t, GiveData(s, f));
  }
}
