/** New flags for a mapped page, whatever they are: what `protect` does to a space and to who owns what. */
module Protection {
  import opened Base
  import opened PageTables
  import opened PageTableSteps
  import opened PageMaps
  import opened Teardown

  // --- the maps

  /** Whatever the new flags, a walk from a table finds the new entry at its page and nothing else new. */
  lemma {:induction false} ReflagWalk(s: State, t: Tree, q: Place, i: nat, e: Entry, sp: nat, n: nat, k: nat)
    requires Shape(s, t) && IsTable(s, t, q) && q.level == 1 && i < 512 && EntryAt(s, t, q, i).present && e.present
    requires 1 <= k <= 4 && n < USER_PAGES && Place(sp, k, Prefix(n, k)) in t.node
    ensures Walk(WriteEntry(s, t.node[q], i, e).tables, t.node[Place(sp, k, Prefix(n, k))], k, n) ==
      if sp == q.space && n == q.prefix * 512 + i && Leaf(s, t, sp, n).Some? then Some(e) else Leaf(s, t, sp, n)
  {
    var p := Place(sp, k, Prefix(n, k));
    WalkFromPlace(s, t, sp, n, k);
    assert At(s, t, p) && Prefix(n, 1) == n / 512;
    if k > 1 {
      TopIndex(n);
      Descend(sp, n, k);
      assert EntryOk(s, t, p, Index(n, k));
      if EntryAt(s, t, p, Index(n, k)).present { ReflagWalk(s, t, q, i, e, sp, n, k - 1); }
    }
  }

  lemma ReflagMap(s: State, t: Tree, sp: nat, page: nat, pt: nat, flags: Flags, r: nat)
    requires Inv(s, t) && sp in s.spaces && page < USER_PAGES && PathAt(s, t, sp, page, 1, pt, false)
    requires page in PageMap(s, sp) && r in s.spaces
    ensures var e := Entry(true, PageMap(s, sp)[page].frame, flags);
      PageMap(SetLeaf(s, sp, pt, page % 512, e, s.spaces[sp].resident), r) ==
        if r == sp then PageMap(s, sp)[page := e] else PageMap(s, r)
  {
    var q, e := Place(sp, 1, page / 512), Entry(true, PageMap(s, sp)[page].frame, flags);
    var s' := SetLeaf(s, sp, pt, page % 512, e, s.spaces[sp].resident);
    var m := if r == sp then PageMap(s, sp)[page := e] else PageMap(s, r);
    assert Prefix(page, 1) == page / 512 && RootAt(s, t, r);
    LeafOfPath(s, t, sp, page, pt, false);
    forall n: nat ensures MapsTo(s', r, m, n) {
      PageMapPoint(s, t, r, n);
      if n < USER_PAGES {
        TopIndex(n);
        ReflagWalk(s, t, q, page % 512, e, r, n, 4);
      }
    }
    PageMapUnique(s', r, m);
  }

  /** In a sound state the foreign bit says whose frame it is. */
  lemma ForeignIsOutside(s: State, t: Tree, sp: nat, page: nat)
    requires Inv(s, t) && sp in s.spaces && page in PageMap(s, sp)
    ensures PageMap(s, sp)[page].flags.foreign <==> PageMap(s, sp)[page].frame in s.outside
  {
    var q := Place(sp, 1, page / 512);
    PageMapPoint(s, t, sp, page);
    assert At(s, t, q) && EntryOk(s, t, q, page % 512) && FrameAt(s, t, PageMap(s, sp)[page].frame);
  }

  // --- user access

  /** Every table on the way to the page lets user mode through. */
  ghost predicate TablesUser(tables: map<nat, Table>, frame: nat, level: nat, page: nat)
    requires level >= 1
    decreases level
  {
    level == 1 || (frame in tables && var e := tables[frame][Index(page, level)];
      e.present && e.flags.user && TablesUser(tables, e.frame, level - 1, page))
  }

  /** A table on the way to a mapped page, and its entry. */
  lemma OnTheWay(s: State, t: Tree, sp: nat, page: nat, k: nat)
    requires Shape(s, t) && sp in s.spaces && page in PageMap(s, sp) && 2 <= k <= 4
    ensures page < USER_PAGES && IsTable(s, t, Place(sp, k, Prefix(page, k)))
    ensures var p, i := Place(sp, k, Prefix(page, k)), Index(page, k);
      && EntryAt(s, t, p, i).present && Place(sp, k - 1, Prefix(page, k - 1)) in t.node
      && EntryAt(s, t, p, i).frame == t.node[Place(sp, k - 1, Prefix(page, k - 1))]
  {
    PageMapPoint(s, t, sp, page);
    TopIndex(page);
    AncestorsPlaced(s, t, sp, page, k);
    AncestorsPlaced(s, t, sp, page, k - 1);
    Descend(sp, page, k);
    assert At(s, t, Place(sp, k, Prefix(page, k))) && At(s, t, Place(sp, k - 1, Prefix(page, k - 1)));
  }

  /** An open entry at the second level has open entries above it. */
  lemma {:induction false} UserUp(s: State, t: Tree, sp: nat, page: nat, pt: nat, k: nat)
    requires Shape(s, t) && sp in s.spaces && page in PageMap(s, sp) && 2 <= k <= 4
    requires PathAt(s, t, sp, page, 1, pt, true)
    ensures IsTable(s, t, Place(sp, k, Prefix(page, k)))
    ensures EntryAt(s, t, Place(sp, k, Prefix(page, k)), Index(page, k)).flags.user
  {
    OnTheWay(s, t, sp, page, k);
    Descend(sp, page, k);
    if k > 2 {
      UserUp(s, t, sp, page, pt, k - 1);
      OnTheWay(s, t, sp, page, k - 1);
      assert At(s, t, Place(sp, k - 1, Prefix(page, k - 1)));
      assert EntryOk(s, t, Place(sp, k - 1, Prefix(page, k - 1)), Index(page, k - 1));
    }
  }

  lemma {:induction false} TablesUserIff(s: State, t: Tree, sp: nat, page: nat, pt: nat, k: nat)
    requires Shape(s, t) && sp in s.spaces && page in PageMap(s, sp) && 2 <= k <= 4
    requires PathAt(s, t, sp, page, 1, pt, false)
    ensures IsTable(s, t, Place(sp, k, Prefix(page, k)))
    ensures TablesUser(s.tables, t.node[Place(sp, k, Prefix(page, k))], k, page) <==>
      PathAt(s, t, sp, page, 1, pt, true)
  {
    OnTheWay(s, t, sp, page, k);
    if PathAt(s, t, sp, page, 1, pt, true) { UserUp(s, t, sp, page, pt, k); }
    if k > 2 {
      TablesUserIff(s, t, sp, page, pt, k - 1);
    } else {
      Descend(sp, page, 2);
    }
  }

  lemma {:induction false} TablesUserKept(s: State, t: Tree, sp: nat, page: nat, pt: nat, i: nat, e: Entry, k: nat)
    requires Shape(s, t) && sp in s.spaces && page in PageMap(s, sp) && 1 <= k <= 4 && i < 512
    requires PathAt(s, t, sp, page, 1, pt, false) && Place(sp, k, Prefix(page, k)) in t.node
    ensures TablesUser(WriteEntry(s, pt, i, e).tables, t.node[Place(sp, k, Prefix(page, k))], k, page) <==>
      TablesUser(s.tables, t.node[Place(sp, k, Prefix(page, k))], k, page)
  {
    if k > 1 {
      OnTheWay(s, t, sp, page, k);
      assert t.node[Place(sp, k, Prefix(page, k))] != pt;
      TablesUserKept(s, t, sp, page, pt, i, e, k - 1);
    }
  }

  // --- exactly which flags keep the account

  /** The flags leave the foreign bit as it was and ask for no more user access than the tables give. */
  ghost predicate KeepsAccount(s: State, sp: nat, page: nat, flags: Flags)
    requires sp in s.spaces && page in PageMap(s, sp)
  {
    && flags.foreign == PageMap(s, sp)[page].flags.foreign
    && (flags.user ==> TablesUser(s.tables, s.spaces[sp].root, 4, page))
  }

  function WithFlags(s: State, sp: nat, page: nat, pt: nat, frame: nat, flags: Flags): State
    requires pt in s.tables && sp in s.spaces
  {
    SetLeaf(s, sp, pt, page % 512, Entry(true, frame, flags), s.spaces[sp].resident)
  }

  /** The tables on the way are open exactly as the root says. */
  lemma OpenAbove(s: State, t: Tree, sp: nat, page: nat, pt: nat)
    requires Inv(s, t) && sp in s.spaces && page < USER_PAGES && page in PageMap(s, sp)
    requires PathAt(s, t, sp, page, 1, pt, false)
    ensures TablesUser(s.tables, s.spaces[sp].root, 4, page) <==> PathAt(s, t, sp, page, 1, pt, true)
  {
    RootPath(s, t, sp, page, false);
    TablesUserIff(s, t, sp, page, pt, 4);
  }

  /** A user page has open tables above it. */
  lemma UserIsOpen(s: State, t: Tree, sp: nat, page: nat)
    requires Inv(s, t) && sp in s.spaces && page in PageMap(s, sp) && PageMap(s, sp)[page].flags.user
    ensures TablesUser(s.tables, s.spaces[sp].root, 4, page)
  {
    PageMapPoint(s, t, sp, page);
    assert Prefix(page, 1) == page / 512;
    var q := Place(sp, 1, page / 512);
    assert At(s, t, q) && EntryOk(s, t, q, page % 512);
    OpenAbove(s, t, sp, page, t.node[q]);
  }

  /** After new flags there is a sound account of all frames exactly when they are of that kind. */
  lemma ReflagExactly(s: State, t: Tree, sp: nat, page: nat, pt: nat, flags: Flags)
    requires Inv(s, t) && sp in s.spaces && page < USER_PAGES && PathAt(s, t, sp, page, 1, pt, false)
    requires page in PageMap(s, sp)
    ensures (exists t' :: Inv(WithFlags(s, sp, page, pt, PageMap(s, sp)[page].frame, flags), t')) <==>
      KeepsAccount(s, sp, page, flags)
    ensures KeepsAccount(s, sp, page, flags) ==> Inv(WithFlags(s, sp, page, pt, PageMap(s, sp)[page].frame, flags), t)
  {
    var s' := WithFlags(s, sp, page, pt, PageMap(s, sp)[page].frame, flags);
    OpenAbove(s, t, sp, page, pt);
    if KeepsAccount(s, sp, page, flags) { ReflagLeafKeeps(s, t, sp, page, pt, flags); }
    if t' :| Inv(s', t') { ReflagOnly(s, t, sp, page, pt, flags, t'); }
  }

  lemma ReflagOnly(s: State, t: Tree, sp: nat, page: nat, pt: nat, flags: Flags, t': Tree)
    requires Inv(s, t) && sp in s.spaces && page < USER_PAGES && PathAt(s, t, sp, page, 1, pt, false)
    requires page in PageMap(s, sp) && Inv(WithFlags(s, sp, page, pt, PageMap(s, sp)[page].frame, flags), t')
    ensures KeepsAccount(s, sp, page, flags)
  {
    var s' := WithFlags(s, sp, page, pt, PageMap(s, sp)[page].frame, flags);
    ReflagMap(s, t, sp, page, pt, flags, sp);
    ForeignIsOutside(s, t, sp, page);
    ForeignIsOutside(s', t', sp, page);
    if flags.user {
      UserIsOpen(s', t', sp, page);
      RootPath(s, t, sp, page, false);
      TablesUserKept(s, t, sp, page, pt, page % 512, Entry(true, PageMap(s, sp)[page].frame, flags), 4);
    }
  }

  // --- a foreign frame taken for the space's own

  /** No other page of any space is on that page's frame. */
  ghost predicate Sole(s: State, sp: nat, page: nat)
    requires sp in s.spaces && page in PageMap(s, sp)
  {
    forall r, n :: r in s.spaces && n in PageMap(s, r) && PageMap(s, r)[n].frame == PageMap(s, sp)[page].frame ==>
      r == sp && n == page
  }

  ghost predicate NowhereMapped(s: State, f: nat) {
    forall r, n :: r in s.spaces && n in PageMap(s, r) ==> PageMap(s, r)[n].frame != f
  }

  function Disown(s: State, f: nat): State {
    s.(outside := s.outside - {f})
  }

  /** A frame of somebody else's that is mapped nowhere can be counted as nobody's. */
  lemma DisownKeeps(s: State, t: Tree, f: nat)
    requires Inv(s, t) && NowhereMapped(s, f)
    ensures Inv(Disown(s, f), t) && forall r :: r in s.spaces ==> PageMap(Disown(s, f), r) == PageMap(s, r)
  {
    var s' := Disown(s, f);
    forall p | p in t.node ensures At(s', t, p) {
      assert At(s, t, p);
      forall j: nat | p.level >= 1 && j < Slots(p.level) ensures EntryOk(s', t, p, j) {
        assert EntryOk(s, t, p, j);
        if p.level == 1 { SlotPage(s, t, p.space, p.prefix, j); }
      }
    }
    forall r | r in s.spaces ensures RootAt(s', t, r) && PageMap(s', r) == PageMap(s, r) && CountedAt(s', r) {
      assert RootAt(s, t, r) && CountedAt(s, r);
      PageMapDepends(s, s', r);
    }
    forall g ensures FrameAt(s', t, g) { assert FrameAt(s, t, g); }
  }

  lemma SetLeafTwice(s: State, sp: nat, pt: nat, i: nat, e: Entry, r: nat, f: nat)
    requires pt in s.tables && sp in s.spaces && i < 512
    ensures SetLeaf(Disown(SetLeaf(s, sp, pt, i, ZERO, r), f), sp, pt, i, e, r + 1) ==
      Disown(SetLeaf(s, sp, pt, i, e, r + 1), f)
  {
    var table := s.tables[pt];
    assert table[i := ZERO][i := e] == table[i := e];
    assert s.tables[pt := table[i := ZERO]][pt := table[i := e]] == s.tables[pt := table[i := e]];
    var root := s.spaces[sp].root;
    assert s.spaces[sp := Space(root, r)][sp := Space(root, r + 1)] == s.spaces[sp := Space(root, r + 1)];
  }

  /**
   * Dropping the foreign bit of the only page on a frame leaves the tables of a world in which that frame
   * is the space's own.
   */
  lemma TakenForOwn(s: State, t: Tree, sp: nat, page: nat, pt: nat, flags: Flags)
    requires Inv(s, t) && sp in s.spaces && page < USER_PAGES && PathAt(s, t, sp, page, 1, pt, flags.user)
    requires page in PageMap(s, sp) && PageMap(s, sp)[page].flags.foreign && !flags.foreign && Sole(s, sp, page)
    ensures var f := PageMap(s, sp)[page].frame;
      && f in s.outside && Place(sp, 0, page) !in t.node
      && Inv(Disown(WithFlags(s, sp, page, pt, f, flags), f), Grow(t, Place(sp, 0, page), f))
  {
    var f := PageMap(s, sp)[page].frame;
    SoleCleared(s, t, sp, page, pt);
    var s2 := Disown(SetLeaf(s, sp, pt, page % 512, ZERO, s.spaces[sp].resident - 1), f);
    assert Prefix(page, 1) == page / 512;
    assert PathAt(s2, t, sp, page, 1, pt, flags.user);
    FreshLeafKeeps(s2, t, sp, page, f, flags, pt);
    SetLeafTwice(s, sp, pt, page % 512, Entry(true, f, flags), s.spaces[sp].resident - 1, f);
  }

  /** With its only page unmapped the frame can be counted as nobody's. */
  lemma SoleCleared(s: State, t: Tree, sp: nat, page: nat, pt: nat)
    requires Inv(s, t) && sp in s.spaces && page < USER_PAGES && PathAt(s, t, sp, page, 1, pt, false)
    requires page in PageMap(s, sp) && PageMap(s, sp)[page].flags.foreign && Sole(s, sp, page)
    ensures s.spaces[sp].resident > 0 && PageMap(s, sp)[page].frame in s.outside && Place(sp, 0, page) !in t.node
    ensures PageMap(s, sp)[page].frame in s.data && PageMap(s, sp)[page].frame !in t.loc
    ensures Inv(Disown(SetLeaf(s, sp, pt, page % 512, ZERO, s.spaces[sp].resident - 1), PageMap(s, sp)[page].frame), t)
  {
    var f := PageMap(s, sp)[page].frame;
    ForeignIsOutside(s, t, sp, page);
    assert FrameAt(s, t, f);
    ForeignUnplaced(s, t, sp, page);
    ClearLeafKeeps(s, t, sp, page, pt);
    assert Prune(t, Place(sp, 0, page)) == t;
    DisownKeeps(SetLeaf(s, sp, pt, page % 512, ZERO, s.spaces[sp].resident - 1), t, f);
  }

  /** A foreign page has no place of its own. */
  lemma ForeignUnplaced(s: State, t: Tree, sp: nat, page: nat)
    requires Inv(s, t) && sp in s.spaces && page in PageMap(s, sp) && PageMap(s, sp)[page].flags.foreign
    ensures Place(sp, 0, page) !in t.node
  {
    PageMapPoint(s, t, sp, page);
    if Place(sp, 0, page) in t.node { OwnedPage(s, t, Place(sp, 0, page)); }
  }
}
