/** What becomes of a frame that belongs to a file when `protect` drops the foreign bit of its page. */
module ForeignFrames {
  import opened Base
  import opened PageTables
  import opened PageTableSteps
  import opened PageMaps
  import opened Rollback
  import opened Teardown
  import opened Protection
  import opened AddressSpaces

  lemma FewTables(sp: nat, page: nat)
    ensures |TablesOf(sp, page, 1)| <= 3
  {
    assert TablesOf(sp, page, 1) == {Above(sp, page, 1), Above(sp, page, 2), Above(sp, page, 3)};
  }

  lemma LessThanAll<T>(a: set<T>, b: set<T>)
    ensures |a - b| <= |a|
  {
    assert a == (a - b) + (a * b);
  }

  /** From boot: a space whose first page is on frame 9, which a file owns. */
  method SharedPage(content: Page, flags: Flags) returns (m: AddressSpaces)
    requires flags.foreign
    ensures fresh(m) && m.Valid() && m.st.spaces.Keys == {0} && 9 in m.st.outside
    ensures PageMap(m.st, 0) == map[0 := Entry(true, 9, flags)]
  {
    m := EmptySpace(map[9 := content]);
    ghost var t := m.tree;
    FewTables(0, 0);
    LessThanAll(TablesOf(0, 0, 1), t.node.Keys);
    assert Asked(t);
    var r := m.Map(0, 0, 9, flags);
  }

  /** After the bit is dropped no account of who owns which frame is sound. */
  method DropsForeign(content: Page, flags: Flags, plain: Flags) returns (m: AddressSpaces)
    requires flags.foreign && !plain.foreign
    ensures !exists t :: Inv(m.st, t)
  {
    m := SharedPage(content, flags);
    var _ := m.ProtectPage(0, 0, plain);
  }

  /**
   * New flags for the only page on somebody else's frame, and then the end of the space: the frame is
   * freed, while its owner goes on using it, exactly when the flags are without the foreign bit.
   */
  method ProtectThenDestroy(m: AddressSpaces, sp: nat, page: nat, flags: Flags)
    requires m.Valid() && sp in m.st.spaces && page in PageMap(m.st, sp) && page < USER_PAGES
    requires PageMap(m.st, sp)[page].flags.foreign && Sole(m.st, sp, page)
    requires flags.user ==> TablesUser(m.st.tables, m.st.spaces[sp].root, 4, page)
    modifies m
    ensures old(PageMap(m.st, sp)[page].frame) in m.st.free <==> !flags.foreign
  {
    ghost var s0, t0 := m.st, m.tree;
    var there := m.Translate(sp, page * 4096);
    var f := there.value / 4096;
    ForeignIsOutside(s0, t0, sp, page);
    assert FrameAt(s0, t0, f);
    var r := m.ProtectPage(sp, page, flags);
    if flags.foreign {
      OutsideNotOwned(m.st, m.tree, sp);
    } else {
      ghost var pt :| PathAt(s0, t0, sp, page, 1, pt, false) && m.st == WithFlags(s0, sp, page, pt, f, flags);
      OpenAbove(s0, t0, sp, page, pt);
      TakenForOwn(s0, t0, sp, page, pt, flags);
      m.Reaccount(f, Grow(t0, Place(sp, 0, page), f));
    }
    m.DestroyUserMappings(sp);
  }

  /** The same from boot. */
  method FreesForeign(content: Page, flags: Flags, plain: Flags) returns (m: AddressSpaces)
    requires flags.foreign && !plain.foreign && (plain.user ==> flags.user)
    ensures 9 in m.st.free
  {
    m := SharedPage(content, flags);
    if flags.user { UserIsOpen(m.st, m.tree, 0, 0); }
    ProtectThenDestroy(m, 0, 0, plain);
  }
}
