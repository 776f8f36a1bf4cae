/**
 * What the page-table invariant is for: private memory has one owner, a forked space reads like
 * its parent, a write through a private page is seen nowhere else, and checking the leaf entry
 * alone is as good as checking every level.
 */
module Isolation {
  import opened Base
  import opened PageTables
  import opened PageTableSteps
  import opened PageMaps
  import opened Cloning

  // --- one owner

  lemma PrivatePlace(s: State, t: Tree, sp: nat, n: nat)
    requires Shape(s, t) && sp in s.spaces && n in PageMap(s, sp) && !PageMap(s, sp)[n].flags.foreign
    ensures Place(sp, 0, n) in t.node && t.node[Place(sp, 0, n)] == PageMap(s, sp)[n].frame
    ensures PageMap(s, sp)[n].frame in t.loc && PageMap(s, sp)[n].frame in s.data
  {
    PageMapPoint(s, t, sp, n);
    var q := Place(sp, 1, n / 512);
    assert At(s, t, q);
    assert EntryOk(s, t, q, n % 512);
    assert Child(q, n % 512) == Place(sp, 0, n);
    assert At(s, t, Place(sp, 0, n));
  }

  lemma ForeignFrame(s: State, t: Tree, sp: nat, n: nat)
    requires Shape(s, t) && sp in s.spaces && n in PageMap(s, sp) && PageMap(s, sp)[n].flags.foreign
    ensures PageMap(s, sp)[n].frame in s.outside && PageMap(s, sp)[n].frame in s.data
    ensures PageMap(s, sp)[n].frame !in t.loc && PageMap(s, sp)[n].frame !in s.free
  {
    PageMapPoint(s, t, sp, n);
    var q := Place(sp, 1, n / 512);
    assert At(s, t, q);
    assert EntryOk(s, t, q, n % 512);
    assert FrameAt(s, t, PageMap(s, sp)[n].frame);
  }

  /** Two pages on one frame are the same page of the same space, or both are foreign. */
  lemma SoleOwner(s: State, t: Tree, sp: nat, n: nat, sp': nat, n': nat)
    requires Shape(s, t) && sp in s.spaces && sp' in s.spaces && n in PageMap(s, sp) && n' in PageMap(s, sp')
    requires PageMap(s, sp)[n].frame == PageMap(s, sp')[n'].frame
    ensures PageMap(s, sp)[n].flags.foreign == PageMap(s, sp')[n'].flags.foreign
    ensures !PageMap(s, sp)[n].flags.foreign ==> sp == sp' && n == n'
  {
    if !PageMap(s, sp)[n].flags.foreign { PrivatePlace(s, t, sp, n); } else { ForeignFrame(s, t, sp, n); }
    if !PageMap(s, sp')[n'].flags.foreign { PrivatePlace(s, t, sp', n'); } else { ForeignFrame(s, t, sp', n'); }
  }

  /** A table is reached from one entry of one table only, and never holds user memory. */
  lemma SoleTable(s: State, t: Tree, q: Place, i: nat, q': Place, i': nat)
    requires Shape(s, t) && IsTable(s, t, q) && IsTable(s, t, q') && 2 <= q.level && 1 <= q'.level
    requires i < Slots(q.level) && i' < Slots(q'.level)
    requires EntryAt(s, t, q, i).present && EntryAt(s, t, q', i').present
    requires EntryAt(s, t, q, i).frame == EntryAt(s, t, q', i').frame
    ensures q == q' && i == i'
    ensures EntryAt(s, t, q, i).frame !in s.data
  {
    assert At(s, t, q) && At(s, t, q');
    assert EntryOk(s, t, q, i) && EntryOk(s, t, q', i');
    ChildParent(q, i);
    ChildParent(q', i');
    assert At(s, t, Child(q, i));
    assert FrameAt(s, t, EntryAt(s, t, q, i).frame);
  }

  // --- reading and writing bytes

  ghost function ReadByte(s: State, sp: nat, address: nat): Option<Byte>
    requires sp in s.spaces
  {
    var m := PageMap(s, sp);
    if address / 4096 in m && m[address / 4096].frame in s.data
    then Some(s.data[m[address / 4096].frame][address % 4096]) else None
  }

  /** A byte stored through a mapped page. */
  ghost function WriteByte(s: State, sp: nat, address: nat, b: Byte): State
    requires sp in s.spaces && address / 4096 in PageMap(s, sp) && PageMap(s, sp)[address / 4096].frame in s.data
  {
    var f := PageMap(s, sp)[address / 4096].frame;
    State(s.tables, s.data[f := s.data[f][address % 4096 := b]], s.free, s.outside, s.spaces, s.kernelHalf)
  }

  /** A forked space reads the parent's byte at every user address, mapped or not. */
  lemma ForkReadsAlike(s: State, t: Tree, src: nat, dst: nat, address: nat)
    requires Shape(s, t) && src in s.spaces && dst in s.spaces && IsCopy(s, src, dst)
    ensures ReadByte(s, dst, address) == ReadByte(s, src, address)
  {
    var n := address / 4096;
    assert n in PageMap(s, src) <==> n in PageMap(s, dst);
    if n in PageMap(s, src) {
      assert Matches(s, PageMap(s, src)[n], PageMap(s, dst)[n]);
    }
  }

  /** After a fork the two spaces share foreign frames and nothing else. */
  lemma ForkSharesForeignOnly(s: State, t: Tree, src: nat, dst: nat, n: nat, n': nat)
    requires Shape(s, t) && src in s.spaces && dst in s.spaces && src != dst
    requires n in PageMap(s, src) && n' in PageMap(s, dst) && PageMap(s, src)[n].frame == PageMap(s, dst)[n'].frame
    ensures PageMap(s, src)[n].flags.foreign && PageMap(s, dst)[n'].flags.foreign
  {
    SoleOwner(s, t, src, n, dst, n');
  }

  /** A write through a private page changes that byte of that space and no other byte of any space. */
  lemma PrivateWrite(s: State, t: Tree, sp: nat, address: nat, b: Byte, sp': nat, address': nat)
    requires Inv(s, t) && sp in s.spaces && sp' in s.spaces && address / 4096 in PageMap(s, sp)
    requires PageMap(s, sp)[address / 4096].frame in s.data && !PageMap(s, sp)[address / 4096].flags.foreign
    ensures Inv(WriteByte(s, sp, address, b), t)
    ensures ReadByte(WriteByte(s, sp, address, b), sp', address') ==
      if sp' == sp && address' == address then Some(b) else ReadByte(s, sp', address')
  {
    var s' := WriteByte(s, sp, address, b);
    forall f ensures FrameAt(s', t, f) {
      assert FrameAt(s, t, f);
    }
    MemoryKeeps(s, t, s');
    var n, n' := address / 4096, address' / 4096;
    if n' in PageMap(s, sp') && PageMap(s, sp')[n'].frame == PageMap(s, sp)[n].frame {
      SoleOwner(s, t, sp, n, sp', n');
    }
  }

  // --- permissions

  lemma {:induction false} UserAllTheWay(s: State, t: Tree, sp: nat, page: nat, k: nat)
    requires Shape(s, t) && sp in s.spaces && page in PageMap(s, sp) && PageMap(s, sp)[page].flags.user
    requires 1 <= k <= 4
    ensures page < USER_PAGES && IsTable(s, t, Place(sp, k, Prefix(page, k)))
    ensures EntryAt(s, t, Place(sp, k, Prefix(page, k)), Index(page, k)).present
    ensures EntryAt(s, t, Place(sp, k, Prefix(page, k)), Index(page, k)).flags.user
  {
    PageMapPoint(s, t, sp, page);
    var q := Place(sp, k, Prefix(page, k));
    AncestorsPlaced(s, t, sp, page, k);
    assert At(s, t, q);
    if k > 1 {
      UserAllTheWay(s, t, sp, page, k - 1);
      var p := Place(sp, k - 1, Prefix(page, k - 1));
      Descend(sp, page, k);
      assert At(s, t, p);
      assert EntryOk(s, t, p, Index(page, k - 1));
    }
  }

  ghost function LeafPermissions(o: Option<Entry>): (bool, bool) {
    if o.None? then (false, false) else (o.value.flags.user, o.value.flags.writable)
  }

  lemma {:induction false} PermissionsFrom(s: State, t: Tree, sp: nat, page: nat, k: nat)
    requires Shape(s, t) && sp in s.spaces && 1 <= k <= 4 && page < USER_PAGES
    requires Place(sp, k, Prefix(page, k)) in t.node
    ensures WalkPermissions(s.tables, t.node[Place(sp, k, Prefix(page, k))], k, page) ==
      LeafPermissions(Leaf(s, t, sp, page))
  {
    var q, i := Place(sp, k, Prefix(page, k)), Index(page, k);
    assert At(s, t, q);
    WalkFromPlace(s, t, sp, page, k);
    if k > 1 {
      TopIndex(page);
      Descend(sp, page, k);
      if EntryAt(s, t, q, i).present {
        InnerEntry(s, t, q, i);
        assert EntryOk(s, t, q, i);
        PermissionsFrom(s, t, sp, page, k - 1);
        PageMapPoint(s, t, sp, page);
        if Leaf(s, t, sp, page).Some? && Leaf(s, t, sp, page).value.flags.user {
          UserAllTheWay(s, t, sp, page, k);
        }
      }
    }
  }

  /** Reading the leaf entry is as good as ANDing the permission bits down the whole walk. */
  lemma LeafCheckSuffices(s: State, t: Tree, sp: nat, page: nat)
    requires Shape(s, t) && sp in s.spaces && page < USER_PAGES
    ensures WalkPermissions(s.tables, s.spaces[sp].root, 4, page) ==
      if page in PageMap(s, sp) then (PageMap(s, sp)[page].flags.user, PageMap(s, sp)[page].flags.writable)
      else (false, false)
  {
    assert RootAt(s, t, sp);
    TopIndex(page);
    PermissionsFrom(s, t, sp, page, 4);
    PageMapPoint(s, t, sp, page);
  }
}
