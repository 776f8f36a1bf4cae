/**
 * What the operations on a space mean to the programs in it: which bytes can be read where, and which of
 * them the processor lets user mode read and write.
 */
module UserView {
  import opened Base
  import opened PageTables
  import opened PageTableSteps
  import opened PageMaps
  import opened Teardown
  import opened Cloning
  import opened Isolation
  import opened Rollback
  import opened AddressSpaces

  /** What the processor grants at an address, with the bits of every level. */
  function Granted(s: State, sp: nat, a: nat): (bool, bool)
    requires sp in s.spaces
  {
    WalkPermissions(s.tables, s.spaces[sp].root, 4, a / 4096)
  }

  /** The address reads as before, and is as open as before. */
  ghost predicate SeenAlike(s: State, sp: nat, s': State, sp': nat, a: nat)
    requires sp in s.spaces && sp' in s'.spaces
  {
    ReadByte(s', sp', a) == ReadByte(s, sp, a) && Granted(s', sp', a) == Granted(s, sp, a)
  }

  /** A page kept on its frame, with the bytes of the frame kept, looks the same. */
  lemma KeptPage(s: State, t: Tree, s': State, t': Tree, sp: nat, a: nat)
    requires Inv(s, t) && Inv(s', t') && sp in s.spaces && sp in s'.spaces && a < USER_SPACE_END
    requires MemoryKept(s, s')
    requires a / 4096 in PageMap(s, sp) <==> a / 4096 in PageMap(s', sp)
    requires a / 4096 in PageMap(s, sp) ==> PageMap(s', sp)[a / 4096] == PageMap(s, sp)[a / 4096]
    ensures SeenAlike(s, sp, s', sp, a)
  {
    LeafCheckSuffices(s, t, sp, a / 4096);
    LeafCheckSuffices(s', t', sp, a / 4096);
    if a / 4096 in PageMap(s, sp) { LeafFrame(s, t, sp, a / 4096); }
  }

  /** Nothing changes for the other spaces. */
  lemma ElsewhereAlike(s: State, t: Tree, s': State, t': Tree, sp: nat, other: nat, a: nat)
    requires Inv(s, t) && Inv(s', t') && other in s.spaces && other != sp && a < USER_SPACE_END
    requires OnlySpace(s, s', sp) && MemoryKept(s, s')
    ensures SeenAlike(s, other, s', other, a)
  {
    KeptPage(s, t, s', t', other, a);
  }

  /** After `map_anonymous` the holes read as zeroes with the access asked for, and the rest is as it was. */
  lemma FilledSeen(s: State, t: Tree, s': State, t': Tree, sp: nat, start: nat, count: nat, flags: Flags, a: nat)
    requires Inv(s, t) && Inv(s', t') && sp in s.spaces && sp in s'.spaces && a < USER_SPACE_END
    requires MemoryKept(s, s') && Filled(s, s', sp, start, count, flags)
    ensures if start <= a / 4096 < start + count && ReadByte(s, sp, a).None?
      then ReadByte(s', sp, a) == Some(0) && Granted(s', sp, a) == (flags.user, flags.writable)
      else SeenAlike(s, sp, s', sp, a)
  {
    var n := a / 4096;
    if n in PageMap(s, sp) {
      LeafFrame(s, t, sp, n);
      KeptPage(s, t, s', t', sp, a);
    } else if start <= n < start + count {
      assert InRange(n, start, count);
      LeafCheckSuffices(s', t', sp, n);
    } else {
      KeptPage(s, t, s', t', sp, a);
    }
  }

  /** After a fork the child reads what the parent reads, with the same access. */
  lemma ForkSeen(s: State, t: Tree, src: nat, dst: nat, a: nat)
    requires Inv(s, t) && src in s.spaces && dst in s.spaces && IsCopy(s, src, dst) && a < USER_SPACE_END
    ensures SeenAlike(s, src, s, dst, a)
    ensures a / 4096 in PageMap(s, dst) <==> a / 4096 in PageMap(s, src)
    ensures a / 4096 in PageMap(s, src) ==>
      && PageMap(s, dst)[a / 4096].flags == PageMap(s, src)[a / 4096].flags
      && (src != dst ==>
        (PageMap(s, dst)[a / 4096].frame == PageMap(s, src)[a / 4096].frame <==>
          PageMap(s, src)[a / 4096].flags.foreign))
  {
    ForkReadsAlike(s, t, src, dst, a);
    LeafCheckSuffices(s, t, src, a / 4096);
    LeafCheckSuffices(s, t, dst, a / 4096);
    var n := a / 4096;
    if n in PageMap(s, src) {
      assert Matches(s, PageMap(s, src)[n], PageMap(s, dst)[n]);
      if src != dst && PageMap(s, dst)[n].frame == PageMap(s, src)[n].frame {
        ForkSharesForeignOnly(s, t, src, dst, n, n);
      }
    }
  }

  /** After `munmap` nothing of the range can be read, and the rest is as it was. */
  lemma UnmappedSeen(s: State, t: Tree, s': State, t': Tree, sp: nat, start: nat, count: nat, a: nat)
    requires Inv(s, t) && sp in s.spaces && Unmapped(s, s', t', sp, start, count) && a < USER_SPACE_END
    ensures if start <= a / 4096 < start + count
      then ReadByte(s', sp, a) == None && Granted(s', sp, a) == (false, false)
      else SeenAlike(s, sp, s', sp, a)
  {
    var n := a / 4096;
    if start <= n < start + count {
      assert InRange(n, start, count);
      LeafCheckSuffices(s', t', sp, n);
    } else {
      KeptPage(s, t, s', t', sp, a);
    }
  }

  /** The pages in a row end at the first hole. */
  lemma {:induction false} MappedEnds(m: map<nat, Entry>, start: nat, count: nat)
    ensures Mapped(m, start, count) <= count
    ensures Mapped(m, start, count) < count ==> start + Mapped(m, start, count) !in m
    ensures forall n :: start <= n < start + Mapped(m, start, count) ==> n in m
    decreases count
  {
    if count > 0 && start in m { MappedEnds(m, start + 1, count - 1); }
  }

  /** After `protect` every byte up to the first hole reads as before with the access asked for. */
  lemma ProtectedSeen(s: State, t: Tree, s': State, t': Tree, sp: nat, start: nat, count: nat, flags: Flags, a: nat)
    requires Inv(s, t) && sp in s.spaces && a < USER_SPACE_END
    requires Protected(s, s', t', sp, start, Mapped(PageMap(s, sp), start, count), flags)
    ensures ReadByte(s', sp, a) == ReadByte(s, sp, a)
    ensures Granted(s', sp, a) ==
      if start <= a / 4096 < start + count && forall n :: start <= n <= a / 4096 ==> n in PageMap(s, sp)
      then (flags.user, flags.writable) else Granted(s, sp, a)
  {
    var n, k := a / 4096, Mapped(PageMap(s, sp), start, count);
    MappedEnds(PageMap(s, sp), start, count);
    LeafCheckSuffices(s, t, sp, n);
    LeafCheckSuffices(s', t', sp, n);
    assert InRange(n, start, k) <==> start <= n < start + k;
    if n in PageMap(s, sp) { LeafFrame(s, t, sp, n); }
    if start <= n < start + count && forall i :: start <= i <= n ==> i in PageMap(s, sp) {
      assert k == count || start + k !in PageMap(s, sp);
    }
  }

  // --- what a space has to give back

  /** The frame of the table at level `k` that a walk to the page goes through. */
  function TableFor(tables: map<nat, Table>, frame: nat, level: nat, page: nat, k: nat): Option<nat>
    requires 1 <= k <= level
    decreases level
  {
    if level == k then Some(frame)
    else if frame !in tables || !tables[frame][Index(page, level)].present then None
    else TableFor(tables, tables[frame][Index(page, level)].frame, level - 1, page, k)
  }

  lemma {:induction false} TableForIs(s: State, t: Tree, sp: nat, page: nat, level: nat, k: nat)
    requires Shape(s, t) && sp in s.spaces && page < USER_PAGES && 1 <= k <= level <= 4
    requires Place(sp, level, Prefix(page, level)) in t.node
    ensures var q := Place(sp, k, Prefix(page, k));
      TableFor(s.tables, t.node[Place(sp, level, Prefix(page, level))], level, page, k) ==
        if q in t.node then Some(t.node[q]) else None
    decreases level
  {
    if level > k {
      var p, q, i := Place(sp, level, Prefix(page, level)), Place(sp, k, Prefix(page, k)), Index(page, level);
      assert At(s, t, p);
      TopIndex(page);
      Descend(sp, page, level);
      ChildHangs(s, t, p, i);
      if EntryAt(s, t, p, i).present {
        assert EntryOk(s, t, p, i);
        TableForIs(s, t, sp, page, level - 1, k);
      } else if q in t.node {
        AncestorPlaced(s, t, q, level - 1);
        PrefixLift(page, k, level - 1);
        assert false;
      }
    }
  }

  lemma {:induction false} PrefixLift(page: nat, k: nat, level: nat)
    requires k <= level
    ensures Prefix(Prefix(page, k), level - k) == Prefix(page, level)
    decreases level
  {
    if level > k { PrefixLift(page, k, level - 1); }
  }

  /** The first page under a place. */
  function FirstUnder(prefix: nat, k: nat): nat
    decreases k
  {
    if k == 0 then prefix else FirstUnder(prefix * 512, k - 1)
  }

  lemma {:induction false} FirstIsUnder(prefix: nat, k: nat)
    ensures Prefix(FirstUnder(prefix, k), k) == prefix
    decreases k
  {
    if k > 0 { FirstIsUnder(prefix * 512, k - 1); }
  }

  /** A table or private page on the way from the root. */
  ghost predicate Reached(s: State, sp: nat, f: nat)
    requires sp in s.spaces
  {
    || (exists n: nat, k: nat {:trigger TableFor(s.tables, s.spaces[sp].root, 4, n, k)} ::
          n < USER_PAGES && 1 <= k <= 3 && TableFor(s.tables, s.spaces[sp].root, 4, n, k) == Some(f))
    || (exists n :: n in PageMap(s, sp) && PageMap(s, sp)[n].frame == f && !PageMap(s, sp)[n].flags.foreign)
  }

  /** What teardown frees is exactly what walks from the root come through, but for foreign pages. */
  lemma OwnedExactly(s: State, t: Tree, sp: nat, f: nat)
    requires Inv(s, t) && sp in s.spaces
    ensures f in Owned(t, sp) <==> Reached(s, sp, f)
  {
    assert RootAt(s, t, sp);
    if f in Owned(t, sp) { OwnedReached(s, t, sp, f); }
    if n: nat, k: nat {:trigger TableFor(s.tables, s.spaces[sp].root, 4, n, k)} :|
      n < USER_PAGES && 1 <= k <= 3 && TableFor(s.tables, s.spaces[sp].root, 4, n, k) == Some(f) {
      TopIndex(n);
      TableForIs(s, t, sp, n, 4, k);
    }
    if n :| n in PageMap(s, sp) && PageMap(s, sp)[n].frame == f && !PageMap(s, sp)[n].flags.foreign {
      PrivatePlace(s, t, sp, n);
    }
  }

  lemma OwnedReached(s: State, t: Tree, sp: nat, f: nat)
    requires Inv(s, t) && sp in s.spaces && f in Owned(t, sp)
    ensures Reached(s, sp, f)
  {
    var q := t.loc[f];
    assert RootAt(s, t, sp) && At(s, t, q);
    if q.level == 0 {
      OwnedPage(s, t, q);
      PageMapPoint(s, t, sp, q.prefix);
    } else {
      var n := FirstUnder(q.prefix, q.level);
      FirstIsUnder(q.prefix, q.level);
      FirstInUserHalf(s, t, q);
      TopIndex(n);
      TableForIs(s, t, sp, n, 4, q.level);
      assert TableFor(s.tables, s.spaces[sp].root, 4, n, q.level) == Some(f);
    }
  }

  lemma FirstInUserHalf(s: State, t: Tree, q: Place)
    requires Shape(s, t) && q in t.node && 1 <= q.level <= 3
    ensures FirstUnder(q.prefix, q.level) < USER_PAGES
  {
    assert At(s, t, q);
    AncestorPlaced(s, t, q, 3);
    var a := Place(q.space, 3, Lift(q, 3));
    assert At(s, t, a);
    assert At(s, t, Parent(a));
    assert Lift(q, 3) < 256;
    var p := q.prefix;
    PrefixOf(p);
    if q.level == 1 {
      FirstOf(p);
      Bounded(p);
    } else if q.level == 2 {
      FirstOf(p);
    } else {
      FirstOf(p);
    }
  }

  lemma PrefixOf(p: nat)
    ensures Prefix(p, 1) == p / 512 && Prefix(p, 2) == p / 512 / 512
  {
    assert Prefix(p, 0) == p && Prefix(p, 1) == Prefix(p, 0) / 512;
  }

  lemma FirstOf(p: nat)
    ensures FirstUnder(p, 1) == p * 512 && FirstUnder(p, 2) == p * 512 * 512 && FirstUnder(p, 3) == p * 512 * 512 * 512
  {
    assert FirstUnder(p * 512, 1) == p * 512 * 512;
    assert FirstUnder(p * 512, 2) == FirstUnder(p * 512 * 512, 1) == p * 512 * 512 * 512;
  }

  lemma Bounded(p: nat)
    requires p / 512 / 512 < 256
    ensures p * 512 < USER_PAGES
  {
  }
}
