/** Making a space, and copying one for fork: how far the copy has got, and what it amounts to. */
module Cloning {
  import opened Base
  import opened PageTables
  import opened PageTableSteps
  import opened PageMaps
  import opened Teardown

  // --- a new space

  function NewSpace(s: State, sp: nat, f: nat, table: Table): State {
    State(s.tables[f := table], s.data, s.free - {f}, s.outside, s.spaces[sp := Space(f, 0)], s.kernelHalf)
  }

  ghost predicate IsRootTable(s: State, table: Table) {
    table[256..] == s.kernelHalf && forall i :: 0 <= i < 256 ==> table[i] == ZERO
  }

  ghost predicate CanAdd(s: State, t: Tree, sp: nat, f: nat, table: Table) {
    Inv(s, t) && sp !in s.spaces && f in s.free && IsRootTable(s, table)
  }

  lemma PlaceHasSpace(s: State, t: Tree, q: Place)
    requires Shape(s, t)
    ensures q in t.node ==> q.space in s.spaces
  {
    if q in t.node { assert At(s, t, q); }
  }

  lemma NewSpaceAt(s: State, t: Tree, sp: nat, f: nat, table: Table, q: Place)
    requires CanAdd(s, t, sp, f, table) && q in Grow(t, Place(sp, 4, 0), f).node
    ensures At(NewSpace(s, sp, f, table), Grow(t, Place(sp, 4, 0), f), q)
  {
    var s', t' := NewSpace(s, sp, f, table), Grow(t, Place(sp, 4, 0), f);
    assert FrameAt(s, t, f);
    if q != Place(sp, 4, 0) {
      assert At(s, t, q);
      forall i: nat | q.level >= 1 && i < Slots(q.level) ensures EntryOk(s', t', q, i) {
        assert EntryOk(s, t, q, i);
      }
    } else {
      forall i: nat | i < 256 ensures EntryOk(s', t', q, i) { }
    }
  }

  lemma NewSpaceShape(s: State, t: Tree, sp: nat, f: nat, table: Table)
    requires CanAdd(s, t, sp, f, table)
    ensures Shape(NewSpace(s, sp, f, table), Grow(t, Place(sp, 4, 0), f)) && Grown(t, Grow(t, Place(sp, 4, 0), f))
  {
    var s', t' := NewSpace(s, sp, f, table), Grow(t, Place(sp, 4, 0), f);
    PlaceHasSpace(s, t, Place(sp, 4, 0));
    assert FrameAt(s, t, f);
    forall q | q in t'.node ensures At(s', t', q) {
      NewSpaceAt(s, t, sp, f, table, q);
    }
    forall r | r in s'.spaces ensures RootAt(s', t', r) {
      if r != sp { assert RootAt(s, t, r); }
    }
    forall g ensures FrameAt(s', t', g) {
      assert FrameAt(s, t, g);
    }
  }

  lemma NewSpaceMap(s: State, t: Tree, sp: nat, f: nat, table: Table, r: nat)
    requires CanAdd(s, t, sp, f, table) && (r in s.spaces || r == sp)
    ensures PageMap(NewSpace(s, sp, f, table), r) == if r == sp then map[] else PageMap(s, r)
  {
    var s', t' := NewSpace(s, sp, f, table), Grow(t, Place(sp, 4, 0), f);
    NewSpaceShape(s, t, sp, f, table);
    assert FrameAt(s, t, f);
    if r == sp {
      forall n: nat | n in PageMap(s', sp) ensures false {
        PageMapPoint(s', t', sp, n);
        PlaceHasSpace(s, t, Place(sp, 1, n / 512));
      }
    } else {
      forall n: nat ensures Leaf(s', t', r, n) == Leaf(s, t, r, n) {
        var p := Place(r, 1, n / 512);
        if p in t.node { assert At(s, t, p); }
      }
      SameLeavesSameMap(s, t, s', t', r);
    }
  }

  /** A new space maps nothing, and no other space notices. */
  lemma NewSpaceKeeps(s: State, t: Tree, sp: nat, f: nat, table: Table)
    requires CanAdd(s, t, sp, f, table)
    ensures Inv(NewSpace(s, sp, f, table), Grow(t, Place(sp, 4, 0), f))
    ensures Grown(t, Grow(t, Place(sp, 4, 0), f))
    ensures PageMap(NewSpace(s, sp, f, table), sp) == map[]
    ensures forall r :: r in s.spaces ==> PageMap(NewSpace(s, sp, f, table), r) == PageMap(s, r)
  {
    var s' := NewSpace(s, sp, f, table);
    NewSpaceShape(s, t, sp, f, table);
    forall r | r in s'.spaces
      ensures PageMap(s', r) == (if r == sp then map[] else PageMap(s, r)) && CountedAt(s', r)
    {
      NewSpaceMap(s, t, sp, f, table, r);
      if r != sp { assert CountedAt(s, r); }
    }
  }

  // --- dropping a torn-down space: its root stays behind

  function Drop(s: State, sp: nat): State {
    State(s.tables, s.data, s.free, s.outside, s.spaces - {sp}, s.kernelHalf)
  }

  ghost function Dropped(t: Tree, sp: nat): Tree {
    Tree(map q | q in t.node && q.space != sp :: t.node[q], map f | f in t.loc && t.loc[f].space != sp :: t.loc[f])
  }

  lemma DropKeeps(s: State, t: Tree, sp: nat)
    requires Inv(s, t) && sp in s.spaces
    ensures Inv(Drop(s, sp), Dropped(t, sp))
    ensures forall r :: r in s.spaces && r != sp ==> PageMap(Drop(s, sp), r) == PageMap(s, r)
  {
    var s', t' := Drop(s, sp), Dropped(t, sp);
    forall q | q in t'.node ensures At(s', t', q) {
      assert At(s, t, q);
      forall i: nat | q.level >= 1 && i < Slots(q.level) ensures EntryOk(s', t', q, i) {
        assert EntryOk(s, t, q, i);
      }
    }
    forall r | r in s'.spaces ensures RootAt(s', t', r) && PageMap(s', r) == PageMap(s, r) && CountedAt(s', r) {
      assert RootAt(s, t, r) && CountedAt(s, r);
      PageMapDepends(s, s', r);
    }
    forall g ensures FrameAt(s', t', g) {
      assert FrameAt(s, t, g);
    }
  }

  // --- how far a copy has got

  /** `b` stands for `a` in the copy: same flags; a foreign frame is shared, any other has equal bytes. */
  ghost predicate Matches(s: State, a: Entry, b: Entry) {
    && b.present && b.flags == a.flags
    && (if a.flags.foreign then b.frame == a.frame
        else a.frame in s.data && b.frame in s.data && s.data[b.frame] == s.data[a.frame])
  }

  /** The copy holds the pages of level-`k` prefix below `c`, and nothing else. */
  ghost predicate CopiedBelow(s: State, src: nat, dst: nat, k: nat, c: nat)
    requires src in s.spaces && dst in s.spaces
  {
    var a, b := PageMap(s, src), PageMap(s, dst);
    && (forall n :: n in b ==> n in a && Prefix(n, k) < c)
    && (forall n :: n in a && Prefix(n, k) < c ==> n in b && Matches(s, a[n], b[n]))
  }

  ghost predicate MemoryKept(s0: State, s: State) {
    forall f :: f in s0.data ==> f in s.data && s.data[f] == s0.data[f]
  }

  /** Whatever the copy holds, no other space and no memory in use has changed. */
  ghost predicate CopyHeld(s0: State, s: State, t: Tree, src: nat, dst: nat) {
    && Inv(s, t) && src in s0.spaces && dst in s0.spaces && src != dst
    && OnlySpace(s0, s, dst) && MemoryKept(s0, s)
    && (forall f :: f in Owned(t, dst) ==> f !in s0.data)
  }

  lemma CopyHeldTrans(s0: State, s1: State, s2: State, t1: Tree, t2: Tree, src: nat, dst: nat)
    requires CopyHeld(s0, s1, t1, src, dst) && Inv(s2, t2) && OnlySpace(s1, s2, dst) && MemoryKept(s1, s2)
    requires Grown(t1, t2) && forall f :: f in t2.loc ==> f in t1.loc || f in s1.free
    ensures CopyHeld(s0, s2, t2, src, dst)
  {
    OnlySpaceTrans(s0, s1, s2, dst);
    forall f | f in Owned(t2, dst) ensures f !in s0.data {
      if f in t1.loc {
        assert t2.node[t1.loc[f]] == f;
        assert f in Owned(t1, dst);
      } else {
        assert FrameAt(s1, t1, f);
      }
    }
  }

  /** Copying one page extends the copy by that page. */
  lemma CopiedPage(s1: State, s2: State, src: nat, dst: nat, n: nat, e: Entry)
    requires src in s1.spaces && dst in s1.spaces && src != dst && OnlySpace(s1, s2, dst) && MemoryKept(s1, s2)
    requires CopiedBelow(s1, src, dst, 0, n) && n in PageMap(s1, src)
    requires PageMap(s2, dst) == PageMap(s1, dst)[n := e] && Matches(s2, PageMap(s1, src)[n], e)
    ensures CopiedBelow(s2, src, dst, 0, n + 1)
  {
    var a, b1, b2 := PageMap(s2, src), PageMap(s1, dst), PageMap(s2, dst);
    forall p | p in a && Prefix(p, 0) < n + 1 ensures p in b2 && Matches(s2, a[p], b2[p]) {
      if p != n { assert Matches(s1, a[p], b1[p]); }
    }
  }

  lemma CopiedHole(s: State, src: nat, dst: nat, n: nat)
    requires src in s.spaces && dst in s.spaces && CopiedBelow(s, src, dst, 0, n) && n !in PageMap(s, src)
    ensures CopiedBelow(s, src, dst, 0, n + 1)
  {
  }

  /** The whole user half has been copied: every page, byte for byte. */
  ghost predicate IsCopy(s: State, src: nat, dst: nat)
    requires src in s.spaces && dst in s.spaces
  {
    var a, b := PageMap(s, src), PageMap(s, dst);
    a.Keys == b.Keys && forall n :: n in a ==> Matches(s, a[n], b[n])
  }

  lemma CopiedAll(s: State, t: Tree, src: nat, dst: nat)
    requires Shape(s, t) && src in s.spaces && dst in s.spaces && CopiedBelow(s, src, dst, 3, 256)
    ensures IsCopy(s, src, dst)
  {
    var a, b := PageMap(s, src), PageMap(s, dst);
    forall n | n in a ensures Prefix(n, 3) < 256 {
      PageMapPoint(s, t, src, n);
      TopIndex(n);
      assert Prefix(n, 4) == Prefix(n, 3) / 512;
    }
  }

  lemma CopiedDown(s: State, src: nat, dst: nat, k: nat, c: nat)
    requires src in s.spaces && dst in s.spaces && k >= 1 && CopiedBelow(s, src, dst, k, c)
    ensures CopiedBelow(s, src, dst, k - 1, c * 512)
  {
    var a, b := PageMap(s, src), PageMap(s, dst);
    assert forall n: nat :: Prefix(n, k) == Prefix(n, k - 1) / 512;
  }

  lemma CopiedUp(s: State, src: nat, dst: nat, k: nat, c: nat)
    requires src in s.spaces && dst in s.spaces && k >= 1 && CopiedBelow(s, src, dst, k - 1, c * 512)
    ensures CopiedBelow(s, src, dst, k, c)
  {
    assert forall n: nat :: Prefix(n, k) == Prefix(n, k - 1) / 512;
  }

  /** Nothing is mapped under a place that is not there. */
  lemma CopiedSkip(s: State, t: Tree, src: nat, dst: nat, k: nat, c: nat)
    requires Shape(s, t) && src in s.spaces && dst in s.spaces && 1 <= k <= 3
    requires CopiedBelow(s, src, dst, k, c) && Place(src, k, c) !in t.node
    ensures CopiedBelow(s, src, dst, k, c + 1)
  {
    var a := PageMap(s, src);
    forall n | n in a ensures Prefix(n, k) != c {
      PageMapPoint(s, t, src, n);
      AncestorsPlaced(s, t, src, n, k);
    }
  }
}
