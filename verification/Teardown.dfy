/** What a space owns below its root, and the states passed through while it is torn down. */
module Teardown {
  import opened Base
  import opened PageTables
  import opened PageTableSteps
  import opened PageMaps

  /** The prefix of the place's ancestor at level `k`. */
  ghost function Lift(q: Place, k: nat): nat
    requires q.level <= k
  {
    Prefix(q.prefix, k - q.level)
  }

  ghost predicate Within(q: Place, sp: nat, k: nat, lo: nat, hi: nat) {
    q.space == sp && q.level <= k && lo <= Lift(q, k) < hi
  }

  /** Frames placed at or under the level-`k` places with prefixes in `[lo, hi)`. */
  ghost function Span(t: Tree, sp: nat, k: nat, lo: nat, hi: nat): set<nat> {
    set f | f in t.loc && Within(t.loc[f], sp, k, lo, hi)
  }

  /** Everything a space owns: tables and memory, not the root. */
  ghost function Owned(t: Tree, sp: nat): set<nat> {
    set f | f in t.loc && t.loc[f].space == sp && t.loc[f].level < 4
  }

  lemma {:induction false} AncestorPlaced(s: State, t: Tree, q: Place, k: nat)
    requires Shape(s, t) && q in t.node && q.level <= k <= 4
    ensures Place(q.space, k, Lift(q, k)) in t.node
    decreases k
  {
    if k > q.level {
      AncestorPlaced(s, t, q, k - 1);
      assert At(s, t, Place(q.space, k - 1, Lift(q, k - 1)));
    }
  }

  lemma SpanNext(t: Tree, sp: nat, k: nat, lo: nat, hi: nat)
    requires lo <= hi
    ensures Span(t, sp, k, lo, hi + 1) == Span(t, sp, k, lo, hi) + Span(t, sp, k, hi, hi + 1)
    ensures Span(t, sp, k, lo, lo) == {}
  {
  }

  /** A place and what lies under it. */
  lemma SpanOne(t: Tree, sp: nat, k: nat, c: nat)
    requires Inverse(t)
    ensures Span(t, sp, k, c, c + 1) ==
      (if k == 0 then {} else Span(t, sp, k - 1, c * 512, (c + 1) * 512)) +
      (if Place(sp, k, c) in t.node then {t.node[Place(sp, k, c)]} else {})
  {
    var below := if k == 0 then {} else Span(t, sp, k - 1, c * 512, (c + 1) * 512);
    var here := if Place(sp, k, c) in t.node then {t.node[Place(sp, k, c)]} else {};
    forall f | f in t.loc ensures f in Span(t, sp, k, c, c + 1) <==> f in below || f in here {
      var q := t.loc[f];
      if q.space == sp && q.level < k {
        assert Lift(q, k) == Lift(q, k - 1) / 512;
      }
    }
  }

  lemma SpanAbsent(s: State, t: Tree, sp: nat, k: nat, c: nat)
    requires Shape(s, t) && k <= 4 && Place(sp, k, c) !in t.node
    ensures Span(t, sp, k, c, c + 1) == {}
  {
    forall f | f in t.loc ensures f !in Span(t, sp, k, c, c + 1) {
      var q := t.loc[f];
      if q.level <= k { AncestorPlaced(s, t, q, k); }
    }
  }

  lemma SpanAll(s: State, t: Tree, sp: nat)
    requires Shape(s, t)
    ensures Span(t, sp, 3, 0, 256) == Owned(t, sp)
  {
    forall f | f in Owned(t, sp) ensures f in Span(t, sp, 3, 0, 256) {
      var q := t.loc[f];
      AncestorPlaced(s, t, q, 3);
      var a := Place(sp, 3, Lift(q, 3));
      assert At(s, t, a);
      assert At(s, t, Parent(a));
    }
  }

  // --- states during teardown

  ghost predicate TornAt(s0: State, root: nat, done: set<nat>, s: State, f: nat) {
    && (f in s.tables <==> f in s0.tables && f !in done)
    && (f in s.tables && f != root ==> s.tables[f] == s0.tables[f])
    && (f in s.data <==> f in s0.data && f !in done)
    && (f in s.data ==> s.data[f] == s0.data[f])
    && (f in s.free <==> f in s0.free || f in done)
  }

  /** `s` is `s0` with the frames of `done` freed, the root table aside. */
  ghost predicate Torn(s0: State, root: nat, done: set<nat>, s: State) {
    && s.spaces == s0.spaces && s.outside == s0.outside && s.kernelHalf == s0.kernelHalf
    && forall f {:trigger TornAt(s0, root, done, s, f)} :: TornAt(s0, root, done, s, f)
  }

  function FreeFrame(s: State, f: nat): State {
    State(s.tables - {f}, s.data - {f}, s.free + {f}, s.outside, s.spaces, s.kernelHalf)
  }

  lemma TornFree(s0: State, root: nat, done: set<nat>, s: State, f: nat)
    requires Torn(s0, root, done, s)
    ensures Torn(s0, root, done + {f}, FreeFrame(s, f))
  {
    forall g ensures TornAt(s0, root, done + {f}, FreeFrame(s, f), g) {
      assert TornAt(s0, root, done, s, g);
    }
  }

  /** A placed frame not yet freed is still there, unchanged, and not free. */
  lemma StillThere(s0: State, t: Tree, root: nat, done: set<nat>, s: State, q: Place)
    requires Shape(s0, t) && Torn(s0, root, done, s) && q in t.node && t.node[q] !in done
    ensures t.node[q] !in s.free
    ensures q.level >= 1 ==> t.node[q] in s.tables
    ensures 1 <= q.level <= 3 && q.space in s0.spaces && root == s0.spaces[q.space].root ==>
      t.node[q] in s0.tables && s.tables[t.node[q]] == s0.tables[t.node[q]]
  {
    var f := t.node[q];
    assert At(s0, t, q) && FrameAt(s0, t, f) && TornAt(s0, root, done, s, f);
    assert RootAt(s0, t, q.space);
  }

  /** The subtree at `q` is whole: none of it is among the frames freed so far. */
  ghost predicate Whole(s0: State, t: Tree, q: Place, done: set<nat>) {
    && Shape(s0, t) && q in t.node && 1 <= q.level <= 3 && q.space in s0.spaces
    && s0.spaces[q.space].root !in done
    && forall f :: f in done && f in t.loc ==> !Within(t.loc[f], q.space, q.level, q.prefix, q.prefix + 1)
  }

  ghost predicate Tearing(s0: State, t: Tree, q: Place, done: set<nat>, s: State) {
    && Whole(s0, t, q, done) && Torn(s0, s0.spaces[q.space].root, done, s)
    && s0.spaces[q.space].root in s.tables
  }

  /** The table at `q` stands and its slots from `i` on are whole. */
  ghost predicate TearingSlot(s0: State, t: Tree, q: Place, i: nat, cur: set<nat>, s: State) {
    && Shape(s0, t) && q in t.node && 1 <= q.level <= 3 && q.space in s0.spaces && i < 512
    && s0.spaces[q.space].root !in cur && t.node[q] !in cur
    && Torn(s0, s0.spaces[q.space].root, cur, s) && s0.spaces[q.space].root in s.tables
    && t.node[q] in s.tables && t.node[q] in s0.tables && s.tables[t.node[q]] == s0.tables[t.node[q]]
    && forall f :: f in cur && f in t.loc ==>
         !Within(t.loc[f], q.space, q.level - 1, q.prefix * 512 + i, q.prefix * 512 + i + 1)
  }

  lemma SlotsStand(s0: State, t: Tree, q: Place, done: set<nat>, i: nat, s: State)
    requires Whole(s0, t, q, done) && i < 512
    requires Torn(s0, s0.spaces[q.space].root,
      done + Span(t, q.space, q.level - 1, q.prefix * 512, q.prefix * 512 + i), s)
    requires s0.spaces[q.space].root in s.tables
    ensures TearingSlot(s0, t, q, i, done + Span(t, q.space, q.level - 1, q.prefix * 512, q.prefix * 512 + i), s)
  {
    var c := q.prefix * 512 + i;
    var cur := done + Span(t, q.space, q.level - 1, q.prefix * 512, c);
    assert RootAt(s0, t, q.space);
    assert Lift(q, q.level) == q.prefix;
    forall f | f in cur && f in t.loc ensures !Within(t.loc[f], q.space, q.level - 1, c, c + 1) {
      var p := t.loc[f];
      if p.space == q.space && p.level <= q.level - 1 {
        assert Lift(p, q.level) == Lift(p, q.level - 1) / 512;
      }
    }
    StillThere(s0, t, s0.spaces[q.space].root, cur, s, q);
  }

  /** What one slot spans: nothing, a page, or a subtable and all under it. */
  lemma SlotSpan(s0: State, t: Tree, q: Place, i: nat, cur: set<nat>, s: State)
    requires TearingSlot(s0, t, q, i, cur, s)
    ensures var e := s.tables[t.node[q]][i]; var c := q.prefix * 512 + i;
      var span := Span(t, q.space, q.level - 1, c, c + 1);
      && (!e.present || (q.level == 1 && e.flags.foreign) ==> span == {})
      && (e.present && q.level == 1 && !e.flags.foreign ==>
        && span == {e.frame} && e.frame !in s.free
        && e.frame != s0.spaces[q.space].root)
      && (e.present && q.level > 1 ==>
            && !e.flags.huge && Child(q, i) in t.node && t.node[Child(q, i)] == e.frame
            && Tearing(s0, t, Child(q, i), cur, s)
            && span == Span(t, q.space, q.level - 2, c * 512, (c + 1) * 512) + {e.frame})
  {
    var e, c := s.tables[t.node[q]][i], q.prefix * 512 + i;
    assert At(s0, t, q) && RootAt(s0, t, q.space);
    assert EntryOk(s0, t, q, i);
    ChildHangs(s0, t, q, i);
    ChildParent(q, i);
    SpanOne(t, q.space, q.level - 1, c);
    if Child(q, i) !in t.node {
      SpanAbsent(s0, t, q.space, q.level - 1, c);
    } else {
      assert At(s0, t, Child(q, i));
      assert Lift(Child(q, i), q.level - 1) == c;
      StillThere(s0, t, s0.spaces[q.space].root, cur, s, Child(q, i));
    }
  }

  lemma ChildStands(s0: State, t: Tree, q: Place, i: nat, cur: set<nat>, s: State)
    requires Shape(s0, t) && q in t.node && 2 <= q.level <= 3 && q.space in s0.spaces && i < 512
    requires Child(q, i) in t.node && Whole(s0, t, Child(q, i), cur)
    requires var c := Child(q, i).prefix;
      Torn(s0, s0.spaces[q.space].root, cur + Span(t, q.space, q.level - 2, c * 512, (c + 1) * 512), s)
    ensures t.node[Child(q, i)] !in s.free
    ensures t.node[Child(q, i)] != s0.spaces[q.space].root
  {
    var p := Child(q, i);
    assert RootAt(s0, t, q.space);
    assert Lift(p, p.level) == p.prefix;
    StillThere(s0, t, s0.spaces[q.space].root,
      cur + Span(t, q.space, q.level - 2, p.prefix * 512, (p.prefix + 1) * 512), s, p);
  }

  /** Part-way through the top level: slots before `i` are gone, the rest is as it was. */
  ghost predicate TearingRoot(s0: State, t: Tree, sp: nat, i: nat, s: State) {
    && Shape(s0, t) && sp in s0.spaces && i <= 256
    && var root := s0.spaces[sp].root;
       && root in s0.tables && root in s.tables && Torn(s0, root, Span(t, sp, 3, 0, i), s)
       && (forall j :: 0 <= j < i ==> !s.tables[root][j].present)
       && s.tables[root][i..] == s0.tables[root][i..]
  }

  lemma RootSlotSpan(s0: State, t: Tree, sp: nat, i: nat, s: State)
    requires TearingRoot(s0, t, sp, i, s) && i < 256
    ensures var e := s.tables[s0.spaces[sp].root][i]; var q := Place(sp, 3, i);
      && (!e.present ==> Span(t, sp, 3, i, i + 1) == {})
      && (e.present ==>
            && q in t.node && t.node[q] == e.frame && Tearing(s0, t, q, Span(t, sp, 3, 0, i), s)
            && Span(t, sp, 3, i, i + 1) == Span(t, sp, 2, i * 512, (i + 1) * 512) + {e.frame})
  {
    var r, q := Place(sp, 4, 0), Place(sp, 3, i);
    var e := s.tables[s0.spaces[sp].root][i];
    assert RootAt(s0, t, sp);
    assert At(s0, t, r);
    assert EntryOk(s0, t, r, i);
    assert Child(r, i) == q;
    ChildHangs(s0, t, r, i);
    assert e == s.tables[s0.spaces[sp].root][i..][0];
    SpanOne(t, sp, 3, i);
    assert Lift(q, 3) == i;
    if q !in t.node {
      SpanAbsent(s0, t, sp, 3, i);
    }
  }

  lemma RootChildStands(s0: State, t: Tree, sp: nat, i: nat, cur: set<nat>, s: State)
    requires Place(sp, 3, i) in t.node && Whole(s0, t, Place(sp, 3, i), cur)
    requires Torn(s0, s0.spaces[sp].root, cur + Span(t, sp, 2, i * 512, (i + 1) * 512), s)
    ensures t.node[Place(sp, 3, i)] !in s.free && t.node[Place(sp, 3, i)] != s0.spaces[sp].root
  {
    var q := Place(sp, 3, i);
    assert RootAt(s0, t, sp);
    assert Lift(q, 3) == i;
    StillThere(s0, t, s0.spaces[sp].root, cur + Span(t, sp, 2, i * 512, (i + 1) * 512), s, q);
  }

  lemma TornRootWrite(s0: State, root: nat, done: set<nat>, s: State, i: nat, e: Entry)
    requires Torn(s0, root, done, s) && root in s.tables && i < 512
    ensures Torn(s0, root, done, WriteEntry(s, root, i, e))
  {
    forall f ensures TornAt(s0, root, done, WriteEntry(s, root, i, e), f) {
      assert TornAt(s0, root, done, s, f);
    }
  }

  lemma TornStart(s: State, t: Tree, sp: nat)
    requires Shape(s, t) && sp in s.spaces
    ensures TearingRoot(s, t, sp, 0, s)
  {
    assert RootAt(s, t, sp);
    SpanNext(t, sp, 3, 0, 0);
    forall f ensures TornAt(s, s.spaces[sp].root, {}, s, f) { }
  }

  lemma TornEnd(s0: State, t: Tree, sp: nat, s: State)
    requires TearingRoot(s0, t, sp, 256, s)
    ensures TornDown(s0, t, sp, s)
  {
    SpanAll(s0, t, sp);
  }

  // --- afterwards

  ghost function Uprooted(t: Tree, sp: nat): Tree {
    Tree(map q | q in t.node && !(q.space == sp && q.level < 4) :: t.node[q],
         map f | f in t.loc && !(t.loc[f].space == sp && t.loc[f].level < 4) :: t.loc[f])
  }

  ghost predicate TornDown(s0: State, t: Tree, sp: nat, s: State) {
    && sp in s0.spaces && Torn(s0, s0.spaces[sp].root, Owned(t, sp), s)
    && var root := s0.spaces[sp].root;
       root in s.tables && root in s0.tables
       && s.tables[root][256..] == s0.tables[root][256..]
       && forall i :: 0 <= i < 256 ==> !s.tables[root][i].present
  }

  lemma OtherTablesKept(s0: State, t: Tree, sp: nat, s: State, q: Place)
    requires Shape(s0, t) && TornDown(s0, t, sp, s) && q in t.node && q.space != sp
    ensures q.level >= 1 ==>
      && t.node[q] in s.tables && t.node[q] in s0.tables
      && s.tables[t.node[q]] == s0.tables[t.node[q]]
    ensures q.level == 0 ==> t.node[q] in s.data && t.node[q] in s0.data && s.data[t.node[q]] == s0.data[t.node[q]]
  {
    assert At(s0, t, q) && RootAt(s0, t, sp);
    assert TornAt(s0, s0.spaces[sp].root, Owned(t, sp), s, t.node[q]);
  }

  lemma TornDownAt(s0: State, t: Tree, sp: nat, s: State, q: Place)
    requires Shape(s0, t) && TornDown(s0, t, sp, s) && q in Uprooted(t, sp).node
    ensures At(s, Uprooted(t, sp), q)
  {
    var t' := Uprooted(t, sp);
    assert At(s0, t, q);
    if q.space != sp {
      OtherTablesKept(s0, t, sp, s, q);
      if q.level < 4 { OtherTablesKept(s0, t, sp, s, Parent(q)); }
      forall i: nat | q.level >= 1 && i < Slots(q.level) ensures EntryOk(s, t', q, i) {
        assert EntryOk(s0, t, q, i);
        var e := EntryAt(s0, t, q, i);
        if e.present && q.level == 1 && e.flags.foreign {
          assert FrameAt(s0, t, e.frame);
        }
      }
    } else {
      forall i: nat | i < 256 ensures EntryOk(s, t', q, i) { }
    }
  }

  lemma TornDownFrames(s0: State, t: Tree, sp: nat, s: State, f: nat)
    requires Shape(s0, t) && TornDown(s0, t, sp, s)
    ensures FrameAt(s, Uprooted(t, sp), f)
  {
    assert FrameAt(s0, t, f) && TornAt(s0, s0.spaces[sp].root, Owned(t, sp), s, f);
  }

  lemma TornDownShape(s0: State, t: Tree, sp: nat, s: State)
    requires Shape(s0, t) && TornDown(s0, t, sp, s)
    ensures Shape(s, Uprooted(t, sp))
  {
    var t' := Uprooted(t, sp);
    forall q | q in t'.node ensures At(s, t', q) {
      TornDownAt(s0, t, sp, s, q);
    }
    forall f ensures FrameAt(s, t', f) {
      TornDownFrames(s0, t, sp, s, f);
    }
    forall r | r in s.spaces ensures RootAt(s, t', r) {
      assert RootAt(s0, t, r) && RootAt(s0, t, sp);
      if r != sp { OtherTablesKept(s0, t, sp, s, Place(r, 4, 0)); }
    }
  }

  lemma TornDownMap(s0: State, t: Tree, sp: nat, s: State, r: nat)
    requires Shape(s0, t) && TornDown(s0, t, sp, s) && r in s0.spaces
    ensures PageMap(s, r) == if r == sp then map[] else PageMap(s0, r)
  {
    var t' := Uprooted(t, sp);
    TornDownShape(s0, t, sp, s);
    if r == sp {
      forall n: nat | n in PageMap(s, sp) ensures false {
        PageMapPoint(s, t', sp, n);
      }
    } else {
      forall n: nat ensures Leaf(s, t', r, n) == Leaf(s0, t, r, n) {
        var p := Place(r, 1, n / 512);
        if p in t.node { OtherTablesKept(s0, t, sp, s, p); }
      }
      SameLeavesSameMap(s0, t, s, t', r);
    }
  }

  function Emptied(s: State, sp: nat): State
    requires sp in s.spaces
  {
    State(s.tables, s.data, s.free, s.outside, s.spaces[sp := Space(s.spaces[sp].root, 0)], s.kernelHalf)
  }

  /** A space torn down maps nothing, owns nothing but its root, and no other space noticed. */
  lemma TornDownKeeps(s0: State, t: Tree, sp: nat, s: State)
    requires Inv(s0, t) && TornDown(s0, t, sp, s)
    ensures var s' := Emptied(s, sp);
      Inv(s', Uprooted(t, sp)) && OnlySpace(s0, s', sp) && PageMap(s', sp) == map[]
  {
    var s' := Emptied(s, sp);
    TornDownShape(s0, t, sp, s);
    CountKeepsShape(s, Uprooted(t, sp), sp, 0);
    forall r | r in s0.spaces
      ensures PageMap(s', r) == (if r == sp then map[] else PageMap(s0, r)) && CountedAt(s', r)
    {
      TornDownMap(s0, t, sp, s, r);
      PageMapDepends(s, s', r);
      assert CountedAt(s0, r);
    }
  }

  /** The memory a space owns is the memory its page map refers to and nobody else has. */
  lemma OwnedMemory(s: State, t: Tree, sp: nat, f: nat)
    requires Shape(s, t) && sp in s.spaces && f in s.data
    ensures f in Owned(t, sp) <==>
      exists n :: n in PageMap(s, sp) && !PageMap(s, sp)[n].flags.foreign && PageMap(s, sp)[n].frame == f
  {
    assert FrameAt(s, t, f);
    if f in Owned(t, sp) {
      var q := t.loc[f];
      assert At(s, t, q);
      OwnedPage(s, t, q);
      PageMapPoint(s, t, sp, q.prefix);
    }
    forall n | n in PageMap(s, sp) && !PageMap(s, sp)[n].flags.foreign && PageMap(s, sp)[n].frame == f
      ensures f in Owned(t, sp)
    {
      PageMapPoint(s, t, sp, n);
      var p := Place(sp, 1, n / 512);
      assert At(s, t, p);
      assert EntryOk(s, t, p, n % 512);
    }
  }

  /** A placed page is a user page, and the walk finds it. */
  lemma OwnedPage(s: State, t: Tree, q: Place)
    requires Shape(s, t) && q in t.node && q.level == 0
    ensures q.prefix < USER_PAGES
    ensures Leaf(s, t, q.space, q.prefix).Some? && Leaf(s, t, q.space, q.prefix).value.frame == t.node[q]
    ensures !Leaf(s, t, q.space, q.prefix).value.flags.foreign
  {
    assert At(s, t, q);
    var p1 := Parent(q);
    assert At(s, t, p1);
    var p2 := Parent(p1);
    assert At(s, t, p2);
    var p3 := Parent(p2);
    assert At(s, t, p3);
    assert At(s, t, Parent(p3));
  }
}
