/** The single writes to page tables, and what each keeps. */
module PageTableSteps {
  import opened Base
  import opened PageTables

  function WriteEntry(s: State, frame: nat, i: nat, e: Entry): State
    requires frame in s.tables && i < 512
  {
    State(s.tables[frame := s.tables[frame][i := e]], s.data, s.free, s.outside, s.spaces, s.kernelHalf)
  }

  ghost predicate SameLeaves(s: State, t: Tree, s': State, t': Tree) {
    forall sp, n: nat :: Leaf(s', t', sp, n) == Leaf(s, t, sp, n)
  }

  /** Equal leaves, equal page map. */
  lemma SameLeavesSameMap(s: State, t: Tree, s': State, t': Tree, sp: nat)
    requires Shape(s, t) && Shape(s', t') && sp in s.spaces && sp in s'.spaces
    requires forall n: nat :: n < USER_PAGES ==> Leaf(s', t', sp, n) == Leaf(s, t, sp, n)
    ensures PageMap(s', sp) == PageMap(s, sp)
  {
    var m, m' := PageMap(s, sp), PageMap(s', sp);
    forall n: nat | n in m ensures n in m' && m'[n] == m[n] {
      PageMapPoint(s, t, sp, n);
      PageMapPoint(s', t', sp, n);
    }
    forall n: nat | n in m' ensures n in m {
      PageMapPoint(s, t, sp, n);
      PageMapPoint(s', t', sp, n);
    }
  }

  /** A child place in the tree is one the entry names. */
  lemma ChildHangs(s: State, t: Tree, q: Place, i: nat)
    requires Shape(s, t) && IsTable(s, t, q) && q.level >= 1 && i < 512
    ensures Child(q, i) in t.node ==> EntryAt(s, t, q, i).present && EntryAt(s, t, q, i).frame == t.node[Child(q, i)]
  {
    ChildParent(q, i);
    assert At(s, t, q);
    if Child(q, i) in t.node {
      assert At(s, t, Child(q, i));
    }
  }

  // --- ensure_table, first half: hang a fresh table

  function LinkTable(s: State, frame: nat, i: nat, fresh': nat): State
    requires frame in s.tables && i < 512
  {
    var taken := State(s.tables[fresh' := ZeroTable()][frame := s.tables[frame]], s.data, s.free - {fresh'},
                       s.outside, s.spaces, s.kernelHalf);
    WriteEntry(taken, frame, i, Entry(true, fresh', TABLE_FLAGS))
  }

  ghost function Grow(t: Tree, q: Place, f: nat): Tree {
    Tree(t.node[q := f], t.loc[f := q])
  }

  ghost predicate CanLink(s: State, t: Tree, q: Place, i: nat, f: nat) {
    && Shape(s, t) && IsTable(s, t, q) && 2 <= q.level <= 4 && i < Slots(q.level)
    && !EntryAt(s, t, q, i).present && f in s.free
  }

  lemma LinkTableAt(s: State, t: Tree, q: Place, i: nat, f: nat, p: Place)
    requires CanLink(s, t, q, i, f) && p in t.node && p != Child(q, i)
    ensures At(LinkTable(s, t.node[q], i, f), Grow(t, Child(q, i), f), p)
  {
    var s' := LinkTable(s, t.node[q], i, f);
    var t' := Grow(t, Child(q, i), f);
    ChildParent(q, i);
    ChildHangs(s, t, q, i);
    assert FrameAt(s, t, f);
    assert At(s, t, p);
    forall j: nat | p.level >= 1 && j < Slots(p.level) ensures EntryOk(s', t', p, j) {
      assert EntryOk(s, t, p, j);
      ChildParent(p, j);
    }
  }

  lemma LinkTableFresh(s: State, t: Tree, q: Place, i: nat, f: nat)
    requires CanLink(s, t, q, i, f)
    ensures At(LinkTable(s, t.node[q], i, f), Grow(t, Child(q, i), f), Child(q, i))
  {
    var s' := LinkTable(s, t.node[q], i, f);
    var t' := Grow(t, Child(q, i), f);
    ChildParent(q, i);
    assert FrameAt(s, t, f);
    assert At(s, t, q);
    forall j: nat | j < 512 ensures EntryOk(s', t', Child(q, i), j) { }
  }

  lemma LinkTableLeaves(s: State, t: Tree, q: Place, i: nat, f: nat)
    requires CanLink(s, t, q, i, f)
    ensures SameLeaves(s, t, LinkTable(s, t.node[q], i, f), Grow(t, Child(q, i), f))
  {
    var s' := LinkTable(s, t.node[q], i, f);
    var t' := Grow(t, Child(q, i), f);
    ChildHangs(s, t, q, i);
    assert FrameAt(s, t, f);
    forall sp, n: nat ensures Leaf(s', t', sp, n) == Leaf(s, t, sp, n) {
      var p := Place(sp, 1, n / 512);
      if p in t.node { assert At(s, t, p); }
    }
  }

  lemma LinkTableKeeps(s: State, t: Tree, q: Place, i: nat, f: nat)
    requires CanLink(s, t, q, i, f)
    ensures Shape(LinkTable(s, t.node[q], i, f), Grow(t, Child(q, i), f))
    ensures SameLeaves(s, t, LinkTable(s, t.node[q], i, f), Grow(t, Child(q, i), f))
  {
    var s' := LinkTable(s, t.node[q], i, f);
    var c := Child(q, i);
    var t' := Grow(t, c, f);
    ChildHangs(s, t, q, i);
    assert FrameAt(s, t, f);
    forall p | p in t'.node ensures At(s', t', p) {
      if p != c {
        LinkTableAt(s, t, q, i, f, p);
      } else {
        LinkTableFresh(s, t, q, i, f);
      }
    }
    forall sp | sp in s'.spaces ensures RootAt(s', t', sp) {
      LinkTableRoot(s, t, q, i, f, sp);
    }
    forall g ensures FrameAt(s', t', g) {
      assert FrameAt(s, t, g);
    }
    LinkTableLeaves(s, t, q, i, f);
  }

  lemma LinkTableRoot(s: State, t: Tree, q: Place, i: nat, f: nat, sp: nat)
    requires CanLink(s, t, q, i, f) && sp in s.spaces
    ensures RootAt(LinkTable(s, t.node[q], i, f), Grow(t, Child(q, i), f), sp)
  {
    assert RootAt(s, t, sp);
    assert At(s, t, q);
    assert FrameAt(s, t, f);
  }

  // --- ensure_table, second half: let user mode through

  function GrantUser(s: State, frame: nat, i: nat): State
    requires frame in s.tables && i < 512
  {
    var e := s.tables[frame][i];
    WriteEntry(s, frame, i, Entry(e.present, e.frame, e.flags.(user := true)))
  }

  ghost predicate CanGrant(s: State, t: Tree, q: Place, i: nat) {
    && Shape(s, t) && IsTable(s, t, q) && 2 <= q.level <= 4 && i < Slots(q.level)
    && EntryAt(s, t, q, i).present
    && (q.level < 4 ==> IsTable(s, t, Parent(q)) && EntryAt(s, t, Parent(q), q.prefix % 512).flags.user)
  }

  lemma GrantUserAt(s: State, t: Tree, q: Place, i: nat, p: Place)
    requires CanGrant(s, t, q, i) && p in t.node
    ensures At(GrantUser(s, t.node[q], i), t, p)
  {
    var s' := GrantUser(s, t.node[q], i);
    assert At(s, t, p);
    forall j: nat | p.level >= 1 && j < Slots(p.level) ensures EntryOk(s', t, p, j) {
      assert EntryOk(s, t, p, j);
    }
  }

  lemma GrantUserLeaves(s: State, t: Tree, q: Place, i: nat)
    requires CanGrant(s, t, q, i)
    ensures SameLeaves(s, t, GrantUser(s, t.node[q], i), t)
  {
    var s' := GrantUser(s, t.node[q], i);
    forall sp, n: nat ensures Leaf(s', t, sp, n) == Leaf(s, t, sp, n) {
      assert Place(sp, 1, n / 512) != q;
    }
  }

  lemma GrantUserKeeps(s: State, t: Tree, q: Place, i: nat)
    requires CanGrant(s, t, q, i)
    ensures Shape(GrantUser(s, t.node[q], i), t)
    ensures SameLeaves(s, t, GrantUser(s, t.node[q], i), t)
  {
    var s' := GrantUser(s, t.node[q], i);
    forall p | p in t.node ensures At(s', t, p) {
      GrantUserAt(s, t, q, i, p);
    }
    forall sp | sp in s'.spaces ensures RootAt(s', t, sp) {
      assert RootAt(s, t, sp);
      assert At(s, t, q);
    }
    forall g ensures FrameAt(s', t, g) {
      assert FrameAt(s, t, g);
    }
    GrantUserLeaves(s, t, q, i);
  }

  // --- writing one leaf entry

  /** The two trees differ at most at the page `c`. */
  ghost predicate DifferAt(t: Tree, t': Tree, c: Place) {
    && c.level == 0
    && Inverse(t')
    && forall p :: p != c ==> (p in t'.node <==> p in t.node) && (p in t.node ==> t'.node[p] == t.node[p])
  }

  /** Whoever is placed under the leaf entry afterwards is the frame the entry owns. */
  ghost predicate CanWriteLeaf(s: State, t: Tree, q: Place, i: nat, e: Entry, t': Tree) {
    && Shape(s, t) && IsTable(s, t, q) && q.level == 1 && i < 512
    && DifferAt(t, t', Child(q, i))
    && (Child(q, i) in t'.node <==> e.present && !e.flags.foreign)
    && (e.present && !e.flags.foreign ==> t'.node[Child(q, i)] == e.frame && e.frame in s.data)
    && (e.present && e.flags.foreign ==> e.frame in s.outside)
    && (e.present && e.flags.user ==>
          IsTable(s, t, Parent(q)) && EntryAt(s, t, Parent(q), q.prefix % 512).flags.user)
    && (forall f {:trigger FrameAt(s, t', f)} :: FrameAt(s, t', f))
  }

  lemma WriteLeafAt(s: State, t: Tree, q: Place, i: nat, e: Entry, t': Tree, p: Place)
    requires CanWriteLeaf(s, t, q, i, e, t') && p in t'.node
    ensures At(WriteEntry(s, t.node[q], i, e), t', p)
  {
    var s' := WriteEntry(s, t.node[q], i, e);
    ChildParent(q, i);
    assert At(s, t, q);
    if p != Child(q, i) {
      assert At(s, t, p);
      forall j: nat | p.level >= 1 && j < Slots(p.level) ensures EntryOk(s', t', p, j) {
        assert EntryOk(s, t, p, j);
        ChildParent(p, j);
      }
    }
  }

  lemma WriteLeafLeaves(s: State, t: Tree, q: Place, i: nat, e: Entry, t': Tree, sp: nat, n: nat)
    requires CanWriteLeaf(s, t, q, i, e, t')
    ensures Leaf(WriteEntry(s, t.node[q], i, e), t', sp, n) ==
      if Child(q, i) == Place(sp, 0, n) then (if e.present then Some(e) else None) else Leaf(s, t, sp, n)
  {
    ChildParent(q, i);
    var p := Place(sp, 1, n / 512);
    assert p.prefix * 512 + n % 512 == n;
  }

  lemma WriteLeafKeeps(s: State, t: Tree, q: Place, i: nat, e: Entry, t': Tree)
    requires CanWriteLeaf(s, t, q, i, e, t')
    ensures Shape(WriteEntry(s, t.node[q], i, e), t')
  {
    var s' := WriteEntry(s, t.node[q], i, e);
    forall p | p in t'.node ensures At(s', t', p) {
      WriteLeafAt(s, t, q, i, e, t', p);
    }
    forall sp | sp in s'.spaces ensures RootAt(s', t', sp) {
      assert RootAt(s, t, sp);
    }
    forall g ensures FrameAt(s', t', g) {
      assert FrameAt(s, t', g);
    }
  }

  /** `m'` at `n` is `m` with entry `e` written at `k`, or untouched when the write is elsewhere. */
  ghost predicate Updated(m: map<nat, Entry>, m': map<nat, Entry>, here: bool, k: nat, e: Entry, n: nat) {
    Point(m', n, if here && n == k then (if e.present then Some(e) else None)
                 else if n in m then Some(m[n]) else None)
  }

  lemma WriteLeafPoint(s: State, t: Tree, q: Place, i: nat, e: Entry, t': Tree, sp: nat, n: nat)
    requires CanWriteLeaf(s, t, q, i, e, t') && sp in s.spaces && Child(q, i).prefix < USER_PAGES
    ensures Updated(PageMap(s, sp), PageMap(WriteEntry(s, t.node[q], i, e), sp), sp == q.space, Child(q, i).prefix, e,
      n)
  {
    WriteLeafKeeps(s, t, q, i, e, t');
    PageMapPoint(s, t, sp, n);
    PageMapPoint(WriteEntry(s, t.node[q], i, e), t', sp, n);
    WriteLeafLeaves(s, t, q, i, e, t', sp, n);
  }

  /** Writing the leaf entry of a page writes that page of the map, and no page of any other space. */
  lemma WriteLeafMap(s: State, t: Tree, q: Place, i: nat, e: Entry, t': Tree, sp: nat)
    requires CanWriteLeaf(s, t, q, i, e, t') && sp in s.spaces
    requires Child(q, i).prefix < USER_PAGES
    ensures PageMap(WriteEntry(s, t.node[q], i, e), sp) ==
      if sp != q.space then PageMap(s, sp)
      else if e.present then PageMap(s, sp)[Child(q, i).prefix := e]
      else PageMap(s, sp) - {Child(q, i).prefix}
  {
    var m, m' := PageMap(s, sp), PageMap(WriteEntry(s, t.node[q], i, e), sp);
    var k, here := Child(q, i).prefix, sp == q.space;
    forall n: nat ensures Updated(m, m', here, k, e, n) {
      WriteLeafPoint(s, t, q, i, e, t', sp, n);
    }
    PointwiseUpdate(m, m', here, k, e);
  }

  lemma PointwiseUpdate(m: map<nat, Entry>, m': map<nat, Entry>, here: bool, k: nat, e: Entry)
    requires forall n :: n in m ==> Updated(m, m', here, k, e, n)
    requires forall n :: n in m' ==> Updated(m, m', here, k, e, n)
    requires Updated(m, m', here, k, e, k)
    ensures m' == if !here then m else if e.present then m[k := e] else m - {k}
  {
    if !here {
      assert m' == m;
    } else if e.present {
      assert m' == m[k := e];
    }
  }
}
