/**
 * Four-level page tables. Frames, tables and entries are the machine's own: a table is 512
 * entries in a physical frame, an entry names another frame. Which frame plays which part is
 * nowhere recorded in the machine; a ghost `Tree` records it here, and `Shape` says that tables
 * and tree agree.
 */
module PageTables {
  import opened Base

  /** Pages in the user half: 256 top-level slots of 512 * 512 * 512 pages each. */
  const USER_PAGES: nat := 256 * 512 * 512 * 512

  datatype Flags = Flags(writable: bool, user: bool, huge: bool, foreign: bool, noExecute: bool, rest: nat)

  datatype Entry = Entry(present: bool, frame: nat, flags: Flags)

  const NO_FLAGS := Flags(false, false, false, false, false, 0)
  const ZERO := Entry(false, 0, NO_FLAGS)
  const TABLE_FLAGS := NO_FLAGS.(writable := true)

  type Table = t: seq<Entry> | |t| == 512 witness seq(512, _ => ZERO)
  type Page = d: seq<Byte> | |d| == 4096 witness seq(4096, _ => 0)

  function ZeroTable(): (z: Table)
    ensures forall i :: 0 <= i < 512 ==> z[i] == ZERO
  {
    seq(512, _ => ZERO)
  }

  function ZeroPage(): (z: Page)
    ensures forall i :: 0 <= i < 4096 ==> z[i] == 0
  {
    seq(4096, _ => 0)
  }

  datatype Space = Space(root: nat, resident: nat)

  /**
   * `tables` and `data` are the contents of the frames in use as tables and as memory; `outside`
   * are the frames somebody else owns, an inode or a device.
   */
  datatype State = State(
    tables: map<nat, Table>,
    data: map<nat, Page>,
    free: set<nat>,
    outside: set<nat>,
    spaces: map<nat, Space>,
    kernelHalf: seq<Entry>)

  // --- indices

  /** The page number with the low `k` table indices dropped. */
  function Prefix(page: nat, k: nat): nat
  {
    if k == 0 then page else Prefix(page, k - 1) / 512
  }

  /** The slot of `page` in its table at `level`: 4 is the PML4, 1 the page table. */
  function Index(page: nat, level: nat): (i: nat)
    requires level >= 1
    ensures i < 512
  {
    Prefix(page, level - 1) % 512
  }

  /** Slots of the user half in a table at `level`. */
  function Slots(level: nat): nat {
    if level == 4 then 256 else 512
  }

  lemma ShiftTwo(a: nat)
    ensures a / 0x1000 / 512 == a / 0x20_0000
  {
  }

  lemma ShiftThree(a: nat)
    ensures a / 0x20_0000 / 512 == a / 0x4000_0000
  {
  }

  lemma ShiftFour(a: nat)
    ensures a / 0x4000_0000 / 512 == a / 0x80_0000_0000
  {
  }

  /** `index_of`: shifting the address right by 12 + 9 * (level - 1) bits and keeping nine. */
  lemma IndexIsShift(address: nat, level: nat)
    requires 1 <= level <= 4
    ensures Index(address / 4096, level) == address / [1, 0x1000, 0x20_0000, 0x4000_0000, 0x80_0000_0000][level] % 512
  {
    ShiftTwo(address);
    ShiftThree(address);
    ShiftFour(address);
    var page := address / 4096;
    assert Prefix(page, 1) == page / 512;
    assert Prefix(page, 2) == Prefix(page, 1) / 512;
    assert Prefix(page, 3) == Prefix(page, 2) / 512;
  }

  // --- the walk the hardware and `walk_to_leaf_table` make

  /** The leaf entry reached from `frame`, or nothing when the walk stops early. */
  function Walk(tables: map<nat, Table>, frame: nat, level: nat, page: nat): Option<Entry>
    requires level >= 1
    decreases level
  {
    if frame !in tables then None
    else
      var e := tables[frame][Index(page, level)];
      if !e.present then None
      else if level == 1 then Some(e)
      else if e.flags.huge then None
      else Walk(tables, e.frame, level - 1, page)
  }

  /** The permission bits ANDed down the whole walk, as the CPU does. */
  function WalkPermissions(tables: map<nat, Table>, frame: nat, level: nat, page: nat): (bool, bool)
    requires level >= 1
    decreases level
  {
    if frame !in tables then (false, false)
    else
      var e := tables[frame][Index(page, level)];
      if !e.present then (false, false)
      else if level == 1 then (e.flags.user, e.flags.writable)
      else
        var (u, w) := WalkPermissions(tables, e.frame, level - 1, page);
        (e.flags.user && u, e.flags.writable && w)
  }

  /** `m` at page `n` is what the walk finds there. */
  ghost predicate MapsTo(s: State, sp: nat, m: map<nat, Entry>, n: nat)
    requires sp in s.spaces
  {
    if n in m then n < USER_PAGES && Walk(s.tables, s.spaces[sp].root, 4, n) == Some(m[n])
    else n < USER_PAGES ==> Walk(s.tables, s.spaces[sp].root, 4, n) == None
  }

  ghost predicate IsPageMap(s: State, sp: nat, m: map<nat, Entry>)
    requires sp in s.spaces
  {
    forall n: nat {:trigger MapsTo(s, sp, m, n)} :: MapsTo(s, sp, m, n)
  }

  lemma PageMapExists(s: State, sp: nat)
    requires sp in s.spaces
    ensures exists m :: IsPageMap(s, sp, m)
  {
    var m := map n: nat | n < USER_PAGES && Walk(s.tables, s.spaces[sp].root, 4, n).Some?
      :: Walk(s.tables, s.spaces[sp].root, 4, n).value;
    assert IsPageMap(s, sp, m);
  }

  /** A space as a finite map from user page to leaf entry: what all of this implements. */
  ghost function PageMap(s: State, sp: nat): (m: map<nat, Entry>)
    requires sp in s.spaces
    ensures IsPageMap(s, sp, m)
  {
    PageMapExists(s, sp);
    var m :| IsPageMap(s, sp, m);
    m
  }

  lemma PageMapUnique(s: State, sp: nat, m: map<nat, Entry>)
    requires sp in s.spaces && IsPageMap(s, sp, m)
    ensures m == PageMap(s, sp)
  {
    var k := PageMap(s, sp);
    forall n: nat | n in m ensures n in k && k[n] == m[n] {
      assert MapsTo(s, sp, m, n) && MapsTo(s, sp, k, n);
    }
    forall n: nat | n in k ensures n in m {
      assert MapsTo(s, sp, m, n) && MapsTo(s, sp, k, n);
    }
  }

  // --- the ghost tree

  /** A table (level 1 to 4) or page (level 0) of a space, named by the addresses it covers. */
  datatype Place = Place(space: nat, level: nat, prefix: nat)

  datatype Tree = Tree(node: map<Place, nat>, loc: map<nat, Place>)

  function Parent(q: Place): Place {
    Place(q.space, q.level + 1, q.prefix / 512)
  }

  function Child(q: Place, i: nat): Place
    requires q.level >= 1
  {
    Place(q.space, q.level - 1, q.prefix * 512 + i)
  }

  lemma ChildParent(q: Place, i: nat)
    requires q.level >= 1 && i < 512
    ensures Parent(Child(q, i)) == q && Child(q, i).prefix % 512 == i
  {
  }

  /** Distinct frames at distinct places: the two maps are each other's inverse. */
  ghost predicate Inverse(t: Tree) {
    && (forall q :: q in t.node ==> t.node[q] in t.loc && t.loc[t.node[q]] == q)
    && (forall f :: f in t.loc ==> t.loc[f] in t.node && t.node[t.loc[f]] == f)
  }

  ghost predicate IsTable(s: State, t: Tree, q: Place) {
    q in t.node && t.node[q] in s.tables
  }

  ghost function EntryAt(s: State, t: Tree, q: Place, i: nat): Entry
    requires IsTable(s, t, q) && i < 512
  {
    s.tables[t.node[q]][i]
  }

  /** The entry in the parent table really names this place's frame. */
  ghost predicate Hangs(s: State, t: Tree, q: Place)
    requires q in t.node
  {
    && q.level < 4
    && q.prefix % 512 < Slots(q.level + 1)
    && IsTable(s, t, Parent(q))
    && var e := EntryAt(s, t, Parent(q), q.prefix % 512);
       e.present && e.frame == t.node[q] && (q.level == 0 ==> !e.flags.foreign)
  }

  /** A present entry of a user-half table leads where it should and permits what lies below. */
  ghost predicate EntryOk(s: State, t: Tree, q: Place, i: nat)
    requires q.level >= 1 && IsTable(s, t, q) && i < 512
  {
    var e := EntryAt(s, t, q, i);
    e.present ==>
      && (q.level > 1 ==> !e.flags.huge && e.flags.writable)
      && (q.level > 1 || !e.flags.foreign ==> Child(q, i) in t.node && t.node[Child(q, i)] == e.frame)
      && (q.level == 1 && e.flags.foreign ==> e.frame in s.outside)
      && (q.level < 4 && e.flags.user ==>
            IsTable(s, t, Parent(q)) && EntryAt(s, t, Parent(q), q.prefix % 512).flags.user)
  }

  ghost predicate At(s: State, t: Tree, q: Place)
    requires q in t.node
  {
    && q.space in s.spaces
    && q.level <= 4
    && (q.level == 4 ==> q.prefix == 0 && t.node[q] == s.spaces[q.space].root)
    && (q.level < 4 ==> Hangs(s, t, q))
    && (q.level == 0 ==> t.node[q] in s.data)
    && (q.level >= 1 ==>
          && t.node[q] in s.tables
          && forall i: nat {:trigger EntryOk(s, t, q, i)} :: i < Slots(q.level) ==> EntryOk(s, t, q, i))
  }

  ghost predicate RootAt(s: State, t: Tree, sp: nat)
    requires sp in s.spaces
  {
    && Place(sp, 4, 0) in t.node
    && t.node[Place(sp, 4, 0)] == s.spaces[sp].root
    && s.spaces[sp].root in s.tables
    && s.tables[s.spaces[sp].root][256..] == s.kernelHalf
  }

  /** A frame has at most one use: free, a table, memory; and memory is ours or somebody else's. */
  ghost predicate FrameAt(s: State, t: Tree, f: nat) {
    && (f in s.free ==> f !in t.loc && f !in s.tables && f !in s.data)
    && (f in s.tables ==> f !in s.data)
    && (f in s.outside ==> f in s.data && f !in t.loc)
  }

  /** Tables, tree and free set agree: every frame in use below a root has exactly one place. */
  ghost predicate Shape(s: State, t: Tree) {
    && Inverse(t)
    && (forall q {:trigger At(s, t, q)} :: q in t.node ==> At(s, t, q))
    && (forall sp {:trigger RootAt(s, t, sp)} :: sp in s.spaces ==> RootAt(s, t, sp))
    && (forall f {:trigger FrameAt(s, t, f)} :: FrameAt(s, t, f))
    && |s.kernelHalf| == 256
  }

  ghost predicate CountedAt(s: State, sp: nat)
    requires sp in s.spaces
  {
    s.spaces[sp].resident == |PageMap(s, sp)|
  }

  ghost predicate Counted(s: State) {
    forall sp {:trigger CountedAt(s, sp)} :: sp in s.spaces ==> CountedAt(s, sp)
  }

  ghost predicate Inv(s: State, t: Tree) {
    Shape(s, t) && Counted(s)
  }

  // --- walking agrees with the tree

  /** The leaf entry of a page, read through the tree. */
  ghost function Leaf(s: State, t: Tree, sp: nat, page: nat): Option<Entry> {
    var q := Place(sp, 1, page / 512);
    if IsTable(s, t, q) && EntryAt(s, t, q, page % 512).present
    then Some(EntryAt(s, t, q, page % 512)) else None
  }

  lemma {:induction false} AncestorsPlaced(s: State, t: Tree, sp: nat, page: nat, k: nat)
    requires Shape(s, t) && 1 <= k <= 4
    requires Place(sp, 1, page / 512) in t.node
    ensures Prefix(page, 1) == page / 512
    ensures Place(sp, k, Prefix(page, k)) in t.node
  {
    assert Prefix(page, 1) == page / 512;
    if k > 1 {
      AncestorsPlaced(s, t, sp, page, k - 1);
      assert At(s, t, Place(sp, k - 1, Prefix(page, k - 1)));
    }
  }

  lemma {:induction false} WalkFromPlace(s: State, t: Tree, sp: nat, page: nat, k: nat)
    requires Shape(s, t) && 1 <= k <= 4 && page < USER_PAGES
    requires Place(sp, k, Prefix(page, k)) in t.node
    ensures Walk(s.tables, t.node[Place(sp, k, Prefix(page, k))], k, page) == Leaf(s, t, sp, page)
  {
    var q := Place(sp, k, Prefix(page, k));
    var i := Index(page, k);
    assert At(s, t, q);
    if k > 1 {
      TopIndex(page);
      assert EntryOk(s, t, q, i);
      assert Child(q, i) == Place(sp, k - 1, Prefix(page, k - 1));
      if Place(sp, 1, page / 512) in t.node {
        AncestorsPlaced(s, t, sp, page, k - 1);
        assert At(s, t, Child(q, i));
      }
      if EntryAt(s, t, q, i).present {
        WalkFromPlace(s, t, sp, page, k - 1);
      }
    }
  }

  lemma TopIndex(page: nat)
    requires page < USER_PAGES
    ensures Index(page, 4) < 256 && Prefix(page, 4) == 0
  {
    assert Prefix(page, 1) == page / 512;
    assert Prefix(page, 2) == page / 512 / 512;
    assert Prefix(page, 3) == page / 512 / 512 / 512;
    assert Prefix(page, 4) == page / 512 / 512 / 512 / 512;
  }

  lemma WalkIsLeaf(s: State, t: Tree, sp: nat, page: nat)
    requires Shape(s, t) && sp in s.spaces && page < USER_PAGES
    ensures Walk(s.tables, s.spaces[sp].root, 4, page) == Leaf(s, t, sp, page)
  {
    assert RootAt(s, t, sp);
    TopIndex(page);
    WalkFromPlace(s, t, sp, page, 4);
  }

  ghost predicate Point(m: map<nat, Entry>, n: nat, o: Option<Entry>) {
    if n in m then o == Some(m[n]) else o == None
  }

  /** The page map, read through the tree. */
  lemma PageMapPoint(s: State, t: Tree, sp: nat, n: nat)
    requires Shape(s, t) && sp in s.spaces
    ensures n < USER_PAGES ==> Point(PageMap(s, sp), n, Leaf(s, t, sp, n))
    ensures n >= USER_PAGES ==> n !in PageMap(s, sp)
  {
    assert MapsTo(s, sp, PageMap(s, sp), n);
    if n < USER_PAGES { WalkIsLeaf(s, t, sp, n); }
  }
}
