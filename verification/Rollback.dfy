/**
 * What an anonymous mapping costs, and what is left when it cannot be paid. A page needs its own
 * frame and one for every table above it that is not there yet.
 */
module Rollback {
  import opened Base
  import opened PageTables
  import opened PageTableSteps
  import opened PageMaps
  import opened Teardown

  predicate InRange(n: nat, start: nat, count: nat) {
    start <= n < start + count
  }

  /** The map with a range of pages taken out. */
  ghost function Without(m: map<nat, Entry>, start: nat, count: nat): map<nat, Entry> {
    map n | n in m && !InRange(n, start, count) :: m[n]
  }

  /** Where the table of a page at a level goes. */
  ghost function Above(sp: nat, page: nat, level: nat): Place {
    Place(sp, level, Prefix(page, level))
  }

  /** The tables above a page, from level `low` to 3; every space has the table at level 4. */
  ghost function TablesOf(sp: nat, page: nat, low: nat): (s: set<Place>)
    ensures forall q :: q in s ==> q.space == sp && low <= q.level <= 3 && q == Above(sp, page, q.level)
    ensures forall k {:trigger Above(sp, page, k)} :: low <= k <= 3 ==> Above(sp, page, k) in s
  {
    set k: nat {:trigger Above(sp, page, k)} | low <= k <= 3 :: Above(sp, page, k)
  }

  /** A page and the tables above it. */
  ghost function PathOf(sp: nat, page: nat): set<Place> {
    {Place(sp, 0, page)} + TablesOf(sp, page, 1)
  }

  /** What must be there for every page of the range to be mapped. */
  ghost function Wanted(m: map<nat, Entry>, sp: nat, start: nat, count: nat): set<Place> {
    if count == 0 then {}
    else Wanted(m, sp, start, count - 1) + (if start + count - 1 in m then {} else PathOf(sp, start + count - 1))
  }

  // --- spending frames

  ghost predicate Placed(t: Tree, q: Place) {
    q in t.node
  }

  ghost predicate Adds(t: Tree, t': Tree, added: set<Place>) {
    forall q {:trigger Placed(t', q)} :: Placed(t', q) <==> Placed(t, q) || q in added
  }

  lemma AddsKeys(t: Tree, t': Tree, added: set<Place>)
    requires Adds(t, t', added)
    ensures t'.node.Keys == t.node.Keys + added
  {
    forall q ensures q in t'.node.Keys <==> q in t.node.Keys + added {
      assert Placed(t', q) <==> Placed(t, q) || q in added;
    }
  }

  lemma KeysAdd(t: Tree, t': Tree, added: set<Place>)
    requires t'.node.Keys == t.node.Keys + added
    ensures Adds(t, t', added)
  {
  }

  /** Frames went from the free set to these places and nowhere else. */
  ghost predicate Paid(s: State, t: Tree, s': State, t': Tree, added: set<Place>) {
    Adds(t, t', added) && |s'.free| + |t'.node.Keys| == |s.free| + |t.node.Keys|
  }

  lemma PaidTrans(s: State, t: Tree, s1: State, t1: Tree, s2: State, t2: Tree, first: set<Place>, second: set<Place>)
    requires Paid(s, t, s1, t1, first) && Paid(s1, t1, s2, t2, second)
    ensures Paid(s, t, s2, t2, first + second)
  {
    AddsKeys(t, t1, first);
    AddsKeys(t1, t2, second);
    assert t.node.Keys + first + second == t.node.Keys + (first + second);
    KeysAdd(t, t2, first + second);
  }

  /** With the free frames used up on some of the places and one place still missing, there were too few. */
  lemma RanOut(s: State, t: Tree, s': State, t': Tree, added: set<Place>, want: set<Place>, missing: Place)
    requires Paid(s, t, s', t', added) && s'.free == {} && added <= want && missing in want && missing !in t'.node.Keys
    ensures |want - t.node.Keys| > |s.free|
  {
    var k := t.node.Keys;
    AddsKeys(t, t', added);
    UnionSize(k, added);
    Subset((added - k) + {missing}, want - k);
  }

  lemma UnionSize<T>(a: set<T>, b: set<T>)
    ensures |a + b| == |a| + |b - a|
  {
    assert a + b == a + (b - a);
  }

  lemma Subset<T>(a: set<T>, b: set<T>)
    requires a <= b
    ensures |a| <= |b|
  {
    assert b == a + (b - a);
  }

  lemma ProperSubset<T>(a: set<T>, b: set<T>, x: T)
    requires a <= b && x in b && x !in a
    ensures |a| < |b|
  {
    Subset(a + {x}, b);
  }

  lemma LinkPaid(s: State, t: Tree, q: Place, i: nat, f: nat)
    requires Inv(s, t) && CanLink(s, t, q, i, f)
    ensures Paid(s, t, LinkTable(s, t.node[q], i, f), Grow(t, Child(q, i), f), {Child(q, i)})
  {
    ChildHangs(s, t, q, i);
    GrowKeys(t, Child(q, i), f);
    KeysAdd(t, Grow(t, Child(q, i), f), {Child(q, i)});
  }

  /** One more table on the way down. */
  lemma TablesDown(sp: nat, page: nat, level: nat)
    requires 2 <= level <= 4
    ensures TablesOf(sp, page, level) + {Above(sp, page, level - 1)} == TablesOf(sp, page, level - 1)
  {
  }

  /** The page itself, on a frame that was taken before. */
  ghost predicate Landed(s: State, t: Tree, s': State, t': Tree, sp: nat, page: nat) {
    && Adds(t, t', PathOf(sp, page))
    && |s'.free| + |t'.node.Keys| == |s.free| + |t.node.Keys| + 1
  }

  lemma AddsOne(t: Tree, t1: Tree, first: set<Place>, q: Place, f: nat)
    requires Adds(t, t1, first) && q !in t1.node
    ensures Adds(t, Grow(t1, q, f), {q} + first) && |Grow(t1, q, f).node.Keys| == |t1.node.Keys| + 1
  {
    var t2 := Grow(t1, q, f);
    AddsKeys(t, t1, first);
    GrowKeys(t1, q, f);
    UnionOne(t.node.Keys, first, q);
    KeysAdd(t, t2, {q} + first);
  }

  lemma GrowKeys(t: Tree, q: Place, f: nat)
    ensures Grow(t, q, f).node.Keys == t.node.Keys + {q}
  {
  }

  lemma UnionOne<T>(a: set<T>, b: set<T>, x: T)
    ensures (a + b) + {x} == a + ({x} + b)
  {
  }

  lemma MinusOne<T>(a: set<T>, keys: set<T>, x: T)
    requires x !in keys && x !in a
    ensures |({x} + a) - keys| == |a - keys| + 1
  {
    assert ({x} + a) - keys == (a - keys) + {x};
  }

  /** Whoever asks for it sees the bill; to others it is only in the way. */
  ghost predicate Asked(t: Tree) {
    true
  }

  /** One table above a page is paid for, or nothing is left to pay with. */
  ghost predicate StepBilled(s: State, t: Tree, s': State, t': Tree, sp: nat, page: nat, level: nat, ok: bool) {
    forall u {:trigger Asked(u)} :: u == t ==>
      if ok then Paid(s, t, s', t', {Above(sp, page, level)})
      else s'.free == {} && s.free == {} && t' == t && Above(sp, page, level) !in t.node.Keys
  }

  /** The tables above a page from `level` up are paid for. */
  ghost predicate DownBilled(s: State, t: Tree, s': State, t': Tree, sp: nat, page: nat, level: nat) {
    forall u {:trigger Asked(u)} :: u == t ==> Paid(s, t, s', t', TablesOf(sp, page, level))
  }

  lemma DownStart(s: State, t: Tree, sp: nat, page: nat)
    ensures DownBilled(s, t, s, t, sp, page, 4)
  {
    PaidNothing(s, t);
    assert TablesOf(sp, page, 4) == {};
  }

  lemma PaidNothing(s: State, t: Tree)
    ensures Paid(s, t, s, t, {})
  {
    var none: set<Place> := {};
    assert t.node.Keys + none == t.node.Keys;
    KeysAdd(t, t, none);
  }

  lemma DownStep(s: State, t: Tree, s1: State, t1: Tree, s2: State, t2: Tree, sp: nat, page: nat, level: nat)
    requires 2 <= level <= 4 && DownBilled(s, t, s1, t1, sp, page, level)
    requires StepBilled(s1, t1, s2, t2, sp, page, level - 1, true)
    ensures DownBilled(s, t, s2, t2, sp, page, level - 1)
  {
    assert Asked(t) && Asked(t1);
    PaidTrans(s, t, s1, t1, s2, t2, TablesOf(sp, page, level), {Above(sp, page, level - 1)});
    TablesDown(sp, page, level);
  }

  lemma DownEnds(s: State, t: Tree, s1: State, t1: Tree, s2: State, t2: Tree, sp: nat, page: nat, level: nat)
    requires 2 <= level <= 4 && DownBilled(s, t, s1, t1, sp, page, level)
    requires StepBilled(s1, t1, s2, t2, sp, page, level - 1, false)
    ensures TablesBilled(s, t, s2, t2, sp, page, false)
  {
    assert Asked(t) && Asked(t1);
    RanOut(s, t, s1, t1, TablesOf(sp, page, level), TablesOf(sp, page, 1), Above(sp, page, level - 1));
  }

  lemma DownDone(s: State, t: Tree, s': State, t': Tree, sp: nat, page: nat)
    requires DownBilled(s, t, s', t', sp, page, 1)
    ensures TablesBilled(s, t, s', t', sp, page, true)
  {
    assert Asked(t);
  }

  /** The tables above a page are paid for, or cannot be. */
  ghost predicate TablesBilled(s: State, t: Tree, s': State, t': Tree, sp: nat, page: nat, ok: bool) {
    forall u {:trigger Asked(u)} :: u == t ==>
      if ok then Paid(s, t, s', t', TablesOf(sp, page, 1)) else |TablesOf(sp, page, 1) - t.node.Keys| > |s.free|
  }

  /** A `map` pays for the tables it lacks, and fails only when they cannot be paid for. */
  ghost predicate Billed(s: State, t: Tree, s': State, t': Tree, sp: nat, page: nat, foreign: bool, r: Result<()>) {
    forall u {:trigger Asked(u)} :: u == t ==>
      && (r.Ok? && !foreign ==> Landed(s, t, s', t', sp, page))
      && (r.Ok? && foreign ==> Paid(s, t, s', t', TablesOf(sp, page, 1)))
      && (r == Err(ENOMEM) ==> |TablesOf(sp, page, 1) - t.node.Keys| > |s.free|)
  }

  lemma LeafBilled(s: State, t: Tree, s1: State, t1: Tree, s2: State, sp: nat, page: nat, frame: nat, flags: Flags)
    requires TablesBilled(s, t, s1, t1, sp, page, true) && s2.free == s1.free && Place(sp, 0, page) !in t1.node
    ensures Billed(s, t, s2, LeafTree(t1, sp, page, frame, flags), sp, page, flags.foreign, Ok(()))
  {
    assert Asked(t);
    AddsOne(t, t1, TablesOf(sp, page, 1), Place(sp, 0, page), frame);
  }

  lemma RefusalBilled(s: State, t: Tree, s': State, t': Tree, sp: nat, page: nat, foreign: bool, e: Errno)
    requires e == ENOMEM ==> TablesBilled(s, t, s', t', sp, page, false)
    ensures Billed(s, t, s', t', sp, page, foreign, Err(e))
  {
    assert Asked(t);
  }

  /** The page and the tables above it are paid for, or cannot be. */
  ghost predicate PathBilled(s: State, t: Tree, s': State, t': Tree, sp: nat, page: nat, ok: bool) {
    forall u {:trigger Asked(u)} :: u == t ==>
      if ok then Paid(s, t, s', t', PathOf(sp, page)) else |PathOf(sp, page) - t.node.Keys| > |s.free|
  }

  lemma StillShort(s: State, t: Tree, s1: State, t1: Tree, s2: State, t2: Tree, sp: nat, page: nat)
    requires PathBilled(s, t, s1, t1, sp, page, false)
    ensures PathBilled(s, t, s2, t2, sp, page, false)
  {
    assert Asked(t);
  }

  lemma OneTaken(s: State, f: nat, content: Page)
    requires f in s.free
    ensures |TakeData(s, f, content).free| == |s.free| - 1
  {
  }

  lemma NothingFree(s: State, t: Tree, s': State, t': Tree, sp: nat, page: nat)
    requires s.free == {} && Place(sp, 0, page) !in t.node
    ensures PathBilled(s, t, s', t', sp, page, false)
  {
    ProperSubset({}, PathOf(sp, page) - t.node.Keys, Place(sp, 0, page));
  }

  /** The first pages of the range are paid for. */
  ghost predicate RangeBilled(s: State, t: Tree, s': State, t': Tree, m: map<nat, Entry>, sp: nat, start: nat, k: nat) {
    forall u {:trigger Asked(u)} :: u == t ==> Paid(s, t, s', t', Wanted(m, sp, start, k))
  }

  lemma NothingBilled(s: State, t: Tree, m: map<nat, Entry>, sp: nat, start: nat)
    ensures RangeBilled(s, t, s, t, m, sp, start, 0)
  {
    PaidNothing(s, t);
    assert Wanted(m, sp, start, 0) == {};
  }

  lemma NextBilled(s: State, t: Tree, s1: State, t1: Tree, s2: State, t2: Tree, m: map<nat, Entry>, sp: nat,
    start: nat, k: nat)
    requires RangeBilled(s, t, s1, t1, m, sp, start, k)
    requires if start + k in m then s2.free == s1.free && t2 == t1 else PathBilled(s1, t1, s2, t2, sp, start + k, true)
    ensures RangeBilled(s, t, s2, t2, m, sp, start, k + 1)
  {
    assert Asked(t) && Asked(t1);
    if start + k !in m {
      PaidTrans(s, t, s1, t1, s2, t2, Wanted(m, sp, start, k), PathOf(sp, start + k));
    }
  }

  /** Taking a page's frame and mapping it is paying for its whole path, or the path could not be paid for. */
  lemma FillBilled(s: State, t: Tree, s1: State, s2: State, t2: Tree, sp: nat, page: nat, r: Result<()>)
    requires |s1.free| == |s.free| - 1 && Billed(s1, t, s2, t2, sp, page, false, r) && Place(sp, 0, page) !in t.node
    requires r.Ok? || r == Err(ENOMEM)
    ensures PathBilled(s, t, s2, t2, sp, page, r.Ok?)
  {
    assert Asked(t);
    MinusOne(TablesOf(sp, page, 1), t.node.Keys, Place(sp, 0, page));
  }

  /** A page that is not mapped has no place. */
  lemma HoleUnplaced(s: State, t: Tree, sp: nat, n: nat)
    requires Shape(s, t) && sp in s.spaces && n !in PageMap(s, sp)
    ensures Place(sp, 0, n) !in t.node.Keys
  {
    if Place(sp, 0, n) in t.node { OwnedPage(s, t, Place(sp, 0, n)); PageMapPoint(s, t, sp, n); }
  }

  lemma PaidCost(s: State, t: Tree, s': State, t': Tree, added: set<Place>)
    requires Paid(s, t, s', t', added)
    ensures |s'.free| == |s.free| - |added - t.node.Keys|
  {
    AddsKeys(t, t', added);
    UnionSize(t.node.Keys, added);
  }

  lemma BillSplits<T>(keys: set<T>, first: set<T>, more: set<T>)
    ensures |(first + more) - keys| == |first - keys| + |more - (keys + first)|
  {
    UnionSize(first - keys, more - keys);
    assert (first + more) - keys == (first - keys) + (more - keys);
    assert (more - keys) - (first - keys) == more - (keys + first);
  }

  /** After paying for some places, what more costs is what it adds to the bill. */
  lemma NextBill(s: State, t: Tree, s': State, t': Tree, first: set<Place>, more: set<Place>)
    requires Paid(s, t, s', t', first)
    ensures |first - t.node.Keys| <= |s.free|
    ensures |more - t'.node.Keys| > |s'.free| <==> |(first + more) - t.node.Keys| > |s.free|
  {
    PaidCost(s, t, s', t', first);
    AddsKeys(t, t', first);
    BillSplits(t.node.Keys, first, more);
  }

  // --- where it stops

  lemma {:induction false} WantedGrows(m: map<nat, Entry>, sp: nat, start: nat, j: nat, k: nat)
    requires j <= k
    ensures Wanted(m, sp, start, j) <= Wanted(m, sp, start, k)
  {
    if j < k { WantedGrows(m, sp, start, j, k - 1); }
  }

  ghost predicate Grows(bill: nat -> nat) {
    bill(0) == 0 && forall j: nat, k: nat :: j <= k ==> bill(j) <= bill(k)
  }

  /** Frames the first `k` pages of the range need. */
  ghost function Cost(m: map<nat, Entry>, placed: set<Place>, sp: nat, start: nat, k: nat): nat {
    |Wanted(m, sp, start, k) - placed|
  }

  lemma CostGrows(m: map<nat, Entry>, placed: set<Place>, sp: nat, start: nat, j: nat, k: nat)
    requires j <= k
    ensures Cost(m, placed, sp, start, j) <= Cost(m, placed, sp, start, k)
  {
    WantedGrows(m, sp, start, j, k);
    Subset(Wanted(m, sp, start, j) - placed, Wanted(m, sp, start, k) - placed);
  }

  lemma CostsGrow(m: map<nat, Entry>, placed: set<Place>, sp: nat, start: nat)
    ensures Cost(m, placed, sp, start, 0) == 0
    ensures forall j: nat, k: nat :: j <= k ==> Cost(m, placed, sp, start, j) <= Cost(m, placed, sp, start, k)
  {
    assert Wanted(m, sp, start, 0) - placed == {};
    forall j: nat, k: nat | j <= k ensures Cost(m, placed, sp, start, j) <= Cost(m, placed, sp, start, k) {
      CostGrows(m, placed, sp, start, j, k);
    }
  }

  /** How many frames the first pages of the range need, by how many they are. */
  ghost function Bill(m: map<nat, Entry>, placed: set<Place>, sp: nat, start: nat): (bill: nat -> nat)
    ensures Grows(bill)
  {
    CostsGrow(m, placed, sp, start);
    (k: nat) => Cost(m, placed, sp, start, k)
  }

  /** The pages before `stop` can be paid for and the next one cannot. */
  ghost predicate StopsAt(bill: nat -> nat, free: nat, stop: nat) {
    bill(stop) <= free < bill(stop + 1)
  }

  lemma StopUnique(bill: nat -> nat, free: nat, j: nat, k: nat)
    requires Grows(bill) && StopsAt(bill, free, j) && StopsAt(bill, free, k)
    ensures j == k
  {
  }

  lemma {:induction false} StopExists(bill: nat -> nat, count: nat, free: nat)
    requires Grows(bill) && bill(count) > free
    ensures exists stop :: 0 <= stop < count && StopsAt(bill, free, stop)
  {
    if bill(count - 1) > free {
      StopExists(bill, count - 1, free);
    } else {
      assert StopsAt(bill, free, count - 1);
    }
  }

  /** The page at which `free` frames run out. */
  ghost function Stop(bill: nat -> nat, count: nat, free: nat): (stop: nat)
    requires Grows(bill) && bill(count) > free
    ensures stop < count && StopsAt(bill, free, stop)
  {
    StopExists(bill, count, free);
    var stop :| 0 <= stop < count && StopsAt(bill, free, stop);
    stop
  }

  /** What a call gives and leaves behind, from what was mapped, placed and free before. */
  ghost predicate Outcome(m: map<nat, Entry>, placed: set<Place>, sp: nat, start: nat, count: nat, free: nat,
    r: Result<()>, m': map<nat, Entry>) {
    var bill := Bill(m, placed, sp, start);
    if bill(count) <= free then r.Ok? else r == Err(ENOMEM) && m' == Without(m, start, Stop(bill, count, free))
  }

  lemma OutcomeOk(s: State, t: Tree, s': State, t': Tree, m: map<nat, Entry>, sp: nat, start: nat, count: nat,
    m': map<nat, Entry>)
    requires RangeBilled(s, t, s', t', m, sp, start, count)
    ensures Outcome(m, t.node.Keys, sp, start, count, |s.free|, Ok(()), m')
  {
    assert Asked(t);
    PaidCost(s, t, s', t', Wanted(m, sp, start, count));
    assert Cost(m, t.node.Keys, sp, start, count) <= |s.free|;
  }

  lemma OutcomeErr(s: State, t: Tree, s1: State, t1: Tree, s2: State, t2: Tree, m: map<nat, Entry>, sp: nat,
    start: nat, k: nat, count: nat)
    requires RangeBilled(s, t, s1, t1, m, sp, start, k) && k < count && start + k !in m
    requires PathBilled(s1, t1, s2, t2, sp, start + k, false)
    ensures Outcome(m, t.node.Keys, sp, start, count, |s.free|, Err(ENOMEM), Without(m, start, k))
  {
    CostStops(s, t, s1, t1, s2, t2, m, sp, start, k);
    var bill := Bill(m, t.node.Keys, sp, start);
    assert StopsAt(bill, |s.free|, k) && bill(k + 1) <= bill(count);
    StopUnique(bill, |s.free|, k, Stop(bill, count, |s.free|));
  }

  lemma CostStops(s: State, t: Tree, s1: State, t1: Tree, s2: State, t2: Tree, m: map<nat, Entry>, sp: nat, start: nat,
    k: nat)
    requires RangeBilled(s, t, s1, t1, m, sp, start, k) && start + k !in m
    requires PathBilled(s1, t1, s2, t2, sp, start + k, false)
    ensures Cost(m, t.node.Keys, sp, start, k) <= |s.free| < Cost(m, t.node.Keys, sp, start, k + 1)
  {
    assert Asked(t) && Asked(t1);
    NextBill(s, t, s1, t1, Wanted(m, sp, start, k), PathOf(sp, start + k));
  }

  /** A page of the range is mapped and a later one is not. */
  ghost predicate MappedBeforeHole(m: map<nat, Entry>, start: nat, count: nat) {
    exists n, h :: start <= n < h < start + count && n in m && h !in m
  }

  /** Whatever is free, a call that fails leaves the map as it was. */
  ghost predicate AlwaysRestores(m: map<nat, Entry>, start: nat, count: nat, bill: nat -> nat)
    requires Grows(bill)
  {
    forall free: nat :: free < bill(count) ==> Without(m, start, Stop(bill, count, free)) == m
  }

  /** A mapped page costs nothing, so a call never stops at one; a hole costs its own frame at least. */
  ghost predicate Charges(m: map<nat, Entry>, start: nat, bill: nat -> nat) {
    forall k: nat {:trigger ChargesAt(m, start, bill, k)} :: ChargesAt(m, start, bill, k)
  }

  ghost predicate ChargesAt(m: map<nat, Entry>, start: nat, bill: nat -> nat, k: nat) {
    start + k in m <==> bill(k + 1) == bill(k)
  }

  lemma BillCharges(m: map<nat, Entry>, placed: set<Place>, sp: nat, start: nat)
    requires forall n: nat :: n !in m ==> Place(sp, 0, n) !in placed
    ensures Charges(m, start, Bill(m, placed, sp, start))
  {
    forall k: nat ensures ChargesAt(m, start, Bill(m, placed, sp, start), k) {
      BillChargesAt(m, placed, sp, start, k);
    }
  }

  lemma BillChargesAt(m: map<nat, Entry>, placed: set<Place>, sp: nat, start: nat, k: nat)
    requires start + k !in m ==> Place(sp, 0, start + k) !in placed
    ensures ChargesAt(m, start, Bill(m, placed, sp, start), k)
  {
    ChargeAt(m, placed, sp, start, k);
  }

  lemma ChargeAt(m: map<nat, Entry>, placed: set<Place>, sp: nat, start: nat, k: nat)
    requires start + k !in m ==> Place(sp, 0, start + k) !in placed
    ensures start + k in m <==> Cost(m, placed, sp, start, k + 1) == Cost(m, placed, sp, start, k)
  {
    if start + k in m {
      assert Wanted(m, sp, start, k + 1) == Wanted(m, sp, start, k);
    } else {
      HoleCosts(m, placed, sp, start, k);
    }
  }

  /**
   * Whatever is free, a call that runs out of memory restores the map if and only if no page of the
   * range that is mapped comes before one that is not.
   */
  lemma RollbackExact(m: map<nat, Entry>, start: nat, count: nat, bill: nat -> nat)
    requires Grows(bill) && Charges(m, start, bill)
    ensures AlwaysRestores(m, start, count, bill) <==> !MappedBeforeHole(m, start, count)
  {
    if MappedBeforeHole(m, start, count) {
      var n, h :| start <= n < h < start + count && n in m && h !in m;
      var k := h - start;
      assert ChargesAt(m, start, bill, k);
      assert start + k !in m && bill(k) <= bill(k + 1) <= bill(count);
      StopUnique(bill, bill(k), k, Stop(bill, count, bill(k)));
      assert n !in Without(m, start, k);
    } else {
      forall free: nat | free < bill(count) ensures Without(m, start, Stop(bill, count, free)) == m {
        var stop := Stop(bill, count, free);
        assert ChargesAt(m, start, bill, stop) && start + stop !in m;
        assert Without(m, start, stop) == m;
      }
    }
  }

  /** The same for the spaces as they are. */
  lemma AnonymousExact(s: State, t: Tree, sp: nat, start: nat, count: nat)
    requires Inv(s, t) && sp in s.spaces
    ensures var m := PageMap(s, sp);
      AlwaysRestores(m, start, count, Bill(m, t.node.Keys, sp, start)) <==> !MappedBeforeHole(m, start, count)
  {
    var m := PageMap(s, sp);
    forall n: nat | n !in m ensures Place(sp, 0, n) !in t.node.Keys { HoleUnplaced(s, t, sp, n); }
    BillCharges(m, t.node.Keys, sp, start);
    RollbackExact(m, start, count, Bill(m, t.node.Keys, sp, start));
  }

  lemma StopsAfterOne(m: map<nat, Entry>, placed: set<Place>, sp: nat)
    requires 0 in m && 1 !in m && Place(sp, 0, 1) !in placed
    ensures var bill := Bill(m, placed, sp, 0); bill(2) > 0 && Stop(bill, 2, 0) == 1
  {
    var bill := Bill(m, placed, sp, 0);
    ChargeAt(m, placed, sp, 0, 0);
    HoleCosts(m, placed, sp, 0, 1);
    StopUnique(bill, 0, 1, Stop(bill, 2, 0));
  }

  /** With no frame free, page 0 mapped and page 1 a hole, a call over both loses page 0. */
  lemma LostOne(m: map<nat, Entry>, placed: set<Place>, sp: nat, r: Result<()>, m': map<nat, Entry>)
    requires 0 in m && 1 !in m && Place(sp, 0, 1) !in placed && Outcome(m, placed, sp, 0, 2, 0, r, m')
    ensures r == Err(ENOMEM) && m' == m - {0}
  {
    StopsAfterOne(m, placed, sp);
    assert Without(m, 0, 1) == m - {0};
  }

  /** Four frames are enough for the first page of an empty space, and are then used up. */
  lemma FirstFour(s: State, t: Tree, s': State, t': Tree, sp: nat, r: Result<()>, m': map<nat, Entry>)
    requires t.node.Keys == {Place(sp, 4, 0)} && |s.free| == 4
    requires Outcome(map[], t.node.Keys, sp, 0, 1, 4, r, m')
    requires r.Ok? ==> RangeBilled(s, t, s', t', map[], sp, 0, 1)
    ensures r.Ok? && s'.free == {}
  {
    FirstPage(t, sp);
    Spent(s, t, s', t', map[], sp, 0, 1);
  }

  /** A page in an empty space needs a frame and three tables. */
  lemma FirstPage(t: Tree, sp: nat)
    requires t.node.Keys == {Place(sp, 4, 0)}
    ensures Bill(map[], t.node.Keys, sp, 0)(1) == 4
  {
    var path := PathOf(sp, 0);
    var a, b, c, d := Place(sp, 0, 0), Above(sp, 0, 1), Above(sp, 0, 2), Above(sp, 0, 3);
    assert path == {a, b, c, d};
    assert Wanted(map[], sp, 0, 1) == path;
    assert path - t.node.Keys == path;
  }

  /** The frames paid for the range are gone from the free set. */
  lemma Spent(s: State, t: Tree, s': State, t': Tree, m: map<nat, Entry>, sp: nat, start: nat, count: nat)
    requires RangeBilled(s, t, s', t', m, sp, start, count)
    ensures |s'.free| == |s.free| - Bill(m, t.node.Keys, sp, start)(count)
  {
    assert Asked(t);
    PaidCost(s, t, s', t', Wanted(m, sp, start, count));
  }

  lemma {:induction false} WantedBelow(m: map<nat, Entry>, sp: nat, start: nat, k: nat, n: nat)
    requires start + k <= n
    ensures Place(sp, 0, n) !in Wanted(m, sp, start, k)
  {
    if k > 0 { WantedBelow(m, sp, start, k - 1, n); }
  }

  lemma MoreCosts<T>(a: set<T>, b: set<T>, x: T, placed: set<T>)
    requires a <= b && x in b && x !in a && x !in placed
    ensures |a - placed| < |b - placed|
  {
    ProperSubset(a - placed, b - placed, x);
  }

  /** Every hole costs at least its own frame. */
  lemma HoleCosts(m: map<nat, Entry>, placed: set<Place>, sp: nat, start: nat, k: nat)
    requires start + k !in m && Place(sp, 0, start + k) !in placed
    ensures |Wanted(m, sp, start, k) - placed| < |Wanted(m, sp, start, k + 1) - placed|
  {
    WantedBelow(m, sp, start, k, start + k);
    MoreCosts(Wanted(m, sp, start, k), Wanted(m, sp, start, k + 1), Place(sp, 0, start + k), placed);
  }
}
