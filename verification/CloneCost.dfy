/** What copying a space costs: a frame for every private page, and one for every table above any page. */
module CloneCost {
  import opened Base
  import opened PageTables
  import opened PageMaps
  import opened Rollback

  /** The places a page of the copy needs. */
  ghost function PageNeeds(e: Entry, sp: nat, page: nat): set<Place> {
    TablesOf(sp, page, 1) + if e.flags.foreign then {} else {Place(sp, 0, page)}
  }

  ghost function CopyNeeds(m: map<nat, Entry>, sp: nat): set<Place> {
    set n, q | n in m && q in PageNeeds(m[n], sp, n) :: q
  }

  /** One page of the copy is paid for, or cannot be. */
  ghost predicate PageBilled(s: State, t: Tree, s': State, t': Tree, e: Entry, sp: nat, page: nat, ok: bool) {
    forall u {:trigger Asked(u)} :: u == t ==>
      if ok then Paid(s, t, s', t', PageNeeds(e, sp, page)) else |PageNeeds(e, sp, page) - t.node.Keys| > |s.free|
  }

  /** What the copy has so far is paid for and is part of what it needs, or all of it cannot be paid for. */
  ghost predicate CopyBilled(s: State, t: Tree, s': State, t': Tree, src: nat, dst: nat, ok: bool) {
    forall u {:trigger Asked(u)} :: u == t && src in s.spaces ==>
      if ok then WellSpent(s, t, s', t', CopyNeeds(PageMap(s, src), dst))
      else |CopyNeeds(PageMap(s, src), dst) - t.node.Keys| > |s.free|
  }

  ghost predicate WellSpent(s: State, t: Tree, s': State, t': Tree, needs: set<Place>) {
    Paid(s, t, s', t', t'.node.Keys - t.node.Keys) && t'.node.Keys - t.node.Keys <= needs
  }

  lemma CopyStart(s: State, t: Tree, src: nat, dst: nat)
    ensures CopyBilled(s, t, s, t, src, dst, true)
  {
    PaidNothing(s, t);
    assert t.node.Keys - t.node.Keys == {};
    if src in s.spaces { assert WellSpent(s, t, s, t, CopyNeeds(PageMap(s, src), dst)); }
  }

  lemma NeedsPage(m: map<nat, Entry>, sp: nat, n: nat)
    requires n in m
    ensures PageNeeds(m[n], sp, n) <= CopyNeeds(m, sp)
  {
  }

  lemma Fits<T>(keys: set<T>, keys1: set<T>, page: set<T>, needs: set<T>)
    requires keys <= keys1 && keys1 - keys <= needs && page <= needs
    ensures |keys1 - keys| + |page - keys1| <= |needs - keys|
    ensures (keys1 + page) - keys <= needs
  {
    var added, more := keys1 - keys, page - keys1;
    assert more - added == more;
    UnionSize(added, more);
    Subset(added + more, needs - keys);
  }

  lemma PaidNew(s: State, t: Tree, s': State, t': Tree, added: set<Place>)
    requires Paid(s, t, s', t', added)
    ensures t.node.Keys <= t'.node.Keys && t'.node.Keys == t.node.Keys + added
    ensures |s.free| == |s'.free| + |t'.node.Keys - t.node.Keys|
  {
    AddsKeys(t, t', added);
    UnionSize(t.node.Keys, t'.node.Keys - t.node.Keys);
    assert t.node.Keys + (t'.node.Keys - t.node.Keys) == t'.node.Keys;
  }

  lemma CopyStep(s: State, t: Tree, s1: State, t1: Tree, s2: State, t2: Tree, src: nat, sp: nat, n: nat, ok: bool)
    requires src in s.spaces && n in PageMap(s, src) && CopyBilled(s, t, s1, t1, src, sp, true)
    requires PageBilled(s1, t1, s2, t2, PageMap(s, src)[n], sp, n, ok)
    ensures CopyBilled(s, t, s2, t2, src, sp, ok)
  {
    assert Asked(t) && Asked(t1);
    var m := PageMap(s, src);
    NeedsPage(m, sp, n);
    PaidNew(s, t, s1, t1, t1.node.Keys - t.node.Keys);
    Fits(t.node.Keys, t1.node.Keys, PageNeeds(m[n], sp, n), CopyNeeds(m, sp));
    if ok { CopyGrows(s, t, s1, t1, s2, t2, PageNeeds(m[n], sp, n)); }
  }

  lemma CopyGrows(s: State, t: Tree, s1: State, t1: Tree, s2: State, t2: Tree, page: set<Place>)
    requires Paid(s, t, s1, t1, t1.node.Keys - t.node.Keys) && Paid(s1, t1, s2, t2, page)
    ensures Paid(s, t, s2, t2, t2.node.Keys - t.node.Keys) && t2.node.Keys == t1.node.Keys + page
  {
    PaidTrans(s, t, s1, t1, s2, t2, t1.node.Keys - t.node.Keys, page);
    PaidNew(s1, t1, s2, t2, page);
    PaidSame(s, t, s2, t2, (t1.node.Keys - t.node.Keys) + page);
  }

  /** Only the places that were not there before count. */
  lemma PaidSame(s: State, t: Tree, s': State, t': Tree, added: set<Place>)
    requires Paid(s, t, s', t', added)
    ensures Paid(s, t, s', t', t'.node.Keys - t.node.Keys)
  {
    AddsKeys(t, t', added);
    assert t.node.Keys + (t'.node.Keys - t.node.Keys) == t'.node.Keys;
    KeysAdd(t, t', t'.node.Keys - t.node.Keys);
  }

  /** A copy that has all it needs could be paid for. */
  lemma CopyDone(s: State, t: Tree, s': State, t': Tree, src: nat, dst: nat)
    requires src in s.spaces && CopyBilled(s, t, s', t', src, dst, true)
    requires CopyNeeds(PageMap(s, src), dst) <= t'.node.Keys
    ensures |CopyNeeds(PageMap(s, src), dst) - t.node.Keys| <= |s.free|
  {
    assert Asked(t);
    var needs := CopyNeeds(PageMap(s, src), dst);
    PaidNew(s, t, s', t', t'.node.Keys - t.node.Keys);
    Subset(needs - t.node.Keys, t'.node.Keys - t.node.Keys);
  }

  lemma ForeignBilled(s: State, t: Tree, s': State, t': Tree, e: Entry, sp: nat, page: nat, r: Result<()>)
    requires e.flags.foreign && Billed(s, t, s', t', sp, page, true, r) && (r.Ok? || r == Err(ENOMEM))
    ensures PageBilled(s, t, s', t', e, sp, page, r.Ok?)
  {
    assert PageNeeds(e, sp, page) == TablesOf(sp, page, 1);
    assert Asked(t);
  }

  lemma PrivateBilled(s: State, t: Tree, s': State, t': Tree, e: Entry, sp: nat, page: nat, ok: bool)
    requires !e.flags.foreign && PathBilled(s, t, s', t', sp, page, ok)
    ensures PageBilled(s, t, s', t', e, sp, page, ok)
  {
    NeedsPath(e, sp, page);
    assert Asked(t);
  }

  lemma NeedsPath(e: Entry, sp: nat, page: nat)
    requires !e.flags.foreign
    ensures PageNeeds(e, sp, page) == PathOf(sp, page)
  {
  }
}
