/**
 * The intrusive doubly linked list: links live in the items, so an item is on at most one list
 * and never needs an allocation to be queued. Each operation is specified on the ghost sequence
 * of items.
 */
module IntrusiveList {

  class Item {
    var previous: Item?
    var next: Item?
    var linked: bool

    constructor ()
      ensures previous == null && next == null && !linked
    {
      previous, next, linked := null, null, false;
    }
  }

  ghost function Members(s: seq<Item>): set<Item> {
    set x | x in s
  }

  ghost predicate Differ(s: seq<Item>, i: int, j: int)
    requires 0 <= i < |s| && 0 <= j < |s|
  {
    i != j ==> s[i] != s[j]
  }

  ghost predicate Distinct(s: seq<Item>) {
    forall i, j {:trigger Differ(s, i, j)} :: 0 <= i < |s| && 0 <= j < |s| ==> Differ(s, i, j)
  }

  /** The sequence without one of its items. */
  ghost function Minus(s: seq<Item>, x: Item): seq<Item> {
    if s == [] then [] else if s[0] == x then s[1..] else [s[0]] + Minus(s[1..], x)
  }

  lemma DistinctTail(s: seq<Item>)
    requires Distinct(s) && s != []
    ensures Distinct(s[1..])
  {
    forall i, j | 0 <= i < |s| - 1 && 0 <= j < |s| - 1 ensures Differ(s[1..], i, j) {
      assert Differ(s, i + 1, j + 1);
    }
  }

  lemma {:induction false} MinusAt(s: seq<Item>, k: nat)
    requires k < |s| && Distinct(s)
    ensures Minus(s, s[k]) == s[..k] + s[k + 1..]
  {
    if k > 0 {
      assert Differ(s, 0, k);
      DistinctTail(s);
      MinusAt(s[1..], k - 1);
    }
  }

  lemma WithoutAt(s: seq<Item>, k: nat)
    requires k < |s| && Distinct(s)
    ensures var t := Minus(s, s[k]);
      && |t| == |s| - 1 && Distinct(t) && s[k] !in t
      && forall i {:trigger t[i]} :: 0 <= i < |t| ==> t[i] == s[if i < k then i else i + 1]
  {
    MinusAt(s, k);
    var t := Minus(s, s[k]);
    forall i, j | 0 <= i < |t| && 0 <= j < |t| ensures Differ(t, i, j) {
      assert Differ(s, if i < k then i else i + 1, if j < k then j else j + 1);
    }
    forall i | 0 <= i < |t| ensures t[i] != s[k] {
      assert Differ(s, if i < k then i else i + 1, k);
    }
  }

  lemma DistinctEnd(s: seq<Item>, x: Item)
    requires Distinct(s) && x !in s
    ensures Distinct(s + [x])
  {
    forall i, j | 0 <= i < |s| + 1 && 0 <= j < |s| + 1 ensures Differ(s + [x], i, j) {
      if i < |s| && j < |s| { assert Differ(s, i, j); }
    }
  }

  lemma DistinctFront(s: seq<Item>, x: Item)
    requires Distinct(s) && x !in s
    ensures Distinct([x] + s)
  {
    forall i, j | 0 <= i < |s| + 1 && 0 <= j < |s| + 1 ensures Differ([x] + s, i, j) {
      if i > 0 && j > 0 { assert Differ(s, i - 1, j - 1); }
    }
  }

  /** The items that are in the set, or the items that are not, in order. */
  ghost function Select(s: seq<Item>, wanted: set<Item>, keep: bool): seq<Item> {
    if s == [] then []
    else if (s[|s| - 1] in wanted) == keep then Select(s[..|s| - 1], wanted, keep) + [s[|s| - 1]]
    else Select(s[..|s| - 1], wanted, keep)
  }

  lemma SelectNext(s: seq<Item>, k: nat, wanted: set<Item>)
    requires k < |s|
    ensures s[k] in wanted ==> Select(s[..k + 1], wanted, false) == Select(s[..k], wanted, false)
    ensures s[k] in wanted ==> Select(s[..k + 1], wanted, true) == Select(s[..k], wanted, true) + [s[k]]
    ensures s[k] !in wanted ==> Select(s[..k + 1], wanted, false) == Select(s[..k], wanted, false) + [s[k]]
    ensures s[k] !in wanted ==> Select(s[..k + 1], wanted, true) == Select(s[..k], wanted, true)
  {
    assert s[..k + 1][..k] == s[..k];
  }

  lemma {:induction false} SubMinus(s: seq<Item>, x: Item)
    ensures Members(Minus(s, x)) <= Members(s)
  {
    if s != [] {
      SubMinus(s[1..], x);
      forall y | y in Minus(s, x) ensures y in s {
        if y != s[0] { assert y in Members(s[1..]); }
      }
    }
  }

  /** Where the iteration stands: `k` items seen, the unwanted ones kept, the rest untouched. */
  ghost predicate Iterating(orig: seq<Item>, k: int, wanted: set<Item>, items: seq<Item>, item: Item?)
    requires 0 <= k <= |orig|
  {
    && items == Select(orig[..k], wanted, false) + orig[k..]
    && item == (if k == |orig| then null else orig[k])
  }

  lemma TakeOne(orig: seq<Item>, k: int, wanted: set<Item>, items: seq<Item>)
    requires 0 <= k < |orig| && Distinct(items) && items == Select(orig[..k], wanted, false) + orig[k..]
    ensures orig[k] in items
    ensures orig[k] in wanted ==> Minus(items, orig[k]) == Select(orig[..k + 1], wanted, false) + orig[k + 1..]
    ensures orig[k] !in wanted ==> items == Select(orig[..k + 1], wanted, false) + orig[k + 1..]
  {
    var p := |Select(orig[..k], wanted, false)|;
    assert items[p] == orig[k];
    SelectNext(orig, k, wanted);
    MinusAt(items, p);
    assert items[..p] == Select(orig[..k], wanted, false);
    assert items[p + 1..] == orig[k + 1..];
  }

  class List {
    var head: Item?
    var tail: Item?
    var size: nat
    ghost var items: seq<Item>

    ghost predicate Valid()
      reads this, Members(items)
    {
      && size == |items| && Distinct(items)
      && head == (if items == [] then null else items[0])
      && tail == (if items == [] then null else items[|items| - 1])
      && (forall i {:trigger NodeAt(i)} :: 0 <= i < |items| ==> NodeAt(i))
    }

    ghost predicate NodeAt(i: int)
      reads this, Members(items)
      requires 0 <= i < |items|
    {
      && items[i].linked
      && items[i].previous == (if i == 0 then null else items[i - 1])
      && items[i].next == (if i == |items| - 1 then null else items[i + 1])
    }

    constructor ()
      ensures Valid() && items == []
    {
      head, tail, size, items := null, null, 0, [];
    }

    /** At the end; an item on any list already is left where it is. */
    method Append(item: Item)
      requires Valid()
      modifies this, Members(items), item
      ensures Valid()
      ensures items == if old(item.linked) then old(items) else old(items) + [item]
      ensures item.linked
    {
      if item.linked {
        return;
      }
      ghost var n := |items|;
      assert item !in items by { OnListIsLinked(item); }
      item.previous := tail;
      item.next := null;
      if tail != null {
        tail.next := item;
      } else {
        head := item;
      }
      tail := item;
      item.linked := true;
      size := size + 1;
      items := items + [item];
      forall i | 0 <= i < |items| ensures NodeAt(i) {
        if i < n {
          assert old(NodeAt(i));
          assert Differ(old(items), i, n - 1);
        }
      }
      DistinctEnd(old(items), item);
    }

    method Prepend(item: Item)
      requires Valid()
      modifies this, Members(items), item
      ensures Valid()
      ensures items == if old(item.linked) then old(items) else [item] + old(items)
      ensures item.linked
    {
      if item.linked {
        return;
      }
      assert item !in items by { OnListIsLinked(item); }
      item.next := head;
      item.previous := null;
      if head != null {
        head.previous := item;
      } else {
        tail := item;
      }
      head := item;
      item.linked := true;
      size := size + 1;
      items := [item] + items;
      forall i | 0 <= i < |items| ensures NodeAt(i) {
        if i > 0 {
          assert old(NodeAt(i - 1));
          assert Differ(old(items), i - 1, 0);
        }
      }
      DistinctFront(old(items), item);
    }

    /** Splices an item out; the splice is right only on the list the item is on. */
    method Remove(item: Item)
      requires Valid()
      requires item.linked ==> item in items
      modifies this, Members(items), item
      ensures Valid()
      ensures items == if old(item.linked) then Minus(old(items), item) else old(items)
      ensures !item.linked && item !in items
    {
      OnListIsLinked(item);
      if !item.linked {
        return;
      }
      ghost var k :| 0 <= k < |items| && items[k] == item;
      ghost var was, t := items, Minus(items, item);
      WithoutAt(items, k);
      assert NodeAt(k);
      assert k > 0 ==> Differ(items, k - 1, k);
      assert k + 1 < |items| ==> Differ(items, k, k + 1);
      assert 0 < k < |items| - 1 ==> Differ(items, k - 1, k + 1);
      Splice(item);
      items := t;
      forall i | 0 <= i < |t| ensures NodeAt(i) {
        ghost var i' := if i < k then i else i + 1;
        assert old(NodeAt(i'));
        assert Differ(was, i', k);
        assert k > 0 ==> Differ(was, i', k - 1);
        assert k + 1 < |was| ==> Differ(was, i', k + 1);
        assert t[i] == was[if i < k then i else i + 1];
        assert i > 0 ==> t[i - 1] == was[if i - 1 < k then i - 1 else i];
        assert i + 1 < |t| ==> t[i + 1] == was[if i + 1 < k then i + 1 else i + 2];
      }
    }

    /** The pointer surgery: the neighbours now name each other. */
    method Splice(item: Item)
      requires item.linked && size > 0 && item.previous != item && item.next != item
      requires item.previous != null ==> item.previous != item.next
      modifies this`head, this`tail, this`size, item
      modifies (if item.previous != null then {item.previous} else {})`next
      modifies (if item.next != null then {item.next} else {})`previous
      ensures !item.linked && item.previous == null && item.next == null && size == old(size) - 1
      ensures old(item.previous) == null ==> head == old(item.next)
      ensures old(item.previous) != null ==> head == old(head) && old(item.previous).next == old(item.next)
      ensures old(item.next) == null ==> tail == old(item.previous)
      ensures old(item.next) != null ==> tail == old(tail) && old(item.next).previous == old(item.previous)
    {
      if item.previous != null {
        item.previous.next := item.next;
      } else {
        head := item.next;
      }
      if item.next != null {
        item.next.previous := item.previous;
      } else {
        tail := item.previous;
      }
      item.previous, item.next := null, null;
      item.linked := false;
      size := size - 1;
    }

    lemma OnListIsLinked(item: Item)
      requires Valid()
      ensures item in items ==> item.linked
    {
      if item in items {
        var k :| 0 <= k < |items| && items[k] == item;
        assert NodeAt(k);
      }
    }

    method TakeFirst() returns (item: Item?)
      requires Valid()
      modifies this, Members(items)
      ensures Valid()
      ensures old(items) == [] ==> item == null && items == []
      ensures old(items) != [] ==> item == old(items)[0] && items == old(items)[1..] && !item.linked
    {
      item := head;
      if item != null {
        assert NodeAt(0);
        Remove(item);
        assert old(items)[0] == item;
      }
    }

    /**
     * The range-for that removes as it goes: the next item is fetched before the body runs, so
     * removing the current one never loses the place. Takes out exactly the wanted items.
     */
    method TakeMatching(wanted: set<Item>) returns (taken: seq<Item>)
      requires Valid()
      modifies this, Members(items)
      ensures Valid()
      ensures items == Select(old(items), wanted, false) && taken == Select(old(items), wanted, true)
    {
      taken := [];
      ghost var orig, k := items, 0;
      var item := head;
      while item != null
        invariant Valid() && 0 <= k <= |orig| && Iterating(orig, k, wanted, items, item)
        invariant taken == Select(orig[..k], wanted, true)
        invariant Members(items) <= Members(orig)
        decreases |orig| - k
      {
        var next := item.next;
        Follows(orig, k, wanted, item);
        SelectNext(orig, k, wanted);
        if item in wanted {
          taken := taken + [item];
        }
        Visit(item, wanted, orig, k);
        k, item := k + 1, next;
      }
      assert orig[..k] == orig;
    }

    method Visit(item: Item, wanted: set<Item>, ghost orig: seq<Item>, ghost k: int)
      requires Valid() && 0 <= k < |orig| && Iterating(orig, k, wanted, items, item)
      modifies this, Members(items)
      ensures Valid() && items == Select(orig[..k + 1], wanted, false) + orig[k + 1..]
      ensures Members(items) <= old(Members(items))
    {
      TakeOne(orig, k, wanted, items);
      if item in wanted {
        SubMinus(items, item);
        Remove(item);
      }
    }

    lemma Follows(orig: seq<Item>, k: int, wanted: set<Item>, item: Item?)
      requires Valid() && 0 <= k <= |orig| && Iterating(orig, k, wanted, items, item)
      ensures item != null ==> item.next == if k + 1 < |orig| then orig[k + 1] else null
    {
      if item != null {
        var p := |Select(orig[..k], wanted, false)|;
        assert items[p] == item;
        assert NodeAt(p);
        assert p + 1 < |items| ==> items[p + 1] == orig[k + 1];
      }
    }
  }
}
