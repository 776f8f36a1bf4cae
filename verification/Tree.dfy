/**
 * Inodes, their names and their parents. A directory's children and a child's parent are separate
 * fields, so that they agree, and that parents form no cycle, is an invariant and not a given.
 */
module Tree {
  import opened Base

  /** Room for a name, with its terminator. */
  const FILENAME_MAX: nat := 128

  datatype Node = Node(name: string, parent: Option<nat>, isDir: bool, children: seq<nat>, fs: nat, unlinked: bool)

  type Nodes = map<nat, Node>

  // --- one directory

  /** The first child of that name. */
  function Find(nodes: Nodes, children: seq<nat>, name: string): (r: Option<nat>)
    requires forall c :: c in children ==> c in nodes
    ensures r.Some? ==> r.value in children && nodes[r.value].name == name
    ensures r.None? ==> forall c :: c in children ==> nodes[c].name != name
  {
    if children == [] then None
    else if nodes[children[0]].name == name then Some(children[0])
    else Find(nodes, children[1..], name)
  }

  ghost predicate Differ(nodes: Nodes, children: seq<nat>, i: int, j: int)
    requires 0 <= i < |children| && 0 <= j < |children| && children[i] in nodes && children[j] in nodes
  {
    i != j ==> nodes[children[i]].name != nodes[children[j]].name
  }

  /** No two children share a name. */
  ghost predicate Distinct(nodes: Nodes, children: seq<nat>)
    requires forall c :: c in children ==> c in nodes
  {
    forall i, j {:trigger Differ(nodes, children, i, j)} ::
      0 <= i < |children| && 0 <= j < |children| ==> Differ(nodes, children, i, j)
  }

  lemma FindChild(nodes: Nodes, children: seq<nat>, c: nat)
    requires (forall d :: d in children ==> d in nodes) && Distinct(nodes, children) && c in children
    ensures Find(nodes, children, nodes[c].name) == Some(c)
  {
    var r := Find(nodes, children, nodes[c].name).value;
    var i :| 0 <= i < |children| && children[i] == c;
    var j :| 0 <= j < |children| && children[j] == r;
    assert Differ(nodes, children, i, j);
  }

  /** The sequence without its first `c`: `remove_child`. */
  function Without(children: seq<nat>, c: nat): seq<nat> {
    if children == [] then []
    else if children[0] == c then children[1..]
    else [children[0]] + Without(children[1..], c)
  }

  lemma {:induction false} WithoutKeeps(nodes: Nodes, children: seq<nat>, c: nat)
    requires (forall d :: d in children ==> d in nodes) && Distinct(nodes, children)
    ensures forall d :: d in Without(children, c) <==> d in children && d != c
    ensures Distinct(nodes, Without(children, c))
  {
    if children != [] {
      var rest := children[1..];
      TailDistinct(nodes, children);
      if children[0] != c {
        WithoutKeeps(nodes, rest, c);
        ConsDistinct(nodes, children[0], Without(rest, c));
      }
    }
  }

  lemma TailDistinct(nodes: Nodes, children: seq<nat>)
    requires (forall d :: d in children ==> d in nodes) && Distinct(nodes, children) && children != []
    ensures Distinct(nodes, children[1..])
    ensures forall d :: d in children[1..] <==> d in children && d != children[0]
    ensures forall d :: d in children[1..] ==> nodes[d].name != nodes[children[0]].name
  {
    forall i, j | 0 <= i < |children| - 1 && 0 <= j < |children| - 1 ensures Differ(nodes, children[1..], i, j) {
      assert Differ(nodes, children, i + 1, j + 1);
    }
    forall i | 1 <= i < |children| ensures nodes[children[i]].name != nodes[children[0]].name {
      assert Differ(nodes, children, i, 0);
    }
    forall d | d in children && d != children[0] ensures d in children[1..] {
      var i :| 0 <= i < |children| && children[i] == d;
      assert children[1..][i - 1] == d;
    }
  }

  lemma ConsDistinct(nodes: Nodes, c: nat, children: seq<nat>)
    requires c in nodes && (forall d :: d in children ==> d in nodes) && Distinct(nodes, children)
    requires forall d :: d in children ==> nodes[d].name != nodes[c].name
    ensures Distinct(nodes, [c] + children)
  {
    var all := [c] + children;
    forall i, j | 0 <= i < |all| && 0 <= j < |all| ensures Differ(nodes, all, i, j) {
      if i > 0 && j > 0 { assert Differ(nodes, children, i - 1, j - 1); }
    }
  }

  lemma AppendDistinct(nodes: Nodes, children: seq<nat>, c: nat)
    requires c in nodes && (forall d :: d in children ==> d in nodes) && Distinct(nodes, children)
    requires forall d :: d in children ==> nodes[d].name != nodes[c].name
    ensures Distinct(nodes, children + [c])
  {
    var all := children + [c];
    forall i, j | 0 <= i < |all| && 0 <= j < |all| ensures Differ(nodes, all, i, j) {
      if i < |children| && j < |children| { assert Differ(nodes, children, i, j); }
    }
  }

  lemma SameNamesDistinct(nodes: Nodes, nodes': Nodes, children: seq<nat>)
    requires (forall d :: d in children ==> d in nodes && d in nodes' && nodes'[d].name == nodes[d].name)
    requires Distinct(nodes, children)
    ensures Distinct(nodes', children)
  {
    forall i, j | 0 <= i < |children| && 0 <= j < |children| ensures Differ(nodes', children, i, j) {
      assert Differ(nodes, children, i, j);
    }
  }

  // --- the forest

  ghost predicate NodeOk(nodes: Nodes, rank: map<nat, nat>, n: nat)
    requires n in nodes
  {
    var x := nodes[n];
    && n in rank && |x.name| < FILENAME_MAX
    && (x.children != [] ==> x.isDir)
    && (forall c :: c in x.children ==> c in nodes && nodes[c].parent == Some(n))
    && Distinct(nodes, x.children)
    && (x.parent.Some? ==>
          && x.parent.value in nodes && x.parent.value in rank && rank[x.parent.value] < rank[n]
          && n in nodes[x.parent.value].children && nodes[x.parent.value].fs == x.fs)
    && (x.unlinked ==> x.parent.None?)
  }

  /** `rank` grows from every parent to its children, so parents form no cycle. */
  ghost predicate Ranked(nodes: Nodes, rank: map<nat, nat>) {
    forall n {:trigger NodeOk(nodes, rank, n)} :: n in nodes ==> NodeOk(nodes, rank, n)
  }

  ghost predicate Forest(nodes: Nodes) {
    exists rank :: Ranked(nodes, rank)
  }

  /** Following parents never comes back: no chain of parents is a cycle. */
  lemma {:induction false} NoCycle(nodes: Nodes, chain: seq<nat>)
    requires Forest(nodes) && |chain| > 1
    requires forall i :: 0 <= i < |chain| ==> chain[i] in nodes
    requires forall i {:trigger chain[i]} :: 0 <= i < |chain| - 1 ==> nodes[chain[i]].parent == Some(chain[i + 1])
    ensures chain[0] != chain[|chain| - 1]
  {
    var rank :| Ranked(nodes, rank);
    ChainFalls(nodes, rank, chain, |chain| - 1);
  }

  lemma {:induction false} ChainFalls(nodes: Nodes, rank: map<nat, nat>, chain: seq<nat>, k: nat)
    requires Ranked(nodes, rank) && 0 < k < |chain|
    requires forall i :: 0 <= i < |chain| ==> chain[i] in nodes
    requires forall i {:trigger chain[i]} :: 0 <= i < |chain| - 1 ==> nodes[chain[i]].parent == Some(chain[i + 1])
    ensures chain[0] in rank && chain[k] in rank && rank[chain[k]] < rank[chain[0]]
  {
    assert NodeOk(nodes, rank, chain[k - 1]);
    if k > 1 { ChainFalls(nodes, rank, chain, k - 1); }
  }

  /** `n` is `a` or lies under it. */
  ghost predicate Below(nodes: Nodes, rank: map<nat, nat>, a: nat, n: nat)
    requires Ranked(nodes, rank) && n in nodes
    decreases if n in rank then rank[n] else 0
  {
    assert NodeOk(nodes, rank, n);
    n == a || (nodes[n].parent.Some? && Below(nodes, rank, a, nodes[n].parent.value))
  }

  /** What a directory calls its children. */
  ghost function Binding(nodes: Nodes, d: nat, name: string): Option<nat> {
    if d in nodes && (forall c :: c in nodes[d].children ==> c in nodes) then
      Find(nodes, nodes[d].children, name)
    else None
  }

  lemma BindingIff(nodes: Nodes, rank: map<nat, nat>, d: nat, name: string, c: nat)
    requires Ranked(nodes, rank)
    ensures Binding(nodes, d, name) == Some(c) <==>
      d in nodes && c in nodes && c in nodes[d].children && nodes[c].name == name
  {
    if d in nodes {
      assert NodeOk(nodes, rank, d);
      if c in nodes[d].children { FindChild(nodes, nodes[d].children, c); }
    }
  }

  // --- taking an entry away

  function Dropped(nodes: Nodes, d: nat, c: nat, unlinked: bool): Nodes
    requires d in nodes && c in nodes
  {
    nodes[d := nodes[d].(children := Without(nodes[d].children, c))][
          c := (if c == d then nodes[d].(children := Without(nodes[d].children, c))
            else nodes[c]).(parent := None, unlinked := unlinked)]
  }

  lemma DroppedNode(nodes: Nodes, rank: map<nat, nat>, d: nat, c: nat, unlinked: bool, n: nat)
    requires Ranked(nodes, rank) && d in nodes && c in nodes[d].children && n in nodes
    ensures c in nodes && n in Dropped(nodes, d, c, unlinked) && NodeOk(Dropped(nodes, d, c, unlinked), rank, n)
  {
    assert NodeOk(nodes, rank, d);
    assert NodeOk(nodes, rank, c);
    assert NodeOk(nodes, rank, n);
    var nodes' := Dropped(nodes, d, c, unlinked);
    WithoutKeeps(nodes, nodes[d].children, c);
    SameNamesDistinct(nodes, nodes', nodes'[n].children);
  }

  lemma DroppedKeeps(nodes: Nodes, rank: map<nat, nat>, d: nat, c: nat, unlinked: bool)
    requires Ranked(nodes, rank) && d in nodes && c in nodes[d].children
    ensures c in nodes && c != d && Ranked(Dropped(nodes, d, c, unlinked), rank)
  {
    assert NodeOk(nodes, rank, d);
    assert NodeOk(nodes, rank, c);
    forall n | n in Dropped(nodes, d, c, unlinked) ensures NodeOk(Dropped(nodes, d, c, unlinked), rank, n) {
      DroppedNode(nodes, rank, d, c, unlinked, n);
    }
  }

  /** What was not under `a` is not under `a` afterwards. */
  lemma {:induction false} DroppedBelow(nodes: Nodes, rank: map<nat, nat>, d: nat, c: nat, unlinked: bool, a: nat,
    n: nat)
    requires Ranked(nodes, rank) && d in nodes && c in nodes && c in nodes[d].children && n in nodes &&
      !Below(nodes, rank, a, n)
    ensures Ranked(Dropped(nodes, d, c, unlinked), rank) && !Below(Dropped(nodes, d, c, unlinked), rank, a, n)
    decreases if n in rank then rank[n] else 0
  {
    DroppedKeeps(nodes, rank, d, c, unlinked);
    assert NodeOk(nodes, rank, n);
    if n != c && nodes[n].parent.Some? {
      DroppedBelow(nodes, rank, d, c, unlinked, a, nodes[n].parent.value);
    }
  }

  // --- putting an entry in

  function Placed(nodes: Nodes, d: nat, c: nat, name: string): Nodes
    requires d in nodes && c in nodes && c != d
  {
    nodes[d := nodes[d].(children := nodes[d].children + [c])][c := nodes[c].(name := name, parent := Some(d),
      unlinked := false)]
  }

  /** Everything under `c` moves up past `d`. */
  ghost function Lifted(nodes: Nodes, rank: map<nat, nat>, d: nat, c: nat): map<nat, nat>
    requires Ranked(nodes, rank) && d in nodes
  {
    assert NodeOk(nodes, rank, d);
    map n | n in nodes :: assert NodeOk(nodes, rank, n); if Below(nodes, rank, c, n) then rank[n] + rank[d] + 1
      else rank[n]
  }

  ghost predicate MayPlace(nodes: Nodes, rank: map<nat, nat>, d: nat, c: nat, name: string) {
    && Ranked(nodes, rank) && d in nodes && c in nodes && nodes[d].isDir && nodes[c].parent.None?
    && nodes[c].fs == nodes[d].fs && |name| < FILENAME_MAX && !Below(nodes, rank, c, d)
    && (forall x :: x in nodes[d].children ==> x in nodes && nodes[x].name != name)
  }

  lemma PlacedNode(nodes: Nodes, rank: map<nat, nat>, d: nat, c: nat, name: string, n: nat)
    requires MayPlace(nodes, rank, d, c, name) && n in nodes
    ensures n in Placed(nodes, d, c, name) && NodeOk(Placed(nodes, d, c, name), Lifted(nodes, rank, d, c), n)
  {
    var nodes' := Placed(nodes, d, c, name);
    assert NodeOk(nodes, rank, d);
    assert NodeOk(nodes, rank, c);
    assert NodeOk(nodes, rank, n);
    forall x | x in nodes[n].children ensures x != c {
      assert NodeOk(nodes, rank, x);
    }
    SameNamesDistinct(nodes, nodes', nodes[n].children);
    if n == d { AppendDistinct(nodes', nodes[d].children, c); }
    if nodes[n].parent.Some? { assert NodeOk(nodes, rank, nodes[n].parent.value); }
  }

  lemma PlacedKeeps(nodes: Nodes, rank: map<nat, nat>, d: nat, c: nat, name: string)
    requires MayPlace(nodes, rank, d, c, name)
    ensures Ranked(Placed(nodes, d, c, name), Lifted(nodes, rank, d, c))
  {
    forall n | n in Placed(nodes, d, c, name) ensures NodeOk(Placed(nodes, d, c, name), Lifted(nodes, rank, d, c), n) {
      PlacedNode(nodes, rank, d, c, name, n);
    }
  }

  // --- names before and after

  lemma DroppedBinding(nodes: Nodes, rank: map<nat, nat>, d: nat, c: nat, unlinked: bool, e: nat, name: string)
    requires Ranked(nodes, rank) && d in nodes && c in nodes && c in nodes[d].children
    ensures Binding(Dropped(nodes, d, c, unlinked), e, name) ==
      if e == d && name == nodes[c].name then None else Binding(nodes, e, name)
  {
    var nodes' := Dropped(nodes, d, c, unlinked);
    DroppedKeeps(nodes, rank, d, c, unlinked);
    assert NodeOk(nodes, rank, d);
    WithoutKeeps(nodes, nodes[d].children, c);
    var r, r' := Binding(nodes, e, name), Binding(nodes', e, name);
    if r.Some? {
      BindingIff(nodes, rank, e, name, r.value);
      BindingIff(nodes', rank, e, name, r.value);
      BindingIff(nodes, rank, d, nodes[c].name, c);
      if r.value == c { assert NodeOk(nodes, rank, e); }
    }
    if r'.Some? {
      BindingIff(nodes', rank, e, name, r'.value);
      BindingIff(nodes, rank, e, name, r'.value);
      BindingIff(nodes, rank, d, nodes[c].name, c);
    }
  }

  lemma PlacedBinding(nodes: Nodes, rank: map<nat, nat>, d: nat, c: nat, name: string, e: nat, other: string)
    requires MayPlace(nodes, rank, d, c, name)
    ensures Binding(Placed(nodes, d, c, name), e, other) ==
      if e == d && other == name then Some(c) else Binding(nodes, e, other)
  {
    var nodes', rank' := Placed(nodes, d, c, name), Lifted(nodes, rank, d, c);
    PlacedKeeps(nodes, rank, d, c, name);
    BindingIff(nodes', rank', d, name, c);
    var r, r' := Binding(nodes, e, other), Binding(nodes', e, other);
    if e in nodes { assert NodeOk(nodes, rank, e); }
    if r.Some? {
      BindingIff(nodes, rank, e, other, r.value);
      BindingIff(nodes', rank', e, other, r.value);
    }
    if r'.Some? {
      BindingIff(nodes', rank', e, other, r'.value);
      BindingIff(nodes, rank, e, other, r'.value);
    }
  }
}
