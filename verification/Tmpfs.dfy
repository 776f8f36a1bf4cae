/** The directory operations of the writable filesystem, and the checks `rename` makes above them. */
module Tmpfs {
  import opened Base
  import opened Tree

  /** A rename that finds source and target to be one name. */
  ghost predicate SamePlace(d: nat, name: string, e: nat, newName: string) {
    d == e && name == newName
  }

  /** What `rename` checks before it moves anything; `None` when nothing stands in the way. */
  ghost function Obstacle(nodes: Nodes, d: nat, name: string, e: nat, newName: string): Option<Errno>
    requires d in nodes && e in nodes
  {
    if !nodes[d].isDir || !nodes[e].isDir then Some(ENOTDIR)
    else if |newName| >= FILENAME_MAX then Some(ENAMETOOLONG)
    else
      var source, replaced := Binding(nodes, d, name), Binding(nodes, e, newName);
      if source.None? then Some(ENOENT)
      else if SamePlace(d, name, e, newName) || replaced.None? || source.value !in nodes ||
        replaced.value !in nodes then None
      else if nodes[replaced.value].isDir != nodes[source.value].isDir then
        Some(if nodes[source.value].isDir then ENOTDIR else EISDIR)
      else if nodes[replaced.value].isDir && nodes[replaced.value].children != [] then Some(ENOTEMPTY)
      else None
  }

  /**
   * The new names are the old ones with one moved: the target name now means the source, the source
   * name is gone, and every other name in every directory means what it meant.
   */
  ghost predicate Renamed(nodes: Nodes, nodes': Nodes, d: nat, name: string, e: nat, newName: string) {
    forall f, other {:trigger Binding(nodes', f, other)} :: Binding(nodes', f, other) ==
      if f == e && other == newName then Binding(nodes, d, name)
      else if f == d && other == name then None
      else Binding(nodes, f, other)
  }

  /** Nothing but names and parents changed, and parents only of the two inodes concerned. */
  ghost predicate Kept(nodes: Nodes, nodes': Nodes, moved: Option<nat>, replaced: Option<nat>) {
    && nodes'.Keys == nodes.Keys
    && forall n {:trigger nodes'[n]} :: n in nodes ==>
         && nodes'[n].isDir == nodes[n].isDir && nodes'[n].fs == nodes[n].fs
         && (Some(n) != moved ==> nodes'[n].name == nodes[n].name)
         && (Some(n) != moved && Some(n) != replaced ==>
           && nodes'[n].parent == nodes[n].parent
           && nodes'[n].unlinked == nodes[n].unlinked)
  }

  /** What a successful, effective rename leaves behind. */
  function Moved(nodes: Nodes, d: nat, source: nat, e: nat, newName: string, replaced: Option<nat>): Nodes
    requires d in nodes && e in nodes && source in nodes && (replaced.Some? ==> replaced.value in nodes) && source != e
  {
    var cleared := if replaced.Some? then Dropped(nodes, e, replaced.value, true) else nodes;
    Placed(Dropped(cleared, d, source, false), e, source, newName)
  }

  ghost predicate MayMove(nodes: Nodes, rank: map<nat, nat>, d: nat, source: nat, e: nat, newName: string,
    replaced: Option<nat>) {
    && Ranked(nodes, rank) && d in nodes && e in nodes && nodes[e].isDir && nodes[d].fs == nodes[e].fs
    && source in nodes && source in nodes[d].children && !Below(nodes, rank, source, e) && |newName| < FILENAME_MAX
    && replaced == Binding(nodes, e, newName) && replaced != Some(source)
    && (replaced.Some? ==> replaced.value in nodes)
  }

  /** The ancestor walk is enough: the moved forest is a forest, whatever was replaced. */
  lemma MovedKeeps(nodes: Nodes, rank: map<nat, nat>, d: nat, source: nat, e: nat, newName: string,
    replaced: Option<nat>)
    returns (rank': map<nat, nat>)
    requires MayMove(nodes, rank, d, source, e, newName, replaced)
    ensures source != e && Ranked(Moved(nodes, d, source, e, newName, replaced), rank')
  {
    var ready := MoveReady(nodes, rank, d, source, e, newName, replaced);
    rank' := Lifted(ready, rank, e, source);
    PlacedKeeps(ready, rank, e, source, newName);
  }

  /** Two names are gone: the one being moved and the one it is to have. */
  ghost predicate Cleared(nodes: Nodes, ready: Nodes, d: nat, name: string, e: nat, newName: string) {
    forall f, other {:trigger Binding(ready, f, other)} :: Binding(ready, f, other) ==
      if (f == e && other == newName) || (f == d && other == name) then None else Binding(nodes, f, other)
  }

  /** Before the source goes in, it stands alone and its new name is free. */
  lemma MoveReady(nodes: Nodes, rank: map<nat, nat>, d: nat, source: nat, e: nat, newName: string,
    replaced: Option<nat>)
    returns (ready: Nodes)
    requires MayMove(nodes, rank, d, source, e, newName, replaced)
    ensures source != e && MayPlace(ready, rank, e, source, newName)
    ensures Moved(nodes, d, source, e, newName, replaced) == Placed(ready, e, source, newName)
    ensures Cleared(nodes, ready, d, nodes[source].name, e, newName)
  {
    var cleared := if replaced.Some? then Dropped(nodes, e, replaced.value, true) else nodes;
    assert NodeOk(nodes, rank, d) && NodeOk(nodes, rank, source);
    if replaced.Some? {
      BindingIff(nodes, rank, e, newName, replaced.value);
      DroppedKeeps(nodes, rank, e, replaced.value, true);
      DroppedBelow(nodes, rank, e, replaced.value, true, source, e);
      WithoutKeeps(nodes, nodes[d].children, replaced.value);
    }
    ready := Dropped(cleared, d, source, false);
    DroppedKeeps(cleared, rank, d, source, false);
    DroppedBelow(cleared, rank, d, source, false, source, e);
    forall f, other ensures Binding(ready, f, other) ==
      if (f == e && other == newName) || (f == d && other == nodes[source].name) then None else Binding(nodes, f, other)
    {
      if replaced.Some? { DroppedBinding(nodes, rank, e, replaced.value, true, f, other); }
      DroppedBinding(cleared, rank, d, source, false, f, other);
    }
    assert Binding(ready, e, newName) == None;
    assert NodeOk(ready, rank, e);
  }

  lemma MovedBindings(nodes: Nodes, rank: map<nat, nat>, d: nat, source: nat, e: nat, newName: string,
    replaced: Option<nat>)
    requires MayMove(nodes, rank, d, source, e, newName, replaced)
    ensures source != e &&
      Renamed(nodes, Moved(nodes, d, source, e, newName, replaced), d, nodes[source].name, e, newName)
  {
    var ready := MoveReady(nodes, rank, d, source, e, newName, replaced);
    var nodes' := Moved(nodes, d, source, e, newName, replaced);
    BindingIff(nodes, rank, d, nodes[source].name, source);
    forall f, other ensures Binding(nodes', f, other) ==
      if f == e && other == newName then Some(source)
      else if f == d && other == nodes[source].name then None
      else Binding(nodes, f, other)
    {
      PlacedBinding(ready, rank, e, source, newName, f, other);
    }
  }

  lemma DroppedKept(nodes: Nodes, d: nat, c: nat, unlinked: bool)
    requires d in nodes && c in nodes && c != d
    ensures Kept(nodes, Dropped(nodes, d, c, unlinked), None, Some(c))
  {
  }

  lemma PlacedKept(nodes: Nodes, d: nat, c: nat, name: string)
    requires d in nodes && c in nodes && c != d
    ensures Kept(nodes, Placed(nodes, d, c, name), Some(c), None)
  {
  }

  lemma MovedKept(nodes: Nodes, rank: map<nat, nat>, d: nat, source: nat, e: nat, newName: string,
    replaced: Option<nat>)
    requires MayMove(nodes, rank, d, source, e, newName, replaced)
    ensures source != e &&
      MovedOnly(nodes, Moved(nodes, d, source, e, newName, replaced), Some(source), e, newName, replaced)
  {
    var cleared := if replaced.Some? then Dropped(nodes, e, replaced.value, true) else nodes;
    assert NodeOk(nodes, rank, d) && NodeOk(nodes, rank, source);
    if replaced.Some? {
      BindingIff(nodes, rank, e, newName, replaced.value);
      DroppedKeeps(nodes, rank, e, replaced.value, true);
      DroppedKept(nodes, e, replaced.value, true);
    }
    DroppedKept(cleared, d, source, false);
    PlacedKept(Dropped(cleared, d, source, false), e, source, newName);
  }

  /** The source has its new name and parent, the replaced inode has neither name nor parent. */
  ghost predicate MovedOnly(nodes: Nodes, nodes': Nodes, source: Option<nat>, e: nat, newName: string,
    replaced: Option<nat>) {
    && Kept(nodes, nodes', source, replaced) && source.Some? && source.value in nodes'
    && nodes'[source.value].parent == Some(e) && nodes'[source.value].name == newName && !nodes'[source.value].unlinked
    && (replaced.Some? ==>
          replaced.value in nodes' && nodes'[replaced.value].parent.None? && nodes'[replaced.value].unlinked)
  }

  // --- nothing is lost

  /** Who is not moved and not replaced keeps its ancestors. */
  lemma {:induction false} UnmovedBelow(nodes: Nodes, rank: map<nat, nat>, nodes': Nodes, rank': map<nat, nat>,
    source: nat, replaced: Option<nat>, a: nat, n: nat)
    requires Ranked(nodes, rank) && Ranked(nodes', rank') && Kept(nodes, nodes', Some(source), replaced) && n in nodes
    requires replaced.Some? ==> replaced.value in nodes && nodes[replaced.value].children == []
    requires Some(n) != replaced && !Below(nodes, rank, source, n)
    ensures Below(nodes', rank', a, n) <==> Below(nodes, rank, a, n)
    decreases if n in rank then rank[n] else 0
  {
    assert NodeOk(nodes, rank, n) && NodeOk(nodes', rank', n);
    if nodes[n].parent.Some? {
      UnmovedBelow(nodes, rank, nodes', rank', source, replaced, a, nodes[n].parent.value);
    }
  }

  /**
   * After a rename the ancestors of what was moved are those it had up to the source, and the target
   * directory with its ancestors; the ancestors of everything else but the replaced inode are as before.
   */
  lemma {:induction false} MovedBelow(nodes: Nodes, rank: map<nat, nat>, nodes': Nodes, rank': map<nat, nat>,
    source: nat, e: nat, newName: string, replaced: Option<nat>, a: nat, n: nat)
    requires Ranked(nodes, rank) && Ranked(nodes', rank') && n in nodes && a in nodes && e in nodes && source in nodes
    requires MovedOnly(nodes, nodes', Some(source), e, newName, replaced) && Some(n) != replaced
    requires replaced.Some? ==> replaced.value in nodes && nodes[replaced.value].children == []
    requires !Below(nodes, rank, source, e) && Some(e) != replaced && Some(source) != replaced
    ensures Below(nodes', rank', a, n) <==>
      if Below(nodes, rank, source, n) then
        (Below(nodes, rank, source, a) && Below(nodes, rank, a, n)) || Below(nodes, rank, a, e)
      else Below(nodes, rank, a, n)
    decreases if n in rank then rank[n] else 0
  {
    assert NodeOk(nodes, rank, n) && NodeOk(nodes', rank', n);
    UnmovedBelow(nodes, rank, nodes', rank', source, replaced, a, e);
    if !Below(nodes, rank, source, n) {
      UnmovedBelow(nodes, rank, nodes', rank', source, replaced, a, n);
    } else if n == source {
      BelowBoth(nodes, rank, source, a);
    } else {
      MovedBelow(nodes, rank, nodes', rank', source, e, newName, replaced, a, nodes[n].parent.value);
    }
  }

  lemma MovedBelowAll(nodes: Nodes, rank: map<nat, nat>, nodes': Nodes, rank': map<nat, nat>, source: nat, e: nat,
    newName: string, replaced: Option<nat>)
    requires Ranked(nodes, rank) && Ranked(nodes', rank') && e in nodes && source in nodes
    requires MovedOnly(nodes, nodes', Some(source), e, newName, replaced) && Some(source) != replaced
    requires replaced == Binding(nodes, e, newName)
    requires replaced.Some? ==> replaced.value in nodes && nodes[replaced.value].children == []
    requires !Below(nodes, rank, source, e)
    ensures forall a, n {:trigger Below(nodes', rank', a, n)} ::
      a in nodes && n in nodes && Some(n) != replaced ==>
        (Below(nodes', rank', a, n) <==>
          if Below(nodes, rank, source, n) then
            || (Below(nodes, rank, source, a) && Below(nodes, rank, a, n))
            || Below(nodes, rank, a, e)
          else Below(nodes, rank, a, n))
  {
    if replaced.Some? {
      BindingIff(nodes, rank, e, newName, replaced.value);
      assert NodeOk(nodes, rank, e) && NodeOk(nodes, rank, replaced.value);
    }
    forall a, n | a in nodes && n in nodes && Some(n) != replaced
      ensures Below(nodes', rank', a, n) <==>
        if Below(nodes, rank, source, n) then
          || (Below(nodes, rank, source, a) && Below(nodes, rank, a, n))
          || Below(nodes, rank, a, e)
        else Below(nodes, rank, a, n)
    {
      MovedBelow(nodes, rank, nodes', rank', source, e, newName, replaced, a, n);
    }
  }

  /** Of two inodes only one can be above the other. */
  lemma {:induction false} BelowBoth(nodes: Nodes, rank: map<nat, nat>, a: nat, n: nat)
    requires Ranked(nodes, rank) && a in nodes && n in nodes
    ensures Below(nodes, rank, a, n) && Below(nodes, rank, n, a) ==> a == n
  {
    assert NodeOk(nodes, rank, a) && NodeOk(nodes, rank, n);
    if Below(nodes, rank, a, n) { BelowRank(nodes, rank, a, n); }
    if Below(nodes, rank, n, a) { BelowRank(nodes, rank, n, a); }
  }

  lemma {:induction false} BelowRank(nodes: Nodes, rank: map<nat, nat>, a: nat, n: nat)
    requires Ranked(nodes, rank) && a in nodes && n in nodes && a in rank && n in rank && Below(nodes, rank, a, n)
    ensures a == n || rank[a] < rank[n]
    decreases rank[n]
  {
    assert NodeOk(nodes, rank, n);
    if n != a { BelowRank(nodes, rank, a, nodes[n].parent.value); }
  }

  /** Two names of one inode would be one name, so a rename never replaces its own source. */
  lemma SourceDiffers(nodes: Nodes, rank: map<nat, nat>, d: nat, name: string, e: nat, newName: string)
    requires Ranked(nodes, rank) && !SamePlace(d, name, e, newName) && Binding(nodes, d, name).Some?
    ensures Binding(nodes, e, newName) != Binding(nodes, d, name)
  {
    var source := Binding(nodes, d, name).value;
    BindingIff(nodes, rank, d, name, source);
    BindingIff(nodes, rank, e, newName, source);
    assert NodeOk(nodes, rank, d);
    if e in nodes { assert NodeOk(nodes, rank, e); }
  }

  // --- why the walk is needed

  lemma {:induction false} ChainStays(nodes: Nodes, rank: map<nat, nat>, rank': map<nat, nat>,
                                      d: nat, source: nat, e: nat, newName: string, replaced: Option<nat>, n: nat)
    requires Ranked(nodes, rank) && d in nodes && e in nodes && source in nodes && source != e
    requires replaced.Some? ==> replaced.value in nodes && nodes[replaced.value].parent == Some(e)
    requires Ranked(Moved(nodes, d, source, e, newName, replaced), rank')
    requires n in nodes && e in rank && n in rank && rank[n] <= rank[e] && Below(nodes, rank, source, n)
    ensures source in rank' && n in rank' && rank'[source] <= rank'[n]
    decreases rank[n]
  {
    var nodes' := Moved(nodes, d, source, e, newName, replaced);
    assert NodeOk(nodes', rank', n) && NodeOk(nodes', rank', source);
    assert NodeOk(nodes, rank, n);
    if replaced.Some? { assert NodeOk(nodes, rank, replaced.value); }
    if n != source {
      ChainStays(nodes, rank, rank', d, source, e, newName, replaced, nodes[n].parent.value);
    }
  }

  /** Moving a directory under itself makes a cycle, so the walk refuses nothing it could allow. */
  lemma MoveUnderSelfBreaks(nodes: Nodes, rank: map<nat, nat>, d: nat, source: nat, e: nat, newName: string,
    replaced: Option<nat>)
    requires Ranked(nodes, rank) && d in nodes && e in nodes && source in nodes && source != e
    requires replaced.Some? ==> replaced.value in nodes && nodes[replaced.value].parent == Some(e)
    requires Below(nodes, rank, source, e)
    ensures !Forest(Moved(nodes, d, source, e, newName, replaced))
  {
    var nodes' := Moved(nodes, d, source, e, newName, replaced);
    assert NodeOk(nodes, rank, e);
    if Forest(nodes') {
      var rank' :| Ranked(nodes', rank');
      assert NodeOk(nodes', rank', source);
      ChainStays(nodes, rank, rank', d, source, e, newName, replaced, e);
    }
  }

  // --- a new inode

  /** One name means something else, or nothing, and every other name means what it meant. */
  ghost predicate Rebound(nodes: Nodes, nodes': Nodes, d: nat, name: string, c: Option<nat>) {
    forall f, other {:trigger Binding(nodes', f, other)} ::
      Binding(nodes', f, other) == if f == d && other == name then c else Binding(nodes, f, other)
  }

  function Added(nodes: Nodes, d: nat, c: nat, name: string, asDir: bool): Nodes
    requires d in nodes && c !in nodes
  {
    Placed(nodes[c := Node(name, None, asDir, [], nodes[d].fs, false)], d, c, name)
  }

  lemma AloneKeeps(nodes: Nodes, rank: map<nat, nat>, c: nat, x: Node)
    requires Ranked(nodes, rank) && c !in nodes && x.parent.None? && x.children == [] && |x.name| < FILENAME_MAX &&
      !x.unlinked
    ensures Ranked(nodes[c := x], rank[c := 0])
    ensures forall f, other {:trigger Binding(nodes[c := x], f, other)} ::
      Binding(nodes[c := x], f, other) == Binding(nodes, f, other)
  {
    var nodes', rank' := nodes[c := x], rank[c := 0];
    forall n | n in nodes' ensures NodeOk(nodes', rank', n) {
      if n != c {
        assert NodeOk(nodes, rank, n);
        SameNamesDistinct(nodes, nodes', nodes[n].children);
      }
    }
    forall f, other ensures Binding(nodes', f, other) == Binding(nodes, f, other) {
      if f in nodes {
        assert NodeOk(nodes, rank, f);
        FindSame(nodes, nodes', nodes[f].children, other);
      }
    }
  }

  lemma {:induction false} FindSame(nodes: Nodes, nodes': Nodes, children: seq<nat>, name: string)
    requires forall c :: c in children ==> c in nodes && c in nodes' && nodes'[c].name == nodes[c].name
    ensures Find(nodes', children, name) == Find(nodes, children, name)
  {
    if children != [] { FindSame(nodes, nodes', children[1..], name); }
  }

  lemma {:induction false} AloneAbove(nodes: Nodes, rank: map<nat, nat>, c: nat, n: nat)
    requires Ranked(nodes, rank) && n in nodes && c in nodes && c != n && nodes[c].children == []
    ensures !Below(nodes, rank, c, n)
    decreases if n in rank then rank[n] else 0
  {
    assert NodeOk(nodes, rank, n);
    if nodes[n].parent.Some? { AloneAbove(nodes, rank, c, nodes[n].parent.value); }
  }

  lemma AddedKeeps(nodes: Nodes, rank: map<nat, nat>, d: nat, c: nat, name: string, asDir: bool)
    returns (rank': map<nat, nat>)
    requires Ranked(nodes, rank) && d in nodes && c !in nodes && nodes[d].isDir && |name| < FILENAME_MAX &&
      Binding(nodes, d, name).None?
    ensures Ranked(Added(nodes, d, c, name, asDir), rank')
    ensures Rebound(nodes, Added(nodes, d, c, name, asDir), d, name, Some(c))
  {
    var x := Node(name, None, asDir, [], nodes[d].fs, false);
    var nodes1, rank1 := nodes[c := x], rank[c := 0];
    AloneKeeps(nodes, rank, c, x);
    AloneAbove(nodes1, rank1, c, d);
    assert NodeOk(nodes, rank, d);
    assert MayPlace(nodes1, rank1, d, c, name);
    PlacedKeeps(nodes1, rank1, d, c, name);
    rank' := Lifted(nodes1, rank1, d, c);
    forall f, other ensures Binding(Added(nodes, d, c, name, asDir), f, other) ==
      if f == d && other == name then Some(c) else Binding(nodes, f, other)
    {
      PlacedBinding(nodes1, rank1, d, c, name, f, other);
      assert Binding(nodes1, f, other) == Binding(nodes, f, other);
    }
  }

  lemma DroppedRebound(nodes: Nodes, rank: map<nat, nat>, d: nat, c: nat)
    requires Ranked(nodes, rank) && d in nodes && c in nodes && c in nodes[d].children
    ensures Rebound(nodes, Dropped(nodes, d, c, true), d, nodes[c].name, None)
  {
    forall f, other ensures Binding(Dropped(nodes, d, c, true), f, other) ==
      if f == d && other == nodes[c].name then None else Binding(nodes, f, other)
    {
      DroppedBinding(nodes, rank, d, c, true, f, other);
    }
  }

  datatype Request =
    | CreateIn(dir: nat, name: string, asDir: bool, memory: bool, address: nat)
    | UnlinkIn(dir: nat, name: string)
    | RenameTo(dir: nat, name: string, newDir: nat, newName: string, memory: bool)

  /** All inodes there are. Whether an allocation succeeds is the caller's to say. */
  class Filesystem {
    var nodes: Nodes
    var readOnly: set<nat>
    ghost var rank: map<nat, nat>

    ghost predicate Valid()
      reads this
    {
      Ranked(nodes, rank)
    }

    constructor (root: nat, fs: nat)
      ensures Valid() && nodes == map[root := Node("/", None, true, [], fs, false)] && readOnly == {}
    {
      nodes := map[root := Node("/", None, true, [], fs, false)];
      readOnly := {};
      rank := map[root := 0];
    }

    /** `find_child`. */
    method FindChild(children: seq<nat>, name: string) returns (r: Option<nat>)
      requires forall c :: c in children ==> c in nodes
      ensures r == Find(nodes, children, name)
    {
      var i := 0;
      while i < |children|
        invariant 0 <= i <= |children|
        invariant Find(nodes, children, name) == Find(nodes, children[i..], name)
      {
        if nodes[children[i]].name == name {
          return Some(children[i]);
        }
        i := i + 1;
      }
      return None;
    }

    /** `remove_child`. */
    method RemoveChild(children: seq<nat>, c: nat) returns (r: seq<nat>)
      ensures r == Without(children, c)
    {
      var i := 0;
      while i < |children|
        invariant 0 <= i <= |children|
        invariant Without(children, c) == children[..i] + Without(children[i..], c)
      {
        if children[i] == c {
          return children[..i] + children[i + 1..];
        }
        i := i + 1;
      }
      return children;
    }

    method Lookup(d: nat, name: string) returns (r: Result<nat>)
      requires Valid() && d in nodes
      ensures r == if !nodes[d].isDir then Err(ENOTDIR)
                   else match Binding(nodes, d, name) case Some(c) => Ok(c) case None => Err(ENOENT)
    {
      if !nodes[d].isDir { return Err(ENOTDIR); }
      assert NodeOk(nodes, rank, d);
      var c := FindChild(nodes[d].children, name);
      return if c.Some? then Ok(c.value) else Err(ENOENT);
    }

    /** `address` is where the new inode ends up if there is memory for it. */
    method Create(d: nat, name: string, asDir: bool, memory: bool, address: nat) returns (r: Result<nat>)
      requires Valid() && d in nodes && address !in nodes
      modifies this
      ensures Valid() && readOnly == old(readOnly)
      ensures r == if !old(nodes)[d].isDir then Err(ENOTDIR)
                   else if |name| >= FILENAME_MAX then Err(ENAMETOOLONG)
                   else if Binding(old(nodes), d, name).Some? then Err(EEXIST)
                   else if !memory then Err(ENOMEM) else Ok(address)
      ensures r.Err? ==> nodes == old(nodes)
      ensures r.Ok? ==> Rebound(old(nodes), nodes, d, name, Some(address))
      ensures r.Ok? ==> nodes.Keys == old(nodes).Keys + {address} && Kept(old(nodes), nodes - {address}, None, None)
      ensures r.Ok? ==> nodes[address] == Node(name, Some(d), asDir, [], old(nodes)[d].fs, false)
    {
      if !nodes[d].isDir { return Err(ENOTDIR); }
      if |name| >= FILENAME_MAX { return Err(ENAMETOOLONG); }
      assert NodeOk(nodes, rank, d);
      var existing := FindChild(nodes[d].children, name);
      if existing.Some? { return Err(EEXIST); }
      if !memory { return Err(ENOMEM); }
      ghost var rank' := AddedKeeps(nodes, rank, d, address, name, asDir);
      AddedKept(nodes, d, address, name, asDir);
      nodes := Added(nodes, d, address, name, asDir);
      rank := rank';
      return Ok(address);
    }

    method Unlink(d: nat, name: string) returns (r: Result<()>)
      requires Valid() && d in nodes
      modifies this
      ensures Valid() && readOnly == old(readOnly)
      ensures r.Err? ==> nodes == old(nodes)
      ensures var found := Binding(old(nodes), d, name);
        if !old(nodes)[d].isDir then r == Err(ENOTDIR)
        else if found.None? then r == Err(ENOENT)
        else
          && found.value in old(nodes)
          && if old(nodes)[found.value].isDir && old(nodes)[found.value].children != [] then r == Err(ENOTEMPTY)
             else
               && r == Ok(()) && Rebound(old(nodes), nodes, d, name, None) && Kept(old(nodes), nodes, None, found)
               && nodes[found.value].parent.None? && nodes[found.value].unlinked
    {
      if !nodes[d].isDir { return Err(ENOTDIR); }
      assert NodeOk(nodes, rank, d);
      var found := FindChild(nodes[d].children, name);
      if found.None? { return Err(ENOENT); }
      var c := found.value;
      if nodes[c].isDir && nodes[c].children != [] { return Err(ENOTEMPTY); }
      DroppedKeeps(nodes, rank, d, c, true);
      DroppedRebound(nodes, rank, d, c);
      DroppedKept(nodes, d, c, true);
      var rest := RemoveChild(nodes[d].children, c);
      nodes := nodes[d := nodes[d].(children := rest)];
      nodes := nodes[c := nodes[c].(parent := None, unlinked := true)];
      assert nodes == Dropped(old(nodes), d, c, true);
      return Ok(());
    }

    /** `TmpfsInode::rename`. `memory` says whether the destination slot could be reserved. */
    method Rename(d: nat, name: string, e: nat, newName: string, memory: bool) returns (r: Result<()>)
      requires Valid() && d in nodes && e in nodes && nodes[d].fs == nodes[e].fs
      requires nodes[e].isDir && Binding(nodes, d, name).Some? ==> !Below(nodes, rank, Binding(nodes, d, name).value, e)
      modifies this
      ensures Valid() && readOnly == old(readOnly)
      ensures var obstacle := Obstacle(old(nodes), d, name, e, newName);
        r == if obstacle.Some? then Err(obstacle.value)
             else if !memory && !SamePlace(d, name, e, newName) then Err(ENOMEM) else Ok(())
      ensures r.Err? || SamePlace(d, name, e, newName) ==> nodes == old(nodes)
      ensures r.Ok? && !SamePlace(d, name, e, newName) ==>
        && Renamed(old(nodes), nodes, d, name, e, newName)
        && MovedOnly(old(nodes), nodes, Binding(old(nodes), d, name), e, newName, Binding(old(nodes), e, newName))
      ensures var source, replaced := Binding(old(nodes), d, name), Binding(old(nodes), e, newName);
        r.Ok? && !SamePlace(d, name, e, newName) ==>
          && source.Some? && source.value in old(nodes)
          && (replaced.Some? ==>
            && replaced.value in old(nodes) && old(nodes)[replaced.value].isDir == old(nodes)[source.value].isDir
            && old(nodes)[replaced.value].children == [])
          && forall a, n {:trigger Below(nodes, rank, a, n)} ::
            a in old(nodes) && n in old(nodes) && n in nodes && Some(n) != replaced ==>
              (Below(nodes, rank, a, n) <==>
                if Below(old(nodes), old(rank), source.value, n) then
                  || (Below(old(nodes), old(rank), source.value, a) && Below(old(nodes), old(rank), a, n))
                  || Below(old(nodes), old(rank), a, e)
                else Below(old(nodes), old(rank), a, n))
      ensures var source, replaced := Binding(old(nodes), d, name), Binding(old(nodes), e, newName);
        r.Ok? <==>
          && old(nodes)[d].isDir && old(nodes)[e].isDir && |newName| < FILENAME_MAX && source.Some?
          && ((d == e && name == newName) || (memory && (replaced.Some? ==>
            && replaced.value in old(nodes) && source.value in old(nodes)
            && old(nodes)[replaced.value].isDir == old(nodes)[source.value].isDir
            && old(nodes)[replaced.value].children == [])))
      ensures r.Err? ==> var source, replaced := Binding(old(nodes), d, name), Binding(old(nodes), e, newName);
        match r.error
        case ENAMETOOLONG => |newName| >= FILENAME_MAX
        case ENOENT => source.None?
        case ENOMEM => !memory
        case ENOTDIR => !old(nodes)[d].isDir || !old(nodes)[e].isDir || (replaced.Some? && source.Some? &&
          IsFile(old(nodes), replaced.value) && !IsFile(old(nodes), source.value))
        case EISDIR => replaced.Some? && source.Some? && !IsFile(old(nodes), replaced.value) &&
          IsFile(old(nodes), source.value)
        case ENOTEMPTY => replaced.Some? && replaced.value in old(nodes) && old(nodes)[replaced.value].children != []
        case _ => false
    {
      var checked := Inspect(d, name, e, newName, memory);
      if checked.Err? { return Err(checked.error); }
      if d == e && name == newName { return Ok(()); }
      Move(d, name, checked.value.0, e, newName, checked.value.1);
      return Ok(());
    }

    /** What `rename` checks before it moves anything: the source and what it would replace, or an error. */
    method Inspect(d: nat, name: string, e: nat, newName: string, memory: bool) returns (r: Result<(nat, Option<nat>)>)
      requires Valid() && d in nodes && e in nodes && nodes[d].fs == nodes[e].fs
      ensures var obstacle := Obstacle(nodes, d, name, e, newName);
        if obstacle.Some? then r == Err(obstacle.value)
        else if !memory && !SamePlace(d, name, e, newName) then r == Err(ENOMEM) else r.Ok?
      ensures var source, replaced := Binding(nodes, d, name), Binding(nodes, e, newName);
        r.Ok? <==>
          && nodes[d].isDir && nodes[e].isDir && |newName| < FILENAME_MAX && source.Some?
          && ((d == e && name == newName) || (memory && (replaced.Some? ==>
            && replaced.value in nodes && source.value in nodes
            && nodes[replaced.value].isDir == nodes[source.value].isDir
            && nodes[replaced.value].children == [])))
      ensures r.Err? ==> var source, replaced := Binding(nodes, d, name), Binding(nodes, e, newName);
        match r.error
        case ENAMETOOLONG => |newName| >= FILENAME_MAX
        case ENOENT => source.None?
        case ENOMEM => !memory
        case ENOTDIR => !nodes[d].isDir || !nodes[e].isDir || (replaced.Some? && source.Some? &&
          IsFile(nodes, replaced.value) && !IsFile(nodes, source.value))
        case EISDIR => replaced.Some? && source.Some? && !IsFile(nodes, replaced.value) &&
          IsFile(nodes, source.value)
        case ENOTEMPTY => replaced.Some? && replaced.value in nodes && nodes[replaced.value].children != []
        case _ => false
      ensures r.Ok? ==> Binding(nodes, d, name) == Some(r.value.0)
      ensures r.Ok? && !SamePlace(d, name, e, newName) ==>
        && r.value.1 == Binding(nodes, e, newName) && r.value.1 != Some(r.value.0)
        && (r.value.1.Some? ==> r.value.1.value in nodes && nodes[r.value.1.value].children == [])
    {
      if !nodes[d].isDir || !nodes[e].isDir { return Err(ENOTDIR); }
      if |newName| >= FILENAME_MAX { return Err(ENAMETOOLONG); }
      assert NodeOk(nodes, rank, d) && NodeOk(nodes, rank, e);
      var found := FindChild(nodes[d].children, name);
      if found.None? { return Err(ENOENT); }
      var source := found.value;
      if d == e && name == newName { return Ok((source, None)); }
      var replaced := FindChild(nodes[e].children, newName);
      SourceDiffers(nodes, rank, d, name, e, newName);
      if replaced == Some(source) { return Ok((source, None)); }
      if replaced.Some? {
        assert NodeOk(nodes, rank, replaced.value);
        if nodes[replaced.value].isDir != nodes[source].isDir {
          return Err(if nodes[source].isDir then ENOTDIR else EISDIR);
        }
        if nodes[replaced.value].isDir && nodes[replaced.value].children != [] { return Err(ENOTEMPTY); }
      }
      if !memory { return Err(ENOMEM); }
      return Ok((source, replaced));
    }

    /** The move itself, with nothing in its way. */
    method Move(d: nat, ghost name: string, source: nat, e: nat, newName: string, replaced: Option<nat>)
      requires Valid() && MayMove(nodes, rank, d, source, e, newName, replaced) && nodes[source].name == name
      requires replaced.Some? ==> nodes[replaced.value].children == []
      modifies this`nodes, this`rank
      ensures Valid() && Renamed(old(nodes), nodes, d, name, e, newName)
      ensures MovedOnly(old(nodes), nodes, Some(source), e, newName, replaced)
      ensures forall a, n {:trigger Below(nodes, rank, a, n)} ::
        a in old(nodes) && n in old(nodes) && n in nodes && Some(n) != replaced ==>
          (Below(nodes, rank, a, n) <==>
            if Below(old(nodes), old(rank), source, n) then
              || (Below(old(nodes), old(rank), source, a) && Below(old(nodes), old(rank), a, n))
              || Below(old(nodes), old(rank), a, e)
            else Below(old(nodes), old(rank), a, n))
    {
      ghost var rank' := MovedKeeps(nodes, rank, d, source, e, newName, replaced);
      MovedBindings(nodes, rank, d, source, e, newName, replaced);
      MovedKept(nodes, rank, d, source, e, newName, replaced);
      assert NodeOk(nodes, rank, source) && NodeOk(nodes, rank, d);
      if replaced.Some? { assert NodeOk(nodes, rank, replaced.value); }
      Relink(d, source, e, newName, replaced);
      rank := rank';
      MovedBelowAll(old(nodes), old(rank), nodes, rank, source, e, newName, replaced);
    }

    /** `fs::rename`, once both parents are resolved. */
    method RenameChecked(d: nat, name: string, e: nat, newName: string, memory: bool) returns (r: Result<()>)
      requires Valid() && d in nodes && e in nodes
      modifies this
      ensures Valid() && readOnly == old(readOnly)
      ensures var source := Binding(old(nodes), d, name);
        if old(nodes)[d].fs != old(nodes)[e].fs then r == Err(EXDEV)
        else if old(nodes)[d].fs in readOnly then r == Err(EROFS)
        else if IsDots(name) || IsDots(newName) then r == Err(EINVAL)
        else if !old(nodes)[d].isDir then r == Err(ENOTDIR)
        else if source.None? then r == Err(ENOENT)
        else if UnderItself(old(nodes), old(rank), source.value, e) then r == Err(EINVAL)
        else
          var obstacle := Obstacle(old(nodes), d, name, e, newName);
          r == if obstacle.Some? then Err(obstacle.value)
               else if !memory && !SamePlace(d, name, e, newName) then Err(ENOMEM) else Ok(())
      ensures r.Err? || SamePlace(d, name, e, newName) ==> nodes == old(nodes)
      ensures r.Ok? && !SamePlace(d, name, e, newName) ==>
        && Renamed(old(nodes), nodes, d, name, e, newName)
        && MovedOnly(old(nodes), nodes, Binding(old(nodes), d, name), e, newName, Binding(old(nodes), e, newName))
      ensures var source, replaced := Binding(old(nodes), d, name), Binding(old(nodes), e, newName);
        r.Ok? && !SamePlace(d, name, e, newName) ==>
          && source.Some? && source.value in old(nodes)
          && (replaced.Some? ==>
            && replaced.value in old(nodes) && old(nodes)[replaced.value].isDir == old(nodes)[source.value].isDir
            && old(nodes)[replaced.value].children == [])
          && forall a, n {:trigger Below(nodes, rank, a, n)} ::
            a in old(nodes) && n in old(nodes) && n in nodes && Some(n) != replaced ==>
              (Below(nodes, rank, a, n) <==>
                if Below(old(nodes), old(rank), source.value, n) then
                  || (Below(old(nodes), old(rank), source.value, a) && Below(old(nodes), old(rank), a, n))
                  || Below(old(nodes), old(rank), a, e)
                else Below(old(nodes), old(rank), a, n))
      ensures var source, replaced := Binding(old(nodes), d, name), Binding(old(nodes), e, newName);
        r.Ok? <==>
          && old(nodes)[d].fs == old(nodes)[e].fs && old(nodes)[d].fs !in readOnly && !IsDots(name) && !IsDots(newName)
          && old(nodes)[d].isDir && old(nodes)[e].isDir && |newName| < FILENAME_MAX && source.Some?
          && source.value in old(nodes)
          && !(old(nodes)[source.value].isDir && Below(old(nodes), old(rank), source.value, e))
          && ((d == e && name == newName) || (memory && (replaced.Some? ==>
            && replaced.value in old(nodes) && old(nodes)[replaced.value].isDir == old(nodes)[source.value].isDir
            && old(nodes)[replaced.value].children == [])))
    {
      if nodes[d].fs != nodes[e].fs { return Err(EXDEV); }
      if nodes[d].fs in readOnly { return Err(EROFS); }
      if IsDots(name) || IsDots(newName) { return Err(EINVAL); }
      var found := Lookup(d, name);
      if found.Err? { return Err(found.error); }
      var source := found.value;
      BindingIff(nodes, rank, d, name, source);
      LeafNotAbove(nodes, rank, source, e);
      if nodes[source].isDir {
        var under := Walk(source, e);
        if under { return Err(EINVAL); }
      }
      r := Rename(d, name, e, newName, memory);
    }

    /** The walk up from the target directory. */
    method Walk(source: nat, e: nat) returns (under: bool)
      requires Valid() && e in nodes
      ensures under <==> Below(nodes, rank, source, e)
    {
      assert NodeOk(nodes, rank, e);
      var walk := Some(e);
      while walk.Some?
        invariant walk.Some? ==> walk.value in nodes && walk.value in rank
        invariant Below(nodes, rank, source, e) <==> walk.Some? && Below(nodes, rank, source, walk.value)
        decreases if walk.Some? then 1 + rank[walk.value] else 0
      {
        assert NodeOk(nodes, rank, walk.value);
        if walk.value == source { return true; }
        walk := nodes[walk.value].parent;
      }
      return false;
    }

    /** Any run of requests on live inodes leaves a forest. */
    method Run(requests: seq<Request>)
      requires Valid()
      modifies this
      ensures Valid() && Forest(nodes) && readOnly == old(readOnly)
    {
      for i := 0 to |requests|
        invariant Valid() && readOnly == old(readOnly)
      {
        match requests[i] {
          case CreateIn(d, name, asDir, memory, address) =>
            if d in nodes && address !in nodes { var _ := Create(d, name, asDir, memory, address); }
          case UnlinkIn(d, name) =>
            if d in nodes { var _ := Unlink(d, name); }
          case RenameTo(d, name, e, newName, memory) =>
            if d in nodes && e in nodes { var _ := RenameChecked(d, name, e, newName, memory); }
        }
      }
    }

    /** The part of `rename` that moves: it can no longer fail. */
    method Relink(d: nat, source: nat, e: nat, newName: string, replaced: Option<nat>)
      requires d in nodes && e in nodes && source in nodes && source != e && source != d && !nodes[source].unlinked
      requires replaced.Some? ==> replaced.value in nodes && replaced.value != e && replaced.value != source
      modifies this`nodes
      ensures nodes == Moved(old(nodes), d, source, e, newName, replaced)
    {
      if replaced.Some? {
        var kept := RemoveChild(nodes[e].children, replaced.value);
        nodes := nodes[e := nodes[e].(children := kept)];
      }
      var rest := RemoveChild(nodes[d].children, source);
      nodes := nodes[d := nodes[d].(children := rest)];
      nodes := nodes[source := nodes[source].(name := newName, parent := Some(e))];
      nodes := nodes[e := nodes[e].(children := nodes[e].children + [source])];
      if replaced.Some? {
        nodes := nodes[replaced.value := nodes[replaced.value].(parent := None, unlinked := true)];
      }
      SplicedIsMoved(old(nodes), d, source, e, newName, replaced);
    }
  }

  predicate IsFile(nodes: Nodes, n: nat) {
    n in nodes && !nodes[n].isDir
  }

  predicate IsDots(name: string) {
    name == "." || name == ".."
  }

  /** Moving the inode into that directory would put it under itself. */
  ghost predicate UnderItself(nodes: Nodes, rank: map<nat, nat>, source: nat, e: nat)
    requires Ranked(nodes, rank) && e in nodes
  {
    source in nodes && nodes[source].isDir && Below(nodes, rank, source, e)
  }

  /** A file has nothing under it, which is why only directories are checked. */
  lemma {:induction false} LeafNotAbove(nodes: Nodes, rank: map<nat, nat>, source: nat, e: nat)
    requires Ranked(nodes, rank) && e in nodes && source in nodes
    ensures !nodes[source].isDir && nodes[e].isDir ==> !Below(nodes, rank, source, e)
  {
    assert NodeOk(nodes, rank, source);
    if !nodes[source].isDir && nodes[e].isDir { AloneAbove(nodes, rank, source, e); }
  }

  /** `rename` in the order the code writes the fields. */
  function Spliced(nodes: Nodes, d: nat, source: nat, e: nat, newName: string, replaced: Option<nat>): Nodes
    requires d in nodes && e in nodes && source in nodes && source != e
    requires replaced.Some? ==> replaced.value in nodes
  {
    var n1 := if replaced.Some? then nodes[e := nodes[e].(children := Without(nodes[e].children, replaced.value))]
      else nodes;
    var n2 := n1[d := n1[d].(children := Without(n1[d].children, source))];
    var n3 := n2[source := n2[source].(name := newName, parent := Some(e))];
    var n4 := n3[e := n3[e].(children := n3[e].children + [source])];
    if replaced.Some? then n4[replaced.value := n4[replaced.value].(parent := None, unlinked := true)] else n4
  }

  lemma SplicedIsMoved(nodes: Nodes, d: nat, source: nat, e: nat, newName: string, replaced: Option<nat>)
    requires d in nodes && e in nodes && source in nodes && source != e && source != d && !nodes[source].unlinked
    requires replaced.Some? ==> replaced.value in nodes && replaced.value != e && replaced.value != source
    ensures Spliced(nodes, d, source, e, newName, replaced) == Moved(nodes, d, source, e, newName, replaced)
  {
    var spliced, moved := Spliced(nodes, d, source, e, newName, replaced),
      Moved(nodes, d, source, e, newName, replaced);
    assert spliced.Keys == nodes.Keys && moved.Keys == nodes.Keys;
    forall n | n in nodes ensures spliced[n] == moved[n] {
      if n == source { } else if Some(n) == replaced { } else if n == e { } else { }
    }
  }

  lemma AddedKept(nodes: Nodes, d: nat, c: nat, name: string, asDir: bool)
    requires d in nodes && c !in nodes
    ensures Added(nodes, d, c, name, asDir).Keys == nodes.Keys + {c}
    ensures Kept(nodes, Added(nodes, d, c, name, asDir) - {c}, None, None)
    ensures Added(nodes, d, c, name, asDir)[c] == Node(name, Some(d), asDir, [], nodes[d].fs, false)
  {
  }
}
