/** Path resolution across mounts, and the path of an inode, which goes the other way. */
module Namespace {
  import opened Base
  import opened Tree
  import opened Paths

  /** The root mount covers nothing. */
  datatype Mount = Mount(covered: Option<nat>, root: nat)

  datatype World = World(nodes: Nodes, mounts: seq<Mount>, root: Option<nat>)

  // --- mounts

  function FollowFrom(mounts: seq<Mount>, n: nat): nat {
    if mounts == [] then n
    else if mounts[0].covered == Some(n) then mounts[0].root
    else FollowFrom(mounts[1..], n)
  }

  /** `follow_mount`. */
  method FollowMount(mounts: seq<Mount>, n: nat) returns (r: nat)
    ensures r == FollowFrom(mounts, n)
  {
    for i := 0 to |mounts|
      invariant FollowFrom(mounts, n) == FollowFrom(mounts[i..], n)
    {
      if mounts[i].covered == Some(n) { return mounts[i].root; }
    }
    return n;
  }

  function MountPointFrom(mounts: seq<Mount>, root: nat): (r: Option<nat>)
    ensures r.Some? ==> exists i :: 0 <= i < |mounts| && mounts[i] == Mount(r, root)
    ensures r.None? ==> forall i :: 0 <= i < |mounts| && mounts[i].root == root ==> mounts[i].covered.None?
  {
    if mounts == [] then None
    else if mounts[0].covered.Some? && mounts[0].root == root then mounts[0].covered
    else
      var r := MountPointFrom(mounts[1..], root);
      assert r.Some? ==> exists i ::
        && 0 <= i < |mounts[1..]| && mounts[1..][i] == Mount(r, root)
        && mounts[i + 1] == Mount(r, root);
      assert forall i :: 1 <= i < |mounts| ==> mounts[i] == mounts[1..][i - 1];
      r
  }

  /** `mount_point_of`. */
  method MountPointOf(mounts: seq<Mount>, root: nat) returns (r: Option<nat>)
    ensures r == MountPointFrom(mounts, root)
  {
    for i := 0 to |mounts|
      invariant MountPointFrom(mounts, root) == MountPointFrom(mounts[i..], root)
    {
      if mounts[i].covered.Some? && mounts[i].root == root { return mounts[i].covered; }
    }
    return None;
  }

  lemma {:induction false} FollowFound(mounts: seq<Mount>, n: nat)
    ensures FollowFrom(mounts, n) == n ||
      exists i :: 0 <= i < |mounts| && mounts[i] == Mount(Some(n), FollowFrom(mounts, n))
    ensures (forall i :: 0 <= i < |mounts| ==> mounts[i].covered != Some(n)) ==> FollowFrom(mounts, n) == n
  {
    if mounts != [] && mounts[0].covered != Some(n) {
      FollowFound(mounts[1..], n);
      if FollowFrom(mounts, n) != n {
        var i :| 0 <= i < |mounts[1..]| && mounts[1..][i] == Mount(Some(n), FollowFrom(mounts, n));
        assert mounts[i + 1] == Mount(Some(n), FollowFrom(mounts, n));
      }
      assert forall i :: 0 <= i < |mounts| - 1 ==> mounts[1..][i] == mounts[i + 1];
    } else if mounts != [] {
      assert mounts[0] == Mount(Some(n), FollowFrom(mounts, n));
    }
  }

  // --- resolution

  /** One component of a path. */
  ghost function StepInto(w: World, current: nat, name: string): Result<nat> {
    if name == "." then Ok(current)
    else if current !in w.nodes then Err(ENOENT)
    else if name == ".." then Ok(if w.nodes[current].parent.Some? then w.nodes[current].parent.value else current)
    else if !w.nodes[current].isDir then Err(ENOTDIR)
    else
      match Binding(w.nodes, current, name)
      case Some(c) => Ok(FollowFrom(w.mounts, c))
      case None => Err(ENOENT)
  }

  ghost function StepsInto(w: World, current: nat, names: seq<string>): Result<nat>
    decreases |names|
  {
    if names == [] then Ok(current)
    else
      match StepInto(w, current, names[0])
      case Ok(next) => StepsInto(w, next, names[1..])
      case Err(e) => Err(e)
  }

  ghost function Resolved(w: World, path: string, base: Option<nat>): Result<nat> {
    if w.root.None? then Err(ENOENT)
    else
      var start := if (path != [] && path[0] == '/') || base.None? then w.root.value else base.value;
      StepsInto(w, FollowFrom(w.mounts, start), Components(path))
  }

  /** The links of the world lead to inodes that exist. */
  ghost predicate Linked(w: World) {
    && Forest(w.nodes)
    && (w.root.Some? ==> w.root.value in w.nodes)
    && (forall i :: 0 <= i < |w.mounts| ==>
          w.mounts[i].root in w.nodes && (w.mounts[i].covered.Some? ==> w.mounts[i].covered.value in w.nodes))
  }

  lemma StepLinked(w: World, current: nat, name: string)
    requires Linked(w) && current in w.nodes && StepInto(w, current, name).Ok?
    ensures StepInto(w, current, name).value in w.nodes
  {
    var rank :| Ranked(w.nodes, rank);
    assert NodeOk(w.nodes, rank, current);
    if name != "." && name != ".." {
      FollowFound(w.mounts, Binding(w.nodes, current, name).value);
    }
  }

  method LookupIn(nodes: Nodes, d: nat, name: string) returns (r: Option<nat>)
    requires d in nodes && forall c :: c in nodes[d].children ==> c in nodes
    ensures r == Binding(nodes, d, name)
  {
    var children := nodes[d].children;
    for i := 0 to |children|
      invariant Find(nodes, children, name) == Find(nodes, children[i..], name)
    {
      if nodes[children[i]].name == name { return Some(children[i]); }
    }
    return None;
  }

  /** `resolve`. */
  method Resolve(w: World, path: string, base: Option<nat>) returns (r: Result<nat>)
    requires Linked(w) && (base.Some? ==> base.value in w.nodes)
    ensures r == Resolved(w, path, base)
    ensures r.Ok? ==> r.value in w.nodes
  {
    if w.root.None? { return Err(ENOENT); }
    var start := if (path != [] && path[0] == '/') || base.None? then w.root.value else base.value;
    var current := FollowMount(w.mounts, start);
    FollowFound(w.mounts, start);
    var cursor := 0;
    ghost var whole := StepsInto(w, current, Components(path));
    assert path[0..] == path;
    while true
      invariant cursor <= |path| && current in w.nodes
      invariant whole == StepsInto(w, current, Components(path[cursor..]))
      decreases |path| - cursor
    {
      var found, name, next := NextComponent(path, cursor);
      if !found { return Ok(current); }
      ghost var here := current;
      if StepInto(w, current, name).Ok? { StepLinked(w, current, name); }
      if name == "." {
      } else if name == ".." {
        if w.nodes[current].parent.Some? { current := w.nodes[current].parent.value; }
      } else {
        if !w.nodes[current].isDir { return Err(ENOTDIR); }
        ghost var rank :| Ranked(w.nodes, rank);
        assert NodeOk(w.nodes, rank, current);
        var child := LookupIn(w.nodes, current, name);
        if child.None? { return Err(ENOENT); }
        current := FollowMount(w.mounts, child.value);
      }
      assert StepInto(w, here, name) == Ok(current);
      cursor := next;
    }
  }

  // --- what can be seen from the root

  ghost predicate AllProper(names: seq<string>) {
    forall i :: 0 <= i < |names| ==> Proper(names[i])
  }

  ghost predicate Reaches(w: World, names: seq<string>, n: nat) {
    w.root.Some? && AllProper(names) && StepsInto(w, w.root.value, names) == Ok(n)
  }

  /** Some plain path from the root leads there. */
  ghost predicate Visible(w: World, n: nat) {
    exists names :: Reaches(w, names, n)
  }

  /** Filesystem roots have no parent, and neither they nor the global root are mounted over. */
  ghost predicate Sound(w: World) {
    && Linked(w) && w.root.Some? && w.nodes[w.root.value].parent.None?
    && (forall i :: 0 <= i < |w.mounts| ==> w.nodes[w.mounts[i].root].parent.None? && w.mounts[i].covered != w.root)
    && (forall i, j :: 0 <= i < |w.mounts| && 0 <= j < |w.mounts| ==> w.mounts[i].covered != Some(w.mounts[j].root))
  }

  /** The directory a visible filesystem is first mounted on is itself in sight. */
  ghost predicate InSight(w: World, r: nat) {
    var c := MountPointFrom(w.mounts, r);
    && c.Some? && c.value in w.nodes && w.nodes[c.value].parent.Some? && Visible(w, w.nodes[c.value].parent.value)
    && Proper(w.nodes[c.value].name) && FollowFrom(w.mounts, c.value) == r
  }

  ghost predicate Open(w: World) {
    forall r :: Visible(w, r) && Some(r) != w.root && r in w.nodes && w.nodes[r].parent.None? ==> InSight(w, r)
  }

  lemma {:induction false} StepsSplit(w: World, current: nat, names: seq<string>, more: seq<string>)
    ensures StepsInto(w, current, names + more) ==
      match StepsInto(w, current, names) case Ok(next) => StepsInto(w, next, more) case Err(e) => Err(e)
    decreases |names|
  {
    if names == [] {
      assert names + more == more;
    } else {
      assert (names + more)[1..] == names[1..] + more;
      if StepInto(w, current, names[0]).Ok? {
        StepsSplit(w, StepInto(w, current, names[0]).value, names[1..], more);
      }
    }
  }

  lemma RootVisible(w: World)
    requires w.root.Some?
    ensures Visible(w, w.root.value)
  {
    assert Reaches(w, [], w.root.value);
  }

  lemma VisibleDown(w: World, p: nat, name: string, n: nat)
    requires Visible(w, p) && Proper(name) && StepInto(w, p, name) == Ok(n)
    ensures Visible(w, n)
  {
    var names :| Reaches(w, names, p);
    StepsSplit(w, w.root.value, names, [name]);
    assert Reaches(w, names + [name], n);
  }

  /** The last step of a path: the directory before, and the name. */
  lemma LastStep(w: World, n: nat) returns (p: nat, name: string)
    requires Visible(w, n) && Some(n) != w.root
    ensures Visible(w, p) && Proper(name) && StepInto(w, p, name) == Ok(n)
  {
    var names :| Reaches(w, names, n);
    var before := names[..|names| - 1];
    name := names[|names| - 1];
    assert names == before + [name];
    StepsSplit(w, w.root.value, before, [name]);
    p := StepsInto(w, w.root.value, before).value;
    assert Reaches(w, before, p);
  }

  lemma VisibleUncovered(w: World, n: nat)
    requires Sound(w) && Visible(w, n)
    ensures FollowFrom(w.mounts, n) == n
  {
    FollowFound(w.mounts, n);
    if Some(n) != w.root {
      var p, name := LastStep(w, n);
      FollowFound(w.mounts, Binding(w.nodes, p, name).value);
    }
  }

  /** A visible inode with a parent is its parent's child under its own name, and the parent is visible. */
  lemma VisibleUp(w: World, n: nat)
    requires Sound(w) && Visible(w, n) && n in w.nodes && w.nodes[n].parent.Some?
    ensures var p := w.nodes[n].parent.value;
      Visible(w, p) && Proper(w.nodes[n].name) && StepInto(w, p, w.nodes[n].name) == Ok(n)
  {
    var rank :| Ranked(w.nodes, rank);
    var p, name := LastStep(w, n);
    var c := Binding(w.nodes, p, name).value;
    FollowFound(w.mounts, c);
    BindingIff(w.nodes, rank, p, name, c);
    assert NodeOk(w.nodes, rank, p);
  }

  /** Crossing back over a mount. */
  lemma InSightUp(w: World, r: nat)
    requires Linked(w) && InSight(w, r)
    ensures var c := MountPointFrom(w.mounts, r).value;
      StepInto(w, w.nodes[c].parent.value, w.nodes[c].name) == Ok(r)
  {
    var c := MountPointFrom(w.mounts, r).value;
    var rank :| Ranked(w.nodes, rank);
    assert NodeOk(w.nodes, rank, c);
    var p := w.nodes[c].parent.value;
    assert NodeOk(w.nodes, rank, p);
    BindingIff(w.nodes, rank, p, w.nodes[c].name, c);
  }

  /** Mounting each filesystem at most once keeps every mount point in sight. */
  lemma OnceMountedIsOpen(w: World)
    requires Sound(w)
    requires forall i, j :: 0 <= i < |w.mounts| && 0 <= j < |w.mounts| && w.mounts[i].root == w.mounts[j].root ==>
      w.mounts[i] == w.mounts[j]
    ensures Open(w)
  {
    forall r | Visible(w, r) && Some(r) != w.root && r in w.nodes && w.nodes[r].parent.None? ensures InSight(w, r) {
      var rank :| Ranked(w.nodes, rank);
      var p, name := LastStep(w, r);
      var c := Binding(w.nodes, p, name).value;
      FollowFound(w.mounts, c);
      BindingIff(w.nodes, rank, p, name, c);
      assert NodeOk(w.nodes, rank, p);
      var i :| 0 <= i < |w.mounts| && w.mounts[i] == Mount(Some(c), r);
    }
  }

  /** A mount point in a directory that is itself mounted over is out of sight. */
  lemma HiddenMountPoint(w: World, r: nat, c: nat, p: nat)
    requires Sound(w) && MountPointFrom(w.mounts, r) == Some(c) && c in w.nodes && w.nodes[c].parent == Some(p)
    requires FollowFrom(w.mounts, p) != p
    ensures !InSight(w, r)
  {
    if InSight(w, r) { VisibleUncovered(w, p); }
  }

  const TWICE_NODES: Nodes := map[
    0 := Node("", None, true, [1, 2], 0, false),
    1 := Node("a", Some(0), true, [3], 0, false),
    2 := Node("b", Some(0), true, [], 0, false),
    3 := Node("x", Some(1), true, [], 0, false),
    4 := Node("", None, true, [], 1, false),
    5 := Node("", None, true, [], 2, false)]

  /** 4 is mounted on `/a/x`, then 5 over `/a`, then 4 again on `/b`. */
  const TWICE := World(TWICE_NODES, [Mount(None, 0), Mount(Some(3), 4), Mount(Some(1), 5), Mount(Some(2), 4)], Some(0))

  const TWICE_RANK: map<nat, nat> := map[0 := 0, 1 := 1, 2 := 1, 3 := 2, 4 := 0, 5 := 0]

  lemma TwiceTop()
    ensures NodeOk(TWICE_NODES, TWICE_RANK, 0)
  {
    assert Differ(TWICE_NODES, [1, 2], 0, 1);
  }

  lemma TwiceDown(n: nat)
    requires n in TWICE_NODES && n != 0
    ensures NodeOk(TWICE_NODES, TWICE_RANK, n)
  {
  }

  lemma TwiceMount(i: nat)
    requires i < |TWICE.mounts|
    ensures var m := TWICE.mounts[i];
      (m.root == 0 || m.root == 4 || m.root == 5) && m.covered != Some(0) && m.covered != Some(4) &&
        m.covered != Some(5) &&
      m.root in TWICE_NODES && (m.covered.Some? ==> m.covered.value in TWICE_NODES) && TWICE_NODES[m.root].parent.None?
  {
  }

  lemma TwiceForest()
    ensures Forest(TWICE_NODES)
  {
    forall n | n in TWICE_NODES ensures NodeOk(TWICE_NODES, TWICE_RANK, n) {
      if n == 0 { TwiceTop(); } else { TwiceDown(n); }
    }
    assert Ranked(TWICE_NODES, TWICE_RANK);
  }

  lemma TwiceSound()
    ensures Sound(TWICE)
  {
    TwiceForest();
    var mounts := TWICE.mounts;
    forall i, j | 0 <= i < |mounts| && 0 <= j < |mounts| ensures mounts[i].covered != Some(mounts[j].root) {
      TwiceMount(i);
      TwiceMount(j);
    }
    forall i | 0 <= i < |mounts| ensures mounts[i].root in TWICE_NODES && TWICE_NODES[mounts[i].root].parent.None? &&
      mounts[i].covered != Some(0) && (mounts[i].covered.Some? ==> mounts[i].covered.value in TWICE_NODES)
    {
      TwiceMount(i);
    }
  }

  lemma TwiceNames()
    ensures StepInto(TWICE, 0, "b") == Ok(4) && StepInto(TWICE, 0, "a") == Ok(5) &&
      StepInto(TWICE, 5, "x") == Err(ENOENT)
  {
    assert TWICE_NODES[0].children[1..] == [2];
    assert Find(TWICE_NODES, TWICE_NODES[0].children, "b") == Some(2);
  }

  /** Whatever resolution returns, starting in sight, is in sight. */
  lemma ResolvedVisible(w: World, path: string, base: Option<nat>)
    requires Sound(w) && (base.Some? ==> Visible(w, base.value)) && Resolved(w, path, base).Ok?
    ensures Visible(w, Resolved(w, path, base).value)
  {
    RootVisible(w);
    VisibleUncovered(w, w.root.value);
    if base.Some? { VisibleUncovered(w, base.value); }
    var start := if (path != [] && path[0] == '/') || base.None? then w.root.value else base.value;
    ComponentsPlain(path);
    StepsVisible(w, start, Components(path));
  }

  /** A component as resolution sees it: never empty, never with a slash, never too long. */
  ghost predicate Plain(name: string) {
    Proper(name) || name == "." || name == ".."
  }

  lemma {:induction false} ComponentsPlain(path: string)
    ensures forall i :: 0 <= i < |Components(path)| ==> Plain(Components(path)[i])
    decreases |path|
  {
    var rest := SkipSlashes(path);
    if rest != [] {
      ComponentsPlain(rest[NameLength(rest)..]);
    }
  }

  lemma {:induction false} StepsVisible(w: World, current: nat, names: seq<string>)
    requires Sound(w) && Visible(w, current) && StepsInto(w, current, names).Ok?
    requires forall i :: 0 <= i < |names| ==> Plain(names[i])
    ensures Visible(w, StepsInto(w, current, names).value)
    decreases |names|
  {
    if names != [] {
      var next := StepInto(w, current, names[0]).value;
      if names[0] == ".." {
        if w.nodes[current].parent.Some? { VisibleUp(w, current); }
      } else if names[0] != "." {
        VisibleDown(w, current, names[0], next);
      }
      StepsVisible(w, next, names[1..]);
    }
  }

  // --- the path of an inode

  /** What `read_directory` calls entry `index`. */
  function EntryName(nodes: Nodes, d: nat, index: nat): Option<string>
    requires d in nodes && forall c :: c in nodes[d].children ==> c in nodes
  {
    if !nodes[d].isDir then None
    else if index == 0 then Some(".")
    else if index == 1 then Some("..")
    else if index - 2 < |nodes[d].children| then Some(Cut(nodes[nodes[d].children[index - 2]].name))
    else None
  }

  /** The name a parent has for its child, found by enumerating; empty when there is none. */
  method NameIn(nodes: Nodes, d: nat, n: nat) returns (name: string)
    requires Forest(nodes) && d in nodes && n in nodes
    ensures name == if n in nodes[d].children then nodes[n].name else ""
  {
    ghost var rank :| Ranked(nodes, rank);
    assert NodeOk(nodes, rank, d);
    var index := 0;
    while true
      invariant forall k :: 0 <= k < |nodes[d].children| && k + 2 < index ==> nodes[d].children[k] != n
      decreases |nodes[d].children| + 2 - index
    {
      var entry := EntryName(nodes, d, index);
      if entry.None? {
        assert nodes[d].isDir ==> index >= |nodes[d].children| + 2;
        assert n !in nodes[d].children;
        return "";
      }
      var child := LookupIn(nodes, d, entry.value);
      if child == Some(n) { return entry.value; }
      if index >= 2 {
        var c := nodes[d].children[index - 2];
        assert NodeOk(nodes, rank, c);
        BindingIff(nodes, rank, d, nodes[c].name, c);
      }
      index := index + 1;
    }
  }

  /** One turn of the walk up: stuck, without a name, or a name and the directory that has it. */
  datatype Turn = Stuck(at: nat) | Nameless | Up(name: string, parent: nat)

  ghost predicate Retraces(w: World, current: nat, turn: Turn) {
    turn.Up? && Visible(w, turn.parent) && Proper(turn.name) && StepInto(w, turn.parent, turn.name) == Ok(current)
  }

  /** The name a directory has for an inode. */
  function NameOf(nodes: Nodes, d: nat, n: nat): string
    requires d in nodes && n in nodes
  {
    if n in nodes[d].children then nodes[n].name else ""
  }

  lemma ParentLinked(w: World, n: nat)
    requires Linked(w) && n in w.nodes && w.nodes[n].parent.Some?
    ensures w.nodes[n].parent.value in w.nodes && n in w.nodes[w.nodes[n].parent.value].children
    ensures |w.nodes[n].name| < FILENAME_MAX
  {
    var rank :| Ranked(w.nodes, rank);
    assert NodeOk(w.nodes, rank, n);
  }

  /** The way up from an inode, across the first mount of a filesystem's root. */
  ghost function TurnOf(w: World, current: nat): (turn: Turn)
    requires Linked(w) && current in w.nodes
    ensures turn.Up? ==> turn.parent in w.nodes && turn.name != ""
  {
    var covered := MountPointFrom(w.mounts, current);
    if w.nodes[current].parent.None? && covered.None? then Stuck(current)
    else
      var at := if w.nodes[current].parent.None? then covered.value else current;
      if w.nodes[current].parent.None? && Some(at) == w.root then Stuck(at)
      else if w.nodes[at].parent.None? then Stuck(at)
      else
        ParentLinked(w, at);
        var p := w.nodes[at].parent.value;
        if NameOf(w.nodes, p, at) == "" then Nameless else Up(NameOf(w.nodes, p, at), p)
  }

  method TurnUp(w: World, current: nat) returns (turn: Turn)
    requires Linked(w) && current in w.nodes && Some(current) != w.root
    ensures turn == TurnOf(w, current)
    ensures turn.Up? ==> turn.parent in w.nodes && 0 < |turn.name| < FILENAME_MAX
    ensures Sound(w) && Open(w) && Visible(w, current) ==> Retraces(w, current, turn)
  {
    ghost var rank :| Ranked(w.nodes, rank);
    assert NodeOk(w.nodes, rank, current);
    var at := current;
    var parent := w.nodes[current].parent;
    if parent.None? {
      var covered := MountPointOf(w.mounts, current);
      if covered.None? { return Stuck(current); }
      at := covered.value;
      if Some(at) == w.root { return Stuck(at); }
      parent := w.nodes[at].parent;
      if parent.None? { return Stuck(at); }
      assert InSight(w, current) ==> StepInto(w, parent.value, w.nodes[at].name) == Ok(current) by {
        if InSight(w, current) { InSightUp(w, current); }
      }
    } else {
      assert Sound(w) && Visible(w, current) ==> Retraces(w, current, Up(w.nodes[current].name, parent.value)) by {
        if Sound(w) && Visible(w, current) { VisibleUp(w, current); }
      }
    }
    assert NodeOk(w.nodes, rank, at);
    var name := NameIn(w.nodes, parent.value, at);
    if name == "" { return Nameless; }
    return Up(name, parent.value);
  }

  /** Going down `suffix` from `current` leads to `n`, whenever `n` is in sight. */
  ghost predicate Tracing(w: World, n: nat, current: nat, suffix: seq<string>) {
    Sound(w) && Open(w) && Visible(w, n) ==>
      Visible(w, current) && AllProper(suffix) && StepsInto(w, current, suffix) == Ok(n)
  }

  lemma TracingUp(w: World, n: nat, current: nat, suffix: seq<string>, turn: Turn)
    requires Tracing(w, n, current, suffix) && turn.Up?
    requires Sound(w) && Open(w) && Visible(w, current) ==> Retraces(w, current, turn)
    ensures Tracing(w, n, turn.parent, [turn.name] + suffix)
  {
  }

  lemma TracingDone(w: World, n: nat, suffix: seq<string>, base: Option<nat>)
    requires Sound(w) && AllProper(suffix) && StepsInto(w, w.root.value, suffix) == Ok(n) && suffix != []
    ensures Resolved(w, Render(suffix), base) == Ok(n)
  {
    ComponentsOfRender(suffix);
    RootVisible(w);
    VisibleUncovered(w, w.root.value);
  }

  /** Some plain path to the inode has at least that many characters; the root's path is a lone slash. */
  ghost predicate TooLong(w: World, n: nat, limit: nat) {
    exists names :: Reaches(w, names, n) && (if names == [] then 1 else |Render(names)|) >= limit
  }

  lemma {:induction false} RenderConcat(names: seq<string>, more: seq<string>)
    ensures Render(names + more) == Render(names) + Render(more)
  {
    if names == [] {
      assert names + more == more;
    } else {
      assert (names + more)[1..] == names[1..] + more;
      RenderConcat(names[1..], more);
    }
  }

  lemma TracingTooLong(w: World, n: nat, current: nat, suffix: seq<string>, limit: nat)
    requires Sound(w) && Visible(w, current) && AllProper(suffix) && StepsInto(w, current, suffix) == Ok(n)
    requires suffix != [] && |Render(suffix)| >= limit
    ensures TooLong(w, n, limit)
  {
    var names :| Reaches(w, names, current);
    StepsSplit(w, w.root.value, names, suffix);
    RenderConcat(names, suffix);
    assert Reaches(w, names + suffix, n);
  }

  lemma RootPath(w: World, base: Option<nat>)
    requires Sound(w)
    ensures Resolved(w, "/", base) == Ok(w.root.value)
  {
    RootVisible(w);
    VisibleUncovered(w, w.root.value);
  }

  /** Puts a slash and the name in front of what is there. */
  method PutName(scratch: array<char>, position: nat, name: string) returns (next: nat)
    requires |name| + 1 <= position < scratch.Length
    modifies scratch
    ensures next == position - |name| - 1
    ensures scratch[next..scratch.Length - 1] == "/" + name + old(scratch[position..scratch.Length - 1])
  {
    next := position - |name|;
    forall k | 0 <= k < |name| { scratch[next + k] := name[k]; }
    next := next - 1;
    scratch[next] := '/';
  }

  // --- exactly when the path leads back

  /** What is still to come on the way up, and what is there already, make the whole. */
  ghost predicate Climbing(w: World, n: nat, current: nat, suffix: seq<string>, position: nat)
    requires Linked(w) && n in w.nodes && current in w.nodes
  {
    Climb(w, n, PATH_MAX - 1) ==
      match Climb(w, current, position) case Ok(names) => Ok(names + suffix) case Err(e) => Err(e)
  }

  lemma ClimbingStart(w: World, n: nat)
    requires Linked(w) && n in w.nodes
    ensures Climbing(w, n, n, [], PATH_MAX - 1)
  {
    if Climb(w, n, PATH_MAX - 1).Ok? {
      assert Climb(w, n, PATH_MAX - 1).value + [] == Climb(w, n, PATH_MAX - 1).value;
    }
  }

  /** Where the way up stops, so does the path. */
  lemma ClimbingEnds(w: World, n: nat, current: nat, suffix: seq<string>, position: nat)
    requires Linked(w) && n in w.nodes && current in w.nodes && Climbing(w, n, current, suffix, position)
    ensures Some(current) == w.root ==> Climb(w, n, PATH_MAX - 1) == Ok(suffix)
    ensures Some(current) != w.root && TurnOf(w, current).Nameless? ==> Climb(w, n, PATH_MAX - 1) == Err(ENOENT)
    ensures Some(current) != w.root && TurnOf(w, current).Stuck? ==>
      Climb(w, n, PATH_MAX - 1) == if Some(TurnOf(w, current).at) == w.root then Ok(suffix) else Err(ENOENT)
  {
    assert [] + suffix == suffix;
  }

  lemma ClimbOnce(w: World, current: nat, position: nat)
    requires Linked(w) && current in w.nodes && Some(current) != w.root && TurnOf(w, current).Up?
    ensures var turn := TurnOf(w, current);
      Climb(w, current, position) ==
        if position < |turn.name| + 1 then Err(ENAMETOOLONG)
        else
          match Climb(w, turn.parent, position - |turn.name| - 1)
          case Ok(names) => Ok(names + [turn.name])
          case Err(e) => Err(e)
  {
  }

  lemma ClimbingUp(w: World, n: nat, current: nat, suffix: seq<string>, position: nat, turn: Turn)
    requires Linked(w) && n in w.nodes && current in w.nodes && Climbing(w, n, current, suffix, position)
    requires Some(current) != w.root && turn == TurnOf(w, current) && turn.Up?
    ensures position < |turn.name| + 1 ==> Climb(w, n, PATH_MAX - 1) == Err(ENAMETOOLONG)
    ensures position >= |turn.name| + 1 ==>
      Climbing(w, n, turn.parent, [turn.name] + suffix, position - |turn.name| - 1)
  {
    ClimbOnce(w, current, position);
    if position >= |turn.name| + 1 && Climb(w, turn.parent, position - |turn.name| - 1).Ok? {
      var names := Climb(w, turn.parent, position - |turn.name| - 1).value;
      assert names + [turn.name] + suffix == names + ([turn.name] + suffix);
    }
  }

  /** The names collected on the way up, with room for that many characters. */
  ghost function Climb(w: World, current: nat, room: nat): Result<seq<string>>
    requires Linked(w) && current in w.nodes
    decreases room
  {
    if Some(current) == w.root then Ok([])
    else
      match TurnOf(w, current)
      case Stuck(at) => if Some(at) == w.root then Ok([]) else Err(ENOENT)
      case Nameless => Err(ENOENT)
      case Up(name, parent) =>
        if room < |name| + 1 then Err(ENAMETOOLONG)
        else
          match Climb(w, parent, room - |name| - 1)
          case Ok(names) => Ok(names + [name])
          case Err(e) => Err(e)
  }

  /** What `absolute_path_of` answers. */
  ghost function PathOf(w: World, n: nat, capacity: nat): Result<string>
    requires Linked(w) && n in w.nodes
  {
    if Some(n) == w.root then (if capacity < 2 then Err(ERANGE) else Ok("/"))
    else
      match Climb(w, n, PATH_MAX - 1)
      case Err(e) => Err(e)
      case Ok(names) => if |Render(names)| + 1 > capacity then Err(ERANGE) else Ok(Render(names))
  }

  /** The answer, if there is one, names the inode. */
  ghost predicate LeadsBack(w: World, from: nat, n: nat)
    requires Linked(w) && from in w.nodes
  {
    var path := PathOf(w, from, PATH_MAX);
    path.Ok? ==> forall base :: Resolved(w, path.value, base) == Ok(n)
  }

  /** A filesystem's root in sight, other than the global one. */
  ghost predicate MountedRoot(w: World, r: nat) {
    r in w.nodes && w.nodes[r].parent.None? && Some(r) != w.root && Visible(w, r)
  }

  /** The path of the place where a filesystem was first mounted leads to its root. */
  ghost predicate FirstMountLeads(w: World, r: nat)
    requires Linked(w)
  {
    var c := MountPointFrom(w.mounts, r);
    c.Some? && c.value in w.nodes ==> LeadsBack(w, c.value, r)
  }

  lemma {:induction false} ClimbLength(w: World, n: nat, room: nat)
    requires Linked(w) && n in w.nodes && Climb(w, n, room).Ok?
    ensures |Render(Climb(w, n, room).value)| <= room
    decreases room
  {
    if Some(n) != w.root && TurnOf(w, n).Up? {
      var turn := TurnOf(w, n);
      ClimbLength(w, turn.parent, room - |turn.name| - 1);
      RenderConcat(Climb(w, turn.parent, room - |turn.name| - 1).value, [turn.name]);
      assert Render([turn.name]) == "/" + turn.name;
    }
  }

  /** More room changes nothing once there is enough. */
  lemma {:induction false} ClimbRoom(w: World, n: nat, room: nat, more: nat)
    requires Linked(w) && n in w.nodes && Climb(w, n, room).Ok? && room <= more
    ensures Climb(w, n, more) == Climb(w, n, room)
    decreases room
  {
    if Some(n) != w.root && TurnOf(w, n).Up? {
      var turn := TurnOf(w, n);
      ClimbRoom(w, turn.parent, room - |turn.name| - 1, more - |turn.name| - 1);
    }
  }

  /** A root's path is that of its first mount point. */
  lemma CrossesOver(w: World, r: nat, room: nat)
    requires Sound(w) && r in w.nodes && w.nodes[r].parent.None? && Some(r) != w.root
    ensures var c := MountPointFrom(w.mounts, r);
      c.None? ||
        (c.value in w.nodes && (w.nodes[c.value].parent.Some? ==> Climb(w, r, room) == Climb(w, c.value, room)))
    ensures Climb(w, r, room).Ok? ==>
      MountPointFrom(w.mounts, r).Some? && w.nodes[MountPointFrom(w.mounts, r).value].parent.Some?
  {
    var c := MountPointFrom(w.mounts, r);
    if c.Some? {
      var i :| 0 <= i < |w.mounts| && w.mounts[i] == Mount(c, r);
      if w.nodes[c.value].parent.Some? { assert TurnOf(w, c.value) == TurnOf(w, r); }
    }
  }

  lemma SlashName(path: string, name: string)
    requires Proper(name)
    ensures Components(path + ("/" + name)) == Components(path) + [name]
  {
    ComponentsConcat(path, "/" + name);
    ComponentsOfRender([name]);
    assert Render([name]) == "/" + name;
  }

  /** Below a root whose path leads back, every inode's does. */
  lemma {:induction false} ClimbsBack(w: World, n: nat, room: nat)
    requires Sound(w) && n in w.nodes && Visible(w, n) && Climb(w, n, room).Ok? && room < PATH_MAX
    requires forall r {:trigger MountedRoot(w, r)} :: MountedRoot(w, r) ==> FirstMountLeads(w, r)
    ensures StepsInto(w, w.root.value, Components(Render(Climb(w, n, room).value))) == Ok(n)
    decreases room
  {
    if Some(n) != w.root {
      if w.nodes[n].parent.None? {
        assert MountedRoot(w, n);
        RootClimbsBack(w, n, room);
      } else {
        VisibleUp(w, n);
        var name, p := w.nodes[n].name, w.nodes[n].parent.value;
        ClimbsBack(w, p, room - |name| - 1);
        StepsBack(w, n, name, p, Climb(w, p, room - |name| - 1).value);
      }
    }
  }

  /** If the path of a directory leads to it, that with a name in it leads to what has the name. */
  lemma StepsBack(w: World, n: nat, name: string, p: nat, above: seq<string>)
    requires Sound(w) && Proper(name) && StepInto(w, p, name) == Ok(n)
    requires StepsInto(w, w.root.value, Components(Render(above))) == Ok(p)
    ensures StepsInto(w, w.root.value, Components(Render(above + [name]))) == Ok(n)
  {
    RenderConcat(above, [name]);
    assert Render([name]) == "/" + name;
    SlashName(Render(above), name);
    StepsSplit(w, w.root.value, Components(Render(above)), [name]);
  }

  lemma RootClimbsBack(w: World, n: nat, room: nat)
    requires Sound(w) && MountedRoot(w, n) && FirstMountLeads(w, n) && Climb(w, n, room).Ok? && room < PATH_MAX
    ensures StepsInto(w, w.root.value, Components(Render(Climb(w, n, room).value))) == Ok(n)
  {
    CrossesOver(w, n, room);
    var c := MountPointFrom(w.mounts, n).value;
    ClimbRoom(w, c, room, PATH_MAX - 1);
    ClimbLength(w, c, room);
    MountNotRoot(w, n, c);
    RootVisible(w);
    VisibleUncovered(w, w.root.value);
    assert Resolved(w, Render(Climb(w, n, room).value), None) == Ok(n);
  }

  lemma MountNotRoot(w: World, r: nat, c: nat)
    requires Sound(w) && MountPointFrom(w.mounts, r) == Some(c)
    ensures Some(c) != w.root && c in w.nodes
  {
    var i :| 0 <= i < |w.mounts| && w.mounts[i] == Mount(Some(c), r);
  }

  /** A path with at least one name starts with a slash. */
  lemma FromRoot(w: World, n: nat, names: seq<string>, base: Option<nat>)
    requires Sound(w) && StepsInto(w, w.root.value, Components(Render(names))) == Ok(n) && names != []
    ensures Resolved(w, Render(names), base) == Ok(n)
  {
    RootVisible(w);
    VisibleUncovered(w, w.root.value);
  }

  lemma ClimbSome(w: World, n: nat, room: nat)
    requires Sound(w) && n in w.nodes && Some(n) != w.root && Climb(w, n, room).Ok?
    ensures Climb(w, n, room).value != []
  {
    if w.nodes[n].parent.None? { CrossesOver(w, n, room); }
  }

  /**
   * Every inode in sight is named by the path it is given if and only if, for every filesystem's root in
   * sight, the path of the place it was first mounted on leads to that root.
   */
  lemma RoundTripExactly(w: World)
    requires Sound(w)
    ensures (forall n {:trigger Visible(w, n)} :: n in w.nodes && Visible(w, n) ==> LeadsBack(w, n, n)) <==>
      (forall r {:trigger MountedRoot(w, r)} :: MountedRoot(w, r) ==> FirstMountLeads(w, r))
  {
    if forall n {:trigger Visible(w, n)} :: n in w.nodes && Visible(w, n) ==> LeadsBack(w, n, n) {
      forall r | MountedRoot(w, r) ensures FirstMountLeads(w, r) { LeadsFromFirst(w, r); }
    }
    if forall r {:trigger MountedRoot(w, r)} :: MountedRoot(w, r) ==> FirstMountLeads(w, r) {
      forall n | n in w.nodes && Visible(w, n) ensures LeadsBack(w, n, n) { LeadsHome(w, n); }
    }
  }

  lemma LeadsFromFirst(w: World, r: nat)
    requires Sound(w) && MountedRoot(w, r) && LeadsBack(w, r, r)
    ensures FirstMountLeads(w, r)
  {
    CrossesOver(w, r, PATH_MAX - 1);
    var c := MountPointFrom(w.mounts, r);
    if c.Some? {
      MountNotRoot(w, r, c.value);
      if w.nodes[c.value].parent.None? { MountStuck(w, r, c.value); }
    }
  }

  /** A mount point with no parent has no path. */
  lemma MountStuck(w: World, r: nat, c: nat)
    requires Sound(w) && MountPointFrom(w.mounts, r) == Some(c) && c in w.nodes && w.nodes[c].parent.None?
    ensures PathOf(w, c, PATH_MAX).Err?
  {
    var i :| 0 <= i < |w.mounts| && w.mounts[i] == Mount(Some(c), r);
    if MountPointFrom(w.mounts, c).Some? { assert false; }
  }

  lemma LeadsHome(w: World, n: nat)
    requires Sound(w) && n in w.nodes && Visible(w, n)
    requires forall r {:trigger MountedRoot(w, r)} :: MountedRoot(w, r) ==> FirstMountLeads(w, r)
    ensures LeadsBack(w, n, n)
  {
    if Some(n) == w.root {
      forall base ensures Resolved(w, "/", base) == Ok(n) { RootPath(w, base); }
    } else if Climb(w, n, PATH_MAX - 1).Ok? {
      var names := Climb(w, n, PATH_MAX - 1).value;
      ClimbsBack(w, n, PATH_MAX - 1);
      ClimbSome(w, n, PATH_MAX - 1);
      forall base ensures Resolved(w, Render(names), base) == Ok(n) { FromRoot(w, n, names, base); }
    }
  }

  /** Collects the names on the way up from the end of the buffer, and says where they begin. */
  method CollectNames(w: World, n: nat, scratch: array<char>) returns (r: Result<nat>, ghost suffix: seq<string>)
    requires Linked(w) && w.root.Some? && n in w.nodes && n != w.root.value && scratch.Length == PATH_MAX
    modifies scratch
    ensures r.Ok? ==> r.value < PATH_MAX && scratch[r.value..PATH_MAX - 1] == Render(suffix)
    ensures Climb(w, n, PATH_MAX - 1) == match r case Ok(_) => Ok(suffix) case Err(e) => Err(e)
    ensures r.Ok? && Sound(w) && Open(w) && Visible(w, n) ==> suffix != [] && Tracing(w, n, w.root.value, suffix)
    ensures r.Err? && Sound(w) && Open(w) && Visible(w, n) ==> r.error == ENAMETOOLONG && TooLong(w, n, PATH_MAX)
  {
    var position, current := PATH_MAX - 1, n;
    suffix := [];
    ClimbingStart(w, n);
    while Some(current) != w.root
      invariant 0 <= position < PATH_MAX && current in w.nodes && (current != n ==> suffix != [])
      invariant scratch[position..PATH_MAX - 1] == Render(suffix) && Tracing(w, n, current, suffix)
      invariant Climbing(w, n, current, suffix, position)
      decreases position
    {
      var turn := TurnUp(w, current);
      ClimbingEnds(w, n, current, suffix, position);
      if turn.Stuck? { return if Some(turn.at) == w.root then Ok(position) else Err(ENOENT), suffix; }
      if turn.Nameless? { return Err(ENOENT), suffix; }
      TracingUp(w, n, current, suffix, turn);
      ClimbingUp(w, n, current, suffix, position, turn);
      if position < |turn.name| + 1 {
        if Sound(w) && Open(w) && Visible(w, n) {
          TracingTooLong(w, n, turn.parent, [turn.name] + suffix, PATH_MAX);
        }
        return Err(ENAMETOOLONG), suffix;
      }
      position := PutName(scratch, position, turn.name);
      suffix := [turn.name] + suffix;
      current := turn.parent;
    }
    ClimbingEnds(w, n, current, suffix, position);
    return Ok(position), suffix;
  }

  /**
   * `absolute_path_of`: whenever it succeeds on an inode in sight, resolving the path from any base
   * gives that inode, and it fails on one only when the path is too long for a buffer.
   */
  method AbsolutePathOf(w: World, n: nat, capacity: nat) returns (r: Result<string>)
    requires Linked(w) && w.root.Some? && n in w.nodes
    ensures r == PathOf(w, n, capacity)
    ensures r.Ok? ==> |r.value| < capacity && |r.value| < PATH_MAX
    ensures Sound(w) && Open(w) && Visible(w, n) && r.Ok? ==> forall base :: Resolved(w, r.value, base) == Ok(n)
    ensures Sound(w) && Open(w) && Visible(w, n) && r.Err? ==>
      (r.error == ENAMETOOLONG && TooLong(w, n, PATH_MAX)) || (r.error == ERANGE && TooLong(w, n, capacity))
  {
    var root := w.root.value;
    if n == root {
      if capacity < 2 {
        assert Reaches(w, [], n);
        return Err(ERANGE);
      }
      forall base | Sound(w) ensures Resolved(w, "/", base) == Ok(n) { RootPath(w, base); }
      return Ok("/");
    }
    var scratch := new char[PATH_MAX];
    var position, suffix := CollectNames(w, n, scratch);
    if position.Err? { return Err(position.error); }
    if PATH_MAX - position.value > capacity {
      if Sound(w) && Open(w) && Visible(w, n) { TracingTooLong(w, n, root, suffix, capacity); }
      return Err(ERANGE);
    }
    forall base | Sound(w) && Open(w) && Visible(w, n) ensures Resolved(w, Render(suffix), base) == Ok(n) {
      TracingDone(w, n, suffix, base);
    }
    return Ok(scratch[position.value..PATH_MAX - 1]);
  }

  lemma ClimbVia(w: World, n: nat, room: nat, name: string, p: nat, above: seq<string>)
    requires Linked(w) && n in w.nodes && Some(n) != w.root && TurnOf(w, n) == Up(name, p)
    requires room > |name| && Climb(w, p, room - |name| - 1) == Ok(above)
    ensures Climb(w, n, room) == Ok(above + [name])
  {
  }

  /** The way up from `/b`, and from `/a/x`, goes by `/a`. */
  lemma TwiceClimb(room: nat)
    requires Linked(TWICE) && room >= 4
    ensures Climb(TWICE, 4, room) == Climb(TWICE, 3, room) == Ok(["a", "x"])
  {
    assert MountPointFrom(TWICE.mounts, 4) == Some(3);
    var children := TWICE_NODES[0].children;
    assert children[0] == 1 && TWICE_NODES[1].children[0] == 3;
    assert NameOf(TWICE_NODES, 0, 1) == "a" && NameOf(TWICE_NODES, 1, 3) == "x";
    ClimbVia(TWICE, 1, room - 2, "a", 0, []);
    assert [] + ["a"] == ["a"] && ["a"] + ["x"] == ["a", "x"];
    ClimbVia(TWICE, 4, room, "x", 1, ["a"]);
    ClimbVia(TWICE, 3, room, "x", 1, ["a"]);
  }

  lemma TwicePaths()
    requires Linked(TWICE)
    ensures PathOf(TWICE, 4, PATH_MAX) == PathOf(TWICE, 3, PATH_MAX) == Ok("/a/x")
    ensures Components("/a/x") == ["a", "x"]
  {
    TwiceClimb(PATH_MAX - 1);
    assert Render(["a", "x"]) == "/a/x" by {
      assert ["a", "x"][1..] == ["x"] && ["x"][1..] == [];
      assert Render(["x"]) == "/x";
    }
    ComponentsOfRender(["a", "x"]);
  }

  /** A filesystem mounted twice: what is at `/b` is called `/a/x`, where there is nothing. */
  lemma TwiceMountedIsLost()
    ensures Sound(TWICE) && Reaches(TWICE, ["b"], 4) && !Open(TWICE)
    ensures PathOf(TWICE, 4, PATH_MAX) == Ok("/a/x") && Resolved(TWICE, "/a/x", None) == Err(ENOENT)
    ensures MountedRoot(TWICE, 4) && !FirstMountLeads(TWICE, 4)
  {
    TwiceSound();
    TwiceNames();
    HiddenMountPoint(TWICE, 4, 3, 1);
    assert Reaches(TWICE, ["b"], 4);
    TwicePaths();
    TwiceLeadsNowhere();
  }

  lemma TwiceLeadsNowhere()
    requires Sound(TWICE) && PathOf(TWICE, 3, PATH_MAX) == Ok("/a/x") && Components("/a/x") == ["a", "x"]
    requires StepsInto(TWICE, 0, ["a", "x"]) == Err(ENOENT)
    ensures Resolved(TWICE, "/a/x", None) == Err(ENOENT) && !FirstMountLeads(TWICE, 4)
  {
    RootVisible(TWICE);
    VisibleUncovered(TWICE, 0);
    assert Resolved(TWICE, "/a/x", None) == Err(ENOENT);
    assert MountPointFrom(TWICE.mounts, 4) == Some(3);
    assert !LeadsBack(TWICE, 3, 4);
  }
}
