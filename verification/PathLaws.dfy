/** What a path means: each component, relative paths, and the way back up. */
module PathLaws {
  import opened Base
  import opened Tree
  import opened Paths
  import opened Namespace

  /** A path to which something can be appended without making it absolute. */
  predicate Extends(path: string, base: Option<nat>) {
    path != [] || base.None?
  }

  /** Appending a component takes one step more. */
  lemma {:induction false} OneMore(w: World, path: string, base: Option<nat>, name: string)
    requires Extends(path, base) && (Proper(name) || name == "." || name == "..")
    ensures Resolved(w, path + "/" + name, base) ==
      match Resolved(w, path, base) case Ok(d) => StepInto(w, d, name) case Err(e) => Err(e)
  {
    var longer := path + ("/" + name);
    assert path + "/" + name == longer;
    ComponentsConcat(path, "/" + name);
    LastComponent(name);
    if w.root.Some? {
      var start := if (path != [] && path[0] == '/') || base.None? then w.root.value else base.value;
      var current := FollowFrom(w.mounts, start);
      StepsSplit(w, current, Components(path), [name]);
      var last := Resolved(w, path, base);
      if last.Ok? { OneStep(w, last.value, name); }
    }
  }

  lemma {:induction false} LastComponent(name: string)
    requires Proper(name) || name == "." || name == ".."
    ensures Components("/" + name) == [name]
  {
    NameLengthOf(name, []);
    assert name + [] == name && SkipSlashes("/" + name) == SkipSlashes(name) == name;
    assert name[|name|..] == [] && name[..|name|] == name;
  }

  lemma {:induction false} OneStep(w: World, current: nat, name: string)
    ensures StepsInto(w, current, [name]) == StepInto(w, current, name)
  {
    assert [name][1..] == [];
  }

  /** A proper name leads to the directory's child of that name, or into what is first mounted on it. */
  lemma {:induction false} Down(w: World, path: string, base: Option<nat>, name: string, d: nat)
    requires Extends(path, base) && Proper(name) && Resolved(w, path, base) == Ok(d) && d in w.nodes
    ensures var r := Resolved(w, path + "/" + name, base);
      if !w.nodes[d].isDir then r == Err(ENOTDIR)
      else match Binding(w.nodes, d, name)
        case None => r == Err(ENOENT)
        case Some(c) =>
          if forall i :: 0 <= i < |w.mounts| ==> w.mounts[i].covered != Some(c) then r == Ok(c)
          else exists i ::
            && 0 <= i < |w.mounts| && w.mounts[i].covered == Some(c) && r == Ok(w.mounts[i].root)
            && forall j :: 0 <= j < i ==> w.mounts[j].covered != Some(c)
  {
    OneMore(w, path, base, name);
    if w.nodes[d].isDir && Binding(w.nodes, d, name).Some? {
      FirstMount(w.mounts, Binding(w.nodes, d, name).value);
    }
  }

  lemma {:induction false} FirstMount(mounts: seq<Mount>, c: nat)
    ensures if forall i :: 0 <= i < |mounts| ==> mounts[i].covered != Some(c) then FollowFrom(mounts, c) == c
      else exists i ::
        && 0 <= i < |mounts| && mounts[i].covered == Some(c) && FollowFrom(mounts, c) == mounts[i].root
        && forall j :: 0 <= j < i ==> mounts[j].covered != Some(c)
  {
    if mounts != [] && mounts[0].covered != Some(c) {
      var rest := mounts[1..];
      FirstMount(rest, c);
      assert forall i :: 0 <= i < |rest| ==> rest[i] == mounts[i + 1];
      if exists i :: 0 <= i < |mounts| && mounts[i].covered == Some(c) {
        var i :| 0 <= i < |mounts| && mounts[i].covered == Some(c);
        assert rest[i - 1].covered == Some(c);
        var k :| 0 <= k < |rest| && rest[k].covered == Some(c) && FollowFrom(rest, c) == rest[k].root &&
          forall j :: 0 <= j < k ==> rest[j].covered != Some(c);
        assert forall j :: 1 <= j < k + 1 ==> mounts[j] == rest[j - 1];
        assert mounts[k + 1].covered == Some(c) && forall j :: 0 <= j < k + 1 ==> mounts[j].covered != Some(c);
      }
    }
  }

  /** Down into a child that nothing is mounted on, and up again: the path means what it did. */
  lemma {:induction false} DownAndUp(w: World, path: string, base: Option<nat>, name: string, d: nat, c: nat)
    requires Sound(w) && Extends(path, base) && Proper(name) && Resolved(w, path, base) == Ok(d)
    requires d in w.nodes && Binding(w.nodes, d, name) == Some(c)
    requires forall i :: 0 <= i < |w.mounts| ==> w.mounts[i].covered != Some(c)
    ensures Resolved(w, path + "/" + name, base) == Ok(c)
    ensures Resolved(w, path + "/" + name + "/..", base) == Resolved(w, path, base)
  {
    var rank :| Ranked(w.nodes, rank);
    BindingIff(w.nodes, rank, d, name, c);
    assert NodeOk(w.nodes, rank, d) && NodeOk(w.nodes, rank, c);
    Down(w, path, base, name, d);
    Up(w, path + "/" + name, base, c);
  }

  /** Up from anywhere is the parent, and from the root of a filesystem it is nowhere else. */
  lemma {:induction false} Up(w: World, path: string, base: Option<nat>, d: nat)
    requires Extends(path, base) && Resolved(w, path, base) == Ok(d) && d in w.nodes
    ensures Resolved(w, path + "/..", base) ==
      match w.nodes[d].parent case Some(p) => Ok(p) case None => Ok(d)
  {
    OneMore(w, path, base, "..");
    assert path + "/" + ".." == path + "/..";
  }

  lemma {:induction false} RootUp(w: World, base: Option<nat>)
    requires Sound(w)
    ensures Resolved(w, "/", base) == Ok(w.root.value) && Resolved(w, "/..", base) == Ok(w.root.value)
  {
    FollowFound(w.mounts, w.root.value);
    assert Components("/") == [];
    Up(w, "/", base, w.root.value);
    assert "/" + "/.." == "//..";
    SlashTwice(w, base);
  }

  lemma {:induction false} SlashTwice(w: World, base: Option<nat>)
    ensures Resolved(w, "//..", base) == Resolved(w, "/..", base)
  {
    LastComponent("..");
    assert "//.."[1..] == "/.." && "/.."[1..] == "..";
    assert SkipSlashes("//..") == SkipSlashes("/..");
  }

  lemma {:induction false} Stay(w: World, path: string, base: Option<nat>)
    requires Extends(path, base)
    ensures Resolved(w, path + "/.", base) == Resolved(w, path, base)
  {
    OneMore(w, path, base, ".");
    assert path + "/" + "." == path + "/.";
  }

  /** A relative path from where another one leads is the two joined. */
  lemma {:induction false} Joined(w: World, path: string, base: Option<nat>, more: string, d: nat)
    requires Extends(path, base) && Resolved(w, path, base) == Ok(d) && FollowFrom(w.mounts, d) == d
    requires more == [] || more[0] != '/'
    ensures Resolved(w, path + "/" + more, base) == Resolved(w, more, Some(d))
  {
    assert path + "/" + more == path + ("/" + more);
    ComponentsConcat(path, "/" + more);
    assert ("/" + more)[1..] == more && SkipSlashes("/" + more) == SkipSlashes(more);
    var start := if (path != [] && path[0] == '/') || base.None? then w.root.value else base.value;
    StepsSplit(w, FollowFrom(w.mounts, start), Components(path), Components(more));
  }

  /** A path that begins with a slash means the same from everywhere. */
  lemma {:induction false} Absolute(w: World, path: string, base: Option<nat>, other: Option<nat>)
    requires path != [] && path[0] == '/'
    ensures Resolved(w, path, base) == Resolved(w, path, other)
  {
  }
}
