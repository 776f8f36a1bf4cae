/** Splitting a path into components and putting one together. */
module Paths {
  import opened Base
  import opened Tree

  /** Room for a path, with its terminator. */
  const PATH_MAX: nat := 1024

  function SkipSlashes(path: string): (r: string)
    ensures |r| <= |path| && (r != [] ==> r[0] != '/')
  {
    if path != [] && path[0] == '/' then SkipSlashes(path[1..]) else path
  }

  /** How far the path goes before a slash or its end. */
  function NameLength(path: string): (k: nat)
    ensures k <= |path| && (k < |path| ==> path[k] == '/') && forall i :: 0 <= i < k ==> path[i] != '/'
  {
    if path == [] || path[0] == '/' then 0 else 1 + NameLength(path[1..])
  }

  /** A component longer than a name can be is cut off. */
  function Cut(name: string): string {
    if |name| < FILENAME_MAX then name else name[..FILENAME_MAX - 1]
  }

  function Components(path: string): seq<string>
    decreases |path|
  {
    var rest := SkipSlashes(path);
    if rest == [] then []
    else
      var k := NameLength(rest);
      [Cut(rest[..k])] + Components(rest[k..])
  }

  /** A name that stands for itself in a path. */
  ghost predicate Proper(name: string) {
    && 0 < |name| < FILENAME_MAX && name != "." && name != ".."
    && forall i :: 0 <= i < |name| ==> name[i] != '/'
  }

  function Render(names: seq<string>): string {
    if names == [] then "" else "/" + names[0] + Render(names[1..])
  }

  lemma {:induction false} NameLengthOf(name: string, rest: string)
    requires (forall i :: 0 <= i < |name| ==> name[i] != '/') && (rest == [] || rest[0] == '/')
    ensures NameLength(name + rest) == |name|
  {
    if name != [] {
      NameLengthOf(name[1..], rest);
      assert (name + rest)[1..] == name[1..] + rest;
    } else {
      assert name + rest == rest;
    }
  }

  /** Rendering proper names and splitting the result gives them back. */
  lemma {:induction false} ComponentsOfRender(names: seq<string>)
    requires forall i :: 0 <= i < |names| ==> Proper(names[i])
    ensures Components(Render(names)) == names
  {
    if names != [] {
      var name, rest := names[0], Render(names[1..]);
      ComponentsOfRender(names[1..]);
      NameLengthOf(name, rest);
      var path := Render(names);
      assert path[1..] == name + rest;
      assert SkipSlashes(path) == name + rest;
      assert (name + rest)[..|name|] == name && (name + rest)[|name|..] == rest;
    }
  }

  lemma {:induction false} SkipConcat(a: string, b: string)
    ensures SkipSlashes(a + b) == if SkipSlashes(a) == [] then SkipSlashes(b) else SkipSlashes(a) + b
    decreases |a|
  {
    if a == [] {
      assert a + b == b;
    } else if a[0] == '/' {
      assert (a + b)[1..] == a[1..] + b;
      SkipConcat(a[1..], b);
    }
  }

  lemma {:induction false} NameLengthConcat(a: string, b: string)
    requires b == [] || b[0] == '/'
    ensures NameLength(a + b) == NameLength(a)
    decreases |a|
  {
    if a == [] {
      assert a + b == b;
    } else if a[0] != '/' {
      assert (a + b)[1..] == a[1..] + b;
      NameLengthConcat(a[1..], b);
    }
  }

  /** Splitting at a slash and going on separately is splitting the whole. */
  lemma {:induction false} ComponentsConcat(a: string, b: string)
    requires b == [] || b[0] == '/'
    ensures Components(a + b) == Components(a) + Components(b)
    decreases |a|
  {
    SkipConcat(a, b);
    var rest := SkipSlashes(a);
    if rest != [] {
      NameLengthConcat(rest, b);
      var k := NameLength(rest);
      assert k > 0;
      assert (rest + b)[..k] == rest[..k] && (rest + b)[k..] == rest[k..] + b;
      ComponentsConcat(rest[k..], b);
    }
  }

  method PastSlashes(path: string, cursor: nat) returns (next: nat)
    requires cursor <= |path|
    ensures cursor <= next <= |path| && path[next..] == SkipSlashes(path[cursor..])
  {
    next := cursor;
    while next < |path| && path[next] == '/'
      invariant cursor <= next <= |path|
      invariant SkipSlashes(path[cursor..]) == SkipSlashes(path[next..])
    {
      assert path[next..][1..] == path[next + 1..];
      next := next + 1;
    }
  }

  lemma NameGoesOn(path: string, start: nat, next: nat)
    requires start <= next < |path| && path[next] != '/'
    ensures NameLength(path[next..]) == 1 + NameLength(path[next + 1..])
    ensures Cut(path[start..next + 1]) ==
      Cut(path[start..next]) + if |Cut(path[start..next])| + 1 < FILENAME_MAX then [path[next]] else []
  {
    assert path[next..][1..] == path[next + 1..];
    CutGrows(path[start..next], path[next]);
    assert path[start..next + 1] == path[start..next] + [path[next]];
  }

  method CopyName(path: string, start: nat) returns (component: string, next: nat)
    requires start <= |path|
    ensures next == start + NameLength(path[start..]) && component == Cut(path[start..next])
  {
    next := start;
    component := "";
    while next < |path| && path[next] != '/'
      invariant start <= next <= |path| && component == Cut(path[start..next])
      invariant NameLength(path[start..]) == next - start + NameLength(path[next..])
    {
      NameGoesOn(path, start, next);
      if |component| + 1 < FILENAME_MAX {
        component := component + [path[next]];
      }
      next := next + 1;
    }
  }

  lemma CutGrows(name: string, c: char)
    ensures Cut(name + [c]) == Cut(name) + if |Cut(name)| + 1 < FILENAME_MAX then [c] else []
  {
  }

  lemma ComponentsSplit(path: string, cursor: nat, start: nat, next: nat)
    requires cursor <= start <= |path| && path[start..] == SkipSlashes(path[cursor..]) && start < |path|
    requires next == start + NameLength(path[start..])
    ensures cursor < next && Components(path[cursor..]) == [Cut(path[start..next])] + Components(path[next..])
  {
    assert path[start..][0] != '/';
    assert path[start..][..next - start] == path[start..next];
    assert path[start..][next - start..] == path[next..];
  }

  /** `next_component`, with the cursor an index into the path. */
  method NextComponent(path: string, cursor: nat) returns (found: bool, component: string, next: nat)
    requires cursor <= |path|
    ensures next <= |path| && (found ==> cursor < next)
    ensures found <==> Components(path[cursor..]) != []
    ensures found ==> Components(path[cursor..]) == [component] + Components(path[next..])
  {
    var start := PastSlashes(path, cursor);
    if start == |path| {
      return false, "", start;
    }
    component, next := CopyName(path, start);
    ComponentsSplit(path, cursor, start, next);
    found := true;
  }
}
