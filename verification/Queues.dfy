/** Duplicate-free sequences: what an intrusive list of threads denotes. */
module Queues {

  ghost predicate Apart(s: seq<nat>, i: int, j: int)
    requires 0 <= i < |s| && 0 <= j < |s|
  {
    i != j ==> s[i] != s[j]
  }

  ghost predicate NoDup(s: seq<nat>) {
    forall i, j {:trigger Apart(s, i, j)} :: 0 <= i < |s| && 0 <= j < |s| ==> Apart(s, i, j)
  }

  /** The sequence without its first `x`. */
  function Minus(s: seq<nat>, x: nat): seq<nat> {
    if s == [] then [] else if s[0] == x then s[1..] else [s[0]] + Minus(s[1..], x)
  }

  lemma TailNoDup(s: seq<nat>)
    requires NoDup(s) && s != []
    ensures NoDup(s[1..]) && s[0] !in s[1..]
    ensures forall y :: y in s[1..] <==> y in s && y != s[0]
  {
    forall i, j | 0 <= i < |s| - 1 && 0 <= j < |s| - 1 ensures Apart(s[1..], i, j) {
      assert Apart(s, i + 1, j + 1);
    }
    forall i | 1 <= i < |s| ensures s[i] != s[0] {
      assert Apart(s, 0, i);
    }
    forall y | y in s && y != s[0] ensures y in s[1..] {
      var i :| 0 <= i < |s| && s[i] == y;
      assert s[1..][i - 1] == y;
    }
  }

  lemma {:induction false} MinusNoDup(s: seq<nat>, x: nat)
    requires NoDup(s)
    ensures NoDup(Minus(s, x))
    ensures forall y :: y in Minus(s, x) <==> y in s && y != x
  {
    if s != [] {
      TailNoDup(s);
      if s[0] != x {
        MinusNoDup(s[1..], x);
        PrependNoDup(Minus(s[1..], x), s[0]);
      }
    }
  }

  lemma PrependNoDup(s: seq<nat>, x: nat)
    requires NoDup(s) && x !in s
    ensures NoDup([x] + s)
  {
    var t := [x] + s;
    forall i, j | 0 <= i < |t| && 0 <= j < |t| ensures Apart(t, i, j) {
      if i > 0 && j > 0 { assert Apart(s, i - 1, j - 1); }
    }
  }

  lemma AppendNoDup(s: seq<nat>, x: nat)
    requires NoDup(s) && x !in s
    ensures NoDup(s + [x])
    ensures forall y :: y in s + [x] <==> y in s || y == x
  {
    var t := s + [x];
    forall i, j | 0 <= i < |t| && 0 <= j < |t| ensures Apart(t, i, j) {
      if i < |s| && j < |s| { assert Apart(s, i, j); }
    }
  }

  /** Where `x` stands in the queue. */
  function Position(s: seq<nat>, x: nat): (k: nat)
    requires x in s
    ensures k < |s| && s[k] == x
  {
    if s[0] == x then 0 else 1 + Position(s[1..], x)
  }

  lemma {:induction false} PositionExtend(s: seq<nat>, longer: seq<nat>, x: nat)
    requires x in s && s <= longer
    ensures x in longer && Position(longer, x) == Position(s, x)
  {
    if s[0] != x {
      PositionExtend(s[1..], longer[1..], x);
    }
  }

  lemma PositionTail(s: seq<nat>, x: nat)
    requires x in s && s[0] != x
    ensures x in s[1..] && Position(s[1..], x) == Position(s, x) - 1
  {
  }
}
