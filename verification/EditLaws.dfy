/** What editing a line means, for whole lines typed at a terminal. */
module EditLaws {
  import opened Base
  import opened LineDiscipline

  ghost function TypedAll(t: Termios, e: Edit, bytes: seq<Byte>): Edit
    decreases |bytes|
  {
    if bytes == [] then e else TypedAll(t, Typed(t, e, bytes[0]), bytes[1..])
  }

  lemma {:induction false} TypedConcat(t: Termios, e: Edit, a: seq<Byte>, b: seq<Byte>)
    ensures TypedAll(t, e, a + b) == TypedAll(t, TypedAll(t, e, a), b)
    decreases |a|
  {
    if a == [] {
      assert a + b == b;
    } else {
      assert (a + b)[1..] == a[1..] + b;
      TypedConcat(t, Typed(t, e, a[0]), a[1..], b);
    }
  }

  // --- the bytes

  /** A byte with no meaning of its own. */
  predicate Plain(t: Termios, c: Byte) {
    && c != 10 && c != 127 && !(t.crToNl && c == 13)
    && !(t.signals && (c == t.interrupt || c == t.quit || c == t.suspend))
    && c != t.erase && c != t.kill && c != t.eof
  }

  predicate AllPlain(t: Termios, bytes: seq<Byte>) {
    forall i :: 0 <= i < |bytes| ==> Plain(t, bytes[i])
  }

  /** A control byte, if it is not taken for a signal first. */
  predicate Unsignalled(t: Termios, c: Byte) {
    !(t.crToNl && c == 13) && !(t.signals && (c == t.interrupt || c == t.quit || c == t.suspend))
  }

  /** As much of the line as the buffer holds. */
  function Held(bytes: seq<Byte>): seq<Byte> {
    if |bytes| < 1024 then bytes else bytes[..1023]
  }

  // --- whole lines

  /** Plain bytes are put on the line, as far as there is room. */
  lemma {:induction false} PlainTyped(t: Termios, e: Edit, bytes: seq<Byte>)
    requires t.canonical && AllPlain(t, bytes) && |e.line| < 1024
    ensures TypedAll(t, e, bytes) == Edit(Held(e.line + bytes), e.committed)
    decreases |bytes|
  {
    if bytes == [] {
      assert e.line + bytes == e.line;
    } else {
      assert Plain(t, bytes[0]);
      var e1 := Typed(t, e, bytes[0]);
      PlainTyped(t, e1, bytes[1..]);
      assert Held(e1.line + bytes[1..]) == Held(e.line + bytes);
    }
  }

  /** Each erase takes one byte off the end. */
  lemma {:induction false} ErasesTyped(t: Termios, e: Edit, c: Byte, k: nat)
    requires t.canonical && (c == t.erase || c == 127) && Unsignalled(t, c)
    ensures TypedAll(t, e, seq(k, _ => c)) == Edit(if k < |e.line| then e.line[..|e.line| - k] else [], e.committed)
    decreases k
  {
    if k > 0 {
      var e1 := Typed(t, e, c);
      assert seq(k, _ => c)[1..] == seq(k - 1, _ => c);
      ErasesTyped(t, e1, c, k - 1);
    }
  }

  /** Plain bytes, `k` erases and a newline commit the bytes less the last `k`, and the newline. */
  lemma LineCommits(t: Termios, committed: seq<Byte>, bytes: seq<Byte>, c: Byte, k: nat)
    requires t.canonical && AllPlain(t, bytes) && (c == t.erase || c == 127) && Unsignalled(t, c)
    requires NewlineEnds(t)
    ensures var line := Held(bytes);
      TypedAll(t, Edit([], committed), bytes + seq(k, _ => c) + [10]) ==
        Edit([], committed + (if k < |line| then line[..|line| - k] else []) + [10])
  {
    var e, erases := Edit([], committed), seq(k, _ => c);
    assert [] + bytes == bytes;
    PlainTyped(t, e, bytes);
    var e1 := TypedAll(t, e, bytes);
    ErasesTyped(t, e1, c, k);
    TypedConcat(t, e, bytes, erases);
    TypedConcat(t, e, bytes + erases, [10]);
    NewlineTyped(t, TypedAll(t, e1, erases));
  }

  /** A newline means nothing else before it ends the line. */
  predicate NewlineEnds(t: Termios) {
    Unsignalled(t, 10) && 10 != t.erase && 10 != t.kill && 10 != t.eof
  }

  lemma NewlineTyped(t: Termios, e: Edit)
    requires t.canonical && NewlineEnds(t) && |e.line| < 1024
    ensures TypedAll(t, e, [10]) == Edit([], e.committed + e.line + [10])
  {
    assert [10][1..] == [];
    assert e.committed + (e.line + [10]) == e.committed + e.line + [10];
  }

  /** A carriage return is a newline where it is to be one. */
  lemma ReturnIsNewline(t: Termios, e: Edit)
    requires t.crToNl
    ensures Typed(t, e, 13) == Typed(t, e, 10)
  {
  }

  /** What came before a kill, or before a byte that raises a signal, is never committed. */
  lemma Discards(t: Termios, committed: seq<Byte>, bytes: seq<Byte>, c: Byte)
    requires t.canonical && AllPlain(t, bytes)
    requires (c == t.kill && Unsignalled(t, c) && c != t.erase && c != 127) ||
      (t.signals && !(t.crToNl && c == 13) && (c == t.interrupt || c == t.quit || c == t.suspend))
    ensures TypedAll(t, Edit([], committed), bytes + [c]) == Edit([], committed)
  {
    var e := Edit([], committed);
    assert [] + bytes == bytes;
    PlainTyped(t, e, bytes);
    TypedConcat(t, e, bytes, [c]);
    assert [c][1..] == [];
  }

  /** An end-of-file byte commits the line as it stands, with no newline; it ends the input exactly on an empty line. */
  lemma EofCommits(t: Termios, committed: seq<Byte>, bytes: seq<Byte>, c: Byte)
    requires t.canonical && AllPlain(t, bytes) && c == t.eof && Unsignalled(t, c)
    requires c != t.erase && c != 127 && c != t.kill
    ensures TypedAll(t, Edit([], committed), bytes + [c]) == Edit([], committed + Held(bytes))
    ensures EndsInput(t, TypedAll(t, Edit([], committed), bytes), c) <==> bytes == []
  {
    var e := Edit([], committed);
    assert [] + bytes == bytes;
    PlainTyped(t, e, bytes);
    TypedConcat(t, e, bytes, [c]);
    assert [c][1..] == [];
  }

  /** Without editing every byte that raises no signal is committed as it comes, but for a translated return. */
  lemma {:induction false} RawCommits(t: Termios, e: Edit, bytes: seq<Byte>)
    requires !t.canonical && forall i :: 0 <= i < |bytes| ==> Unsignalled(t, bytes[i])
    ensures TypedAll(t, e, bytes) == Edit(e.line, e.committed + bytes)
    decreases |bytes|
  {
    if bytes == [] {
      assert e.committed + bytes == e.committed;
    } else {
      assert Unsignalled(t, bytes[0]);
      RawCommits(t, Typed(t, e, bytes[0]), bytes[1..]);
      assert e.committed + [bytes[0]] + bytes[1..] == e.committed + bytes;
    }
  }

  /** Which signal a byte raises. */
  lemma Raises(t: Termios, c: Byte)
    ensures SignalOf(t, c) == Some(2) <==> t.signals && c == t.interrupt
    ensures SignalOf(t, c) == Some(3) <==> t.signals && c == t.quit && c != t.interrupt
    ensures SignalOf(t, c) == Some(20) <==> t.signals && c == t.suspend && c != t.quit && c != t.interrupt
    ensures SignalOf(t, c).None? <==> !t.signals || (c != t.suspend && c != t.quit && c != t.interrupt)
  {
  }
}
