/**
 * The stack a program starts on: argument count, argument and environment pointers, auxiliary vector,
 * and above them the strings. The pointer area is kept as words, the string area as bytes.
 */
module UserStack {
  import opened Base

  const USER_STACK_TOP: nat := 0x0000_7FFF_FFFF_F000
  const USER_STACK_SIZE: nat := 0x10000
  const MAX_ARGUMENT_BYTES: nat := 0x8000
  const MAX_ARGUMENTS: nat := 256

  /** One entry of the auxiliary vector; type zero ends it. */
  datatype Auxiliary = Auxiliary(kind: nat, value: nat)

  /** What a program finds at its entry point. */
  datatype Start = Start(argc: nat, argv: seq<seq<Byte>>, envp: seq<seq<Byte>>, auxv: seq<Auxiliary>)

  /** The image as it is laid out: `words` begin at `rsp`, `area` at `base`. */
  datatype Image = Image(rsp: nat, words: seq<nat>, base: nat, area: seq<Byte>)

  // --- how a program reads it

  /** The bytes up to the next null. */
  function CString(area: seq<Byte>, i: int): seq<Byte>
    decreases |area| - i
  {
    if i < 0 || i >= |area| || area[i] == 0 then [] else [area[i]] + CString(area, i + 1)
  }

  /** The strings of a vector of pointers that ends in null, and where the next thing begins. */
  function Strings(m: Image, at: nat): (seq<seq<Byte>>, nat)
    decreases |m.words| - at
  {
    if at >= |m.words| then ([], at)
    else if m.words[at] == 0 then ([], at + 1)
    else
      var (rest, next) := Strings(m, at + 1);
      ([CString(m.area, m.words[at] - m.base)] + rest, next)
  }

  /** The entries before the null entry, and that one. */
  function Auxiliaries(m: Image, at: nat): seq<Auxiliary>
    decreases |m.words| - at
  {
    if at + 1 >= |m.words| then []
    else
      var entry := Auxiliary(m.words[at], m.words[at + 1]);
      if entry.kind == 0 then [entry] else [entry] + Auxiliaries(m, at + 2)
  }

  function Decoded(m: Image): Start
    requires m.words != []
  {
    var (argv, afterArgv) := Strings(m, 1);
    var (envp, afterEnvp) := Strings(m, afterArgv);
    Start(m.words[0], argv, envp, Auxiliaries(m, afterEnvp))
  }

  // --- layout

  function AlignUp(n: nat, to: nat): nat
    requires to > 0
  {
    (n + to - 1) / to * to
  }

  lemma AlignUpBounds(n: nat)
    ensures n <= AlignUp(n, 16) < n + 16 && AlignUp(n, 16) % 16 == 0
  {
  }

  /** The strings one after the other, each with its null. */
  function Packed(strings: seq<seq<Byte>>): seq<Byte> {
    if strings == [] then [] else strings[0] + [0] + Packed(strings[1..])
  }

  /** Where each string begins. */
  function Offsets(strings: seq<seq<Byte>>, from: nat): seq<nat> {
    if strings == [] then [] else [from] + Offsets(strings[1..], from + |strings[0]| + 1)
  }

  function Flattened(auxv: seq<Auxiliary>): seq<nat> {
    if auxv == [] then [] else [auxv[0].kind, auxv[0].value] + Flattened(auxv[1..])
  }

  predicate NoNulls(s: seq<Byte>) {
    forall i :: 0 <= i < |s| ==> s[i] != 0
  }

  predicate AllPlain(strings: seq<seq<Byte>>) {
    forall i :: 0 <= i < |strings| ==> NoNulls(strings[i])
  }

  /** Ends in its only null entry. */
  predicate WellEnded(auxv: seq<Auxiliary>) {
    auxv != [] && auxv[|auxv| - 1].kind == 0 && forall i :: 0 <= i < |auxv| - 1 ==> auxv[i].kind != 0
  }

  lemma {:induction false} CStringReads(area: seq<Byte>, i: nat, s: seq<Byte>)
    requires i + |s| < |area| && area[i..i + |s|] == s && area[i + |s|] == 0 && NoNulls(s)
    ensures CString(area, i) == s
    decreases |s|
  {
    if s != [] {
      assert area[i] == s[0] && area[i + 1..i + 1 + |s[1..]|] == s[1..];
      CStringReads(area, i + 1, s[1..]);
    }
  }

  /** The packed strings lie at `from`. */
  ghost predicate LiesAt(area: seq<Byte>, from: nat, strings: seq<seq<Byte>>) {
    from + |Packed(strings)| <= |area| && area[from..from + |Packed(strings)|] == Packed(strings)
  }

  lemma FirstString(area: seq<Byte>, from: nat, strings: seq<seq<Byte>>)
    requires LiesAt(area, from, strings) && strings != [] && NoNulls(strings[0])
    ensures CString(area, from) == strings[0] && LiesAt(area, from + |strings[0]| + 1, strings[1..])
  {
    var s, rest := strings[0], Packed(strings[1..]);
    var packed, next := Packed(strings), from + |s| + 1;
    var part := area[from..from + |packed|];
    assert part == packed && packed == s + [0] + rest;
    assert area[from..from + |s|] == part[..|s|] && packed[..|s|] == s;
    assert area[from + |s|] == part[|s|] && packed[|s|] == 0;
    assert area[next..next + |rest|] == part[|s| + 1..] && packed[|s| + 1..] == rest;
    CStringReads(area, from, s);
  }

  ghost predicate PointsTo(words: seq<nat>, at: nat, base: nat, offsets: seq<nat>, i: int) {
    0 <= i < |offsets| && at + i < |words| && words[at + i] == base + offsets[i]
  }

  /** The vector at `at`: a pointer to each string, and a null. */
  ghost predicate Points(words: seq<nat>, at: nat, base: nat, strings: seq<seq<Byte>>, from: nat) {
    && at + |strings| < |words| && words[at + |strings|] == 0
    && forall i {:trigger PointsTo(words, at, base, Offsets(strings, from), i)} ::
         0 <= i < |strings| ==> PointsTo(words, at, base, Offsets(strings, from), i)
  }

  lemma PointsRest(words: seq<nat>, at: nat, base: nat, strings: seq<seq<Byte>>, from: nat)
    requires Points(words, at, base, strings, from) && strings != []
    ensures words[at] == base + from && Points(words, at + 1, base, strings[1..], from + |strings[0]| + 1)
  {
    var after, offsets := at + 1, Offsets(strings[1..], from + |strings[0]| + 1);
    assert PointsTo(words, at, base, Offsets(strings, from), 0);
    forall i | 0 <= i < |strings[1..]| ensures PointsTo(words, after, base, offsets, i) {
      assert PointsTo(words, at, base, Offsets(strings, from), i + 1);
    }
  }

  /** Words written past the vector leave it alone. */
  lemma PointsKept(words: seq<nat>, words': seq<nat>, at: nat, base: nat, strings: seq<seq<Byte>>, from: nat, k: nat)
    requires Points(words, at, base, strings, from) && at + |strings| < k <= |words| && k <= |words'| &&
      words'[..k] == words[..k]
    ensures Points(words', at, base, strings, from)
  {
    forall i | 0 <= i < |strings| ensures PointsTo(words', at, base, Offsets(strings, from), i) {
      assert PointsTo(words, at, base, Offsets(strings, from), i);
      assert words'[at + i] == words'[..k][at + i];
    }
    assert words'[at + |strings|] == words'[..k][at + |strings|];
  }

  /** A vector of pointers into packed strings, read back. */
  lemma {:induction false} StringsRead(m: Image, at: nat, strings: seq<seq<Byte>>, from: nat)
    requires m.base > 0 && AllPlain(strings) && LiesAt(m.area, from, strings) &&
      Points(m.words, at, m.base, strings, from)
    ensures Strings(m, at) == (strings, at + |strings| + 1)
    decreases |strings|
  {
    if strings == [] {
      assert m.words[at + |strings|] == m.words[at];
    } else {
      FirstString(m.area, from, strings);
      PointsRest(m.words, at, m.base, strings, from);
      StringsRead(m, at + 1, strings[1..], from + |strings[0]| + 1);
      assert [strings[0]] + strings[1..] == strings;
    }
  }

  lemma {:induction false} AuxiliariesRead(m: Image, at: nat, auxv: seq<Auxiliary>)
    requires at <= |m.words| && WellEnded(auxv) && m.words[at..] == Flattened(auxv)
    ensures Auxiliaries(m, at) == auxv
    decreases |auxv|
  {
    var flat := Flattened(auxv);
    assert m.words[at] == flat[0] && m.words[at + 1] == flat[1];
    if |auxv| > 1 {
      assert m.words[at + 2..] == flat[2..] == Flattened(auxv[1..]);
      AuxiliariesRead(m, at + 2, auxv[1..]);
    } else {
      assert auxv[0].kind == 0;
    }
  }

  lemma {:induction false} PackedAppend(strings: seq<seq<Byte>>, s: seq<Byte>)
    ensures Packed(strings + [s]) == Packed(strings) + s + [0]
  {
    if strings != [] {
      PackedAppend(strings[1..], s);
      assert (strings + [s])[1..] == strings[1..] + [s];
    } else {
      assert [s][1..] == [];
    }
  }

  /** A string begins where the ones before it end. */
  lemma {:induction false} OffsetAt(strings: seq<seq<Byte>>, from: nat, i: nat)
    requires i < |strings|
    ensures i < |Offsets(strings, from)| && Offsets(strings, from)[i] == from + |Packed(strings[..i])|
  {
    if i > 0 {
      OffsetAt(strings[1..], from + |strings[0]| + 1, i - 1);
      assert strings[..i][1..] == strings[1..][..i - 1];
    }
  }

  lemma PackedSplit(strings: seq<seq<Byte>>, i: nat)
    requires i < |strings|
    ensures Packed(strings[..i + 1]) == Packed(strings[..i]) + strings[i] + [0]
    ensures |Packed(strings[..i + 1])| <= |Packed(strings)|
  {
    assert strings[..i + 1] == strings[..i] + [strings[i]];
    PackedAppend(strings[..i], strings[i]);
    PackedPrefix(strings, i + 1);
  }

  lemma {:induction false} PackedPrefix(strings: seq<seq<Byte>>, i: nat)
    requires i <= |strings|
    ensures |Packed(strings[..i])| <= |Packed(strings)|
  {
    if i > 0 {
      PackedPrefix(strings[1..], i - 1);
      assert strings[..i][1..] == strings[1..][..i - 1];
    }
  }

  /** Strings written from the cursor on, a pointer to each from `at` on, and a null pointer. */
  method WriteStrings(words: array<nat>, at: nat, area: array<Byte>, cursor: nat, strings: seq<seq<Byte>>, base: nat)
    returns (next: nat)
    requires at + |strings| < words.Length && cursor + |Packed(strings)| <= area.Length
    modifies words, area
    ensures next == cursor + |Packed(strings)| && area[cursor..next] == Packed(strings)
    ensures area[..cursor] == old(area[..cursor]) && area[next..] == old(area[next..])
    ensures words[..at] == old(words[..at]) && Points(words[..], at, base, strings, cursor)
  {
    next := cursor;
    assert strings[..0] == [];
    for i := 0 to |strings|
      invariant next == cursor + |Packed(strings[..i])| <= cursor + |Packed(strings)|
      invariant area[cursor..next] == Packed(strings[..i]) && area[..cursor] == old(area[..cursor]) &&
        area[next..] == old(area[next..])
      invariant words[..at] == old(words[..at])
      invariant forall k :: 0 <= k < i ==>
        && k < |Offsets(strings, cursor)|
        && words[at + k] == base + Offsets(strings, cursor)[k]
    {
      PackedSplit(strings, i);
      OffsetAt(strings, cursor, i);
      var text := strings[i] + [0];
      assert Packed(strings[..i + 1]) == area[cursor..next] + text;
      assert area[next + |text|..] == area[next..][|text|..] == old(area[next..])[|text|..];
      AppendText(area, cursor, next, text);
      words[at + i] := base + next;
      next := next + |text|;
    }
    assert strings[..|strings|] == strings;
    words[at + |strings|] := 0;
    forall i | 0 <= i < |strings| ensures PointsTo(words[..], at, base, Offsets(strings, cursor), i) { }
  }

  /** One string more behind those already there. */
  method AppendText(area: array<Byte>, cursor: nat, next: nat, text: seq<Byte>)
    requires cursor <= next && next + |text| <= area.Length
    modifies area
    ensures area[..cursor] == old(area[..cursor]) && area[cursor..next + |text|] == old(area[cursor..next]) + text
    ensures area[next + |text|..] == old(area[next + |text|..])
  {
    ghost var before := area[..next];
    CopyText(area, next, text);
    assert area[..cursor] == area[..next][..cursor] == before[..cursor];
    assert area[cursor..next] == area[..next][cursor..] == before[cursor..];
    assert area[cursor..next + |text|] == area[cursor..next] + area[next..next + |text|];
  }

  /** `memcpy` of a string and its null into the image. */
  method CopyText(area: array<Byte>, at: nat, text: seq<Byte>)
    requires at + |text| <= area.Length
    modifies area
    ensures area[..at] == old(area[..at]) && area[at..at + |text|] == text &&
      area[at + |text|..] == old(area[at + |text|..])
  {
    forall k | 0 <= k < |text| { area[at + k] := text[k]; }
  }

  // --- the builder

  datatype Executable = Executable(phdrAddress: nat, phdrEntrySize: nat, phdrCount: nat, entry: nat)

  const AUXILIARY_COUNT: nat := 13

  function AuxiliaryVector(x: Executable): (r: seq<Auxiliary>)
    ensures |r| == AUXILIARY_COUNT && WellEnded(r)
  {
    [ Auxiliary(3, x.phdrAddress), Auxiliary(4, x.phdrEntrySize), Auxiliary(5, x.phdrCount), Auxiliary(6, PAGE_SIZE),
      Auxiliary(9, x.entry), Auxiliary(7, 0), Auxiliary(8, 0), Auxiliary(11, 0), Auxiliary(12, 0), Auxiliary(13, 0),
      Auxiliary(14, 0), Auxiliary(23, 0), Auxiliary(0, 0)]
  }

  /** What a program finds under a tag: the value of the first entry that has it. */
  function Under(auxv: seq<Auxiliary>, tag: nat): Option<nat> {
    if auxv == [] then None else if auxv[0].kind == tag then Some(auxv[0].value) else Under(auxv[1..], tag)
  }

  /** AT_PHDR, AT_PHENT, AT_PHNUM, AT_PAGESZ and AT_ENTRY. */
  lemma AuxiliaryTags(x: Executable)
    ensures var auxv := AuxiliaryVector(x);
      && Under(auxv, 3) == Some(x.phdrAddress) && Under(auxv, 4) == Some(x.phdrEntrySize)
      && Under(auxv, 5) == Some(x.phdrCount) && Under(auxv, 6) == Some(4096) && Under(auxv, 9) == Some(x.entry)
  {
    var auxv := AuxiliaryVector(x);
    UnderAt(auxv, 0, 3);
    UnderAt(auxv, 1, 4);
    UnderAt(auxv, 2, 5);
    UnderAt(auxv, 3, 6);
    UnderAt(auxv, 4, 9);
  }

  /** AT_BASE, AT_FLAGS, the four ids and AT_SECURE are zero. */
  lemma AuxiliaryZeroes(x: Executable)
    ensures forall tag :: tag in {7, 8, 11, 12, 13, 14, 23} ==> Under(AuxiliaryVector(x), tag) == Some(0)
  {
    var auxv := AuxiliaryVector(x);
    UnderAt(auxv, 5, 7);
    UnderAt(auxv, 6, 8);
    UnderAt(auxv, 7, 11);
    UnderAt(auxv, 8, 12);
    UnderAt(auxv, 9, 13);
    UnderAt(auxv, 10, 14);
    UnderAt(auxv, 11, 23);
  }

  lemma {:induction false} UnderAt(auxv: seq<Auxiliary>, i: nat, tag: nat)
    requires i < |auxv| && auxv[i].kind == tag && forall k :: 0 <= k < i ==> auxv[k].kind != tag
    ensures Under(auxv, tag) == Some(auxv[i].value)
    decreases i
  {
    if i > 0 { UnderAt(auxv[1..], i - 1, tag); }
  }

  lemma {:induction false} FlattenedAt(auxv: seq<Auxiliary>, i: nat)
    requires i < |auxv|
    ensures |Flattened(auxv)| == 2 * |auxv|
    ensures Flattened(auxv)[2 * i] == auxv[i].kind && Flattened(auxv)[2 * i + 1] == auxv[i].value
  {
    if |auxv| > 1 { FlattenedAt(auxv[1..], if i > 0 then i - 1 else 0); }
  }

  /** Bytes of strings, of the word area, and of the whole image. */
  function StringBytes(argv: seq<seq<Byte>>, envp: seq<seq<Byte>>): nat {
    |Packed(argv)| + |Packed(envp)|
  }

  function WordCount(argv: seq<seq<Byte>>, envp: seq<seq<Byte>>): nat {
    1 + |argv| + 1 + |envp| + 1 + 2 * AUXILIARY_COUNT
  }

  function TotalSize(argv: seq<seq<Byte>>, envp: seq<seq<Byte>>): nat {
    AlignUp(8 * WordCount(argv, envp) + AlignUp(StringBytes(argv, envp), 16), 16)
  }

  ghost predicate TooBig(argv: seq<seq<Byte>>, envp: seq<seq<Byte>>) {
    || |argv| > MAX_ARGUMENTS || |envp| > MAX_ARGUMENTS
    || StringBytes(argv, envp) > MAX_ARGUMENT_BYTES || TotalSize(argv, envp) > USER_STACK_SIZE / 2
  }

  /** Everything in its place: argc at an aligned rsp, the words below the strings, the strings below the top. */
  ghost predicate LaidOut(m: Image) {
    && m.rsp % 16 == 0 && USER_STACK_TOP - USER_STACK_SIZE <= m.rsp && m.words != []
    && m.rsp + 8 * |m.words| <= m.base && m.base + |m.area| == USER_STACK_TOP
  }

  /** The counting loops: how many strings there are and how long they are, or too many. */
  method Measure(strings: seq<seq<Byte>>, before: nat) returns (ok: bool, bytes: nat)
    ensures ok <==> |strings| <= MAX_ARGUMENTS
    ensures ok ==> bytes == before + |Packed(strings)|
  {
    bytes := before;
    assert strings[..0] == [];
    for i := 0 to |strings|
      invariant i <= MAX_ARGUMENTS && bytes == before + |Packed(strings[..i])|
    {
      if i >= MAX_ARGUMENTS { return false, bytes; }
      PackedSplit(strings, i);
      bytes := bytes + |strings[i]| + 1;
    }
    assert strings[..|strings|] == strings;
    ok := true;
  }

  /** `setup_user_stack`, once the stack is mapped; `memory` says whether the image could be allocated. */
  method SetupUserStack(x: Executable, argv: seq<seq<Byte>>, envp: seq<seq<Byte>>, memory: bool)
    returns (r: Result<Image>)
    requires AllPlain(argv) && AllPlain(envp)
    ensures r.Err? ==> r.error == if TooBig(argv, envp) then E2BIG else ENOMEM
    ensures r.Ok? <==> !TooBig(argv, envp) && memory
    ensures r.Ok? ==> LaidOut(r.value) && Decoded(r.value) == Start(|argv|, argv, envp, AuxiliaryVector(x))
    ensures r.Ok? ==> Written(r.value.words, r.value.area, argv, envp, AuxiliaryVector(x), r.value.base)
  {
    r := BuildStack(AuxiliaryVector(x), argv, envp, memory);
  }

  method BuildStack(auxv: seq<Auxiliary>, argv: seq<seq<Byte>>, envp: seq<seq<Byte>>, memory: bool)
    returns (r: Result<Image>)
    requires AllPlain(argv) && AllPlain(envp) && |auxv| == AUXILIARY_COUNT && WellEnded(auxv)
    ensures r.Err? ==> r.error == if TooBig(argv, envp) then E2BIG else ENOMEM
    ensures r.Ok? <==> !TooBig(argv, envp) && memory
    ensures r.Ok? ==> LaidOut(r.value) && Decoded(r.value) == Start(|argv|, argv, envp, auxv)
    ensures r.Ok? ==> Written(r.value.words, r.value.area, argv, envp, auxv, r.value.base)
  {
    var ok, bytes := Measure(argv, 0);
    if !ok { return Err(E2BIG); }
    ok, bytes := Measure(envp, bytes);
    if !ok { return Err(E2BIG); }
    if bytes > MAX_ARGUMENT_BYTES { return Err(E2BIG); }
    var count, stringArea := WordCount(argv, envp), AlignUp(bytes, 16);
    var total := AlignUp(8 * count + stringArea, 16);
    if total > USER_STACK_SIZE / 2 { return Err(E2BIG); }
    if !memory { return Err(ENOMEM); }
    var rsp := USER_STACK_TOP - total;
    var base := rsp + (total - stringArea);
    LayoutFits(bytes, count, stringArea, total, rsp, base);
    var words := new nat[count](_ => 0);
    var area := new Byte[stringArea](_ => 0);
    Fill(words, area, argv, envp, auxv, base);
    var image := Image(rsp, words[..], base, area[..]);
    Readable(image, argv, envp, auxv);
    return Ok(image);
  }

  lemma LayoutFits(bytes: nat, count: nat, stringArea: nat, total: nat, rsp: int, base: int)
    requires stringArea == AlignUp(bytes, 16) && total == AlignUp(8 * count + stringArea, 16) &&
      total <= USER_STACK_SIZE / 2
    requires rsp == USER_STACK_TOP - total && base == rsp + (total - stringArea)
    ensures bytes <= stringArea && rsp % 16 == 0 && USER_STACK_TOP - USER_STACK_SIZE <= rsp && 0 < base
    ensures rsp + 8 * count <= base && base + stringArea == USER_STACK_TOP
  {
    AlignUpBounds(bytes);
    AlignUpBounds(8 * count + stringArea);
    assert USER_STACK_TOP % 16 == 0;
  }

  /** The words and strings of the image, in the order the code writes them. */
  ghost predicate Written(words: seq<nat>, area: seq<Byte>, argv: seq<seq<Byte>>, envp: seq<seq<Byte>>,
    auxv: seq<Auxiliary>, base: nat) {
    && |argv| + |envp| + 3 <= |words| && words[0] == |argv|
    && Points(words, 1, base, argv, 0) && LiesAt(area, 0, argv)
    && Points(words, |argv| + 2, base, envp, |Packed(argv)|) && LiesAt(area, |Packed(argv)|, envp)
    && words[|argv| + |envp| + 3..] == Flattened(auxv)
  }

  method Fill(words: array<nat>, area: array<Byte>, argv: seq<seq<Byte>>, envp: seq<seq<Byte>>, auxv: seq<Auxiliary>,
    base: nat)
    requires words.Length == |argv| + |envp| + 3 + 2 * |auxv| && StringBytes(argv, envp) <= area.Length && auxv != []
    modifies words, area
    ensures Written(words[..], area[..], argv, envp, auxv, base)
  {
    words[0] := |argv|;
    var cursor := WriteStrings(words, 1, area, 0, argv, base);
    ghost var first, strings := words[..], area[..cursor];
    cursor := WriteStrings(words, |argv| + 2, area, cursor, envp, base);
    PointsKept(first, words[..], 1, base, argv, 0, |argv| + 2);
    assert words[0] == first[..|argv| + 2][0];
    ghost var second := words[..];
    WriteAuxiliary(words, |argv| + |envp| + 3, auxv);
    PointsKept(second, words[..], 1, base, argv, 0, |argv| + |envp| + 3);
    PointsKept(second, words[..], |argv| + 2, base, envp, |Packed(argv)|, |argv| + |envp| + 3);
    assert words[0] == second[..|argv| + |envp| + 3][0];
    assert area[..][0..|Packed(argv)|] == area[..|Packed(argv)|];
    assert area[..][|Packed(argv)|..cursor] == area[|Packed(argv)|..cursor];
    assert words[..][|argv| + |envp| + 3..] == words[|argv| + |envp| + 3..];
  }

  /** The auxiliary vector fills the rest of the words. */
  method WriteAuxiliary(words: array<nat>, at: nat, auxv: seq<Auxiliary>)
    requires at + 2 * |auxv| == words.Length && auxv != []
    modifies words
    ensures words[..at] == old(words[..at]) && words[at..] == Flattened(auxv)
  {
    for i := 0 to |auxv|
      invariant words[..at] == old(words[..at])
      invariant forall k :: 0 <= k < i ==> words[at + 2 * k] == auxv[k].kind && words[at + 2 * k + 1] == auxv[k].value
    {
      words[at + 2 * i] := auxv[i].kind;
      words[at + 2 * i + 1] := auxv[i].value;
    }
    FlattenedAt(auxv, 0);
    forall j | 0 <= j < 2 * |auxv| ensures words[at + j] == Flattened(auxv)[j] {
      FlattenedAt(auxv, j / 2);
      assert j == 2 * (j / 2) || j == 2 * (j / 2) + 1;
    }
  }

  lemma Readable(m: Image, argv: seq<seq<Byte>>, envp: seq<seq<Byte>>, auxv: seq<Auxiliary>)
    requires m.base > 0 && AllPlain(argv) && AllPlain(envp) && WellEnded(auxv)
    requires Written(m.words, m.area, argv, envp, auxv, m.base)
    ensures Decoded(m) == Start(|argv|, argv, envp, auxv)
  {
    StringsRead(m, 1, argv, 0);
    StringsRead(m, |argv| + 2, envp, |Packed(argv)|);
    AuxiliariesRead(m, |argv| + |envp| + 3, auxv);
  }
}
