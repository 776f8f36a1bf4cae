/**
 * The start-up stack in the memory of the new space: mapped, written as bytes, and read again the way a
 * program reads it, through the page tables.
 */
module ProgramStart {
  import opened Base
  import opened PageTables
  import opened PageMaps
  import opened Cloning
  import opened Rollback
  import opened Isolation
  import opened AddressSpaces
  import opened UserCopy
  import opened UserStack

  // --- words as bytes

  function Limit(n: nat): nat {
    if n == 0 then 1 else 256 * Limit(n - 1)
  }

  function ToBytes(w: nat, n: nat): (b: seq<Byte>)
    ensures |b| == n
  {
    if n == 0 then [] else [w % 256] + ToBytes(w / 256, n - 1)
  }

  function FromBytes(b: seq<Byte>): nat {
    if b == [] then 0 else b[0] + 256 * FromBytes(b[1..])
  }

  lemma {:induction false} BytesRoundTrip(w: nat, n: nat)
    requires w < Limit(n)
    ensures FromBytes(ToBytes(w, n)) == w
  {
    if n > 0 {
      BytesRoundTrip(w / 256, n - 1);
      assert ToBytes(w, n)[1..] == ToBytes(w / 256, n - 1);
    }
  }

  function WordBytes(words: seq<nat>): (b: seq<Byte>)
    ensures |b| == 8 * |words|
  {
    if words == [] then [] else ToBytes(words[0], 8) + WordBytes(words[1..])
  }

  lemma {:induction false} WordAt(words: seq<nat>, i: nat)
    requires i < |words|
    ensures WordBytes(words)[8 * i..8 * i + 8] == ToBytes(words[i], 8)
  {
    var first, rest := ToBytes(words[0], 8), WordBytes(words[1..]);
    assert WordBytes(words) == first + rest;
    if i == 0 {
      assert (first + rest)[0..8] == first;
    } else {
      WordAt(words[1..], i - 1);
      assert (first + rest)[8 * i..8 * i + 8] == rest[8 * (i - 1)..8 * (i - 1) + 8];
    }
  }

  /** The image as the code copies it: words, a gap up to the strings, strings. */
  function ImageBytes(m: Image): (b: seq<Byte>)
    requires m.rsp + 8 * |m.words| <= m.base
    ensures |b| == m.base - m.rsp + |m.area|
  {
    WordBytes(m.words) + seq(m.base - m.rsp - 8 * |m.words|, _ => 0) + m.area
  }

  // --- how a program reads its memory

  /** The program finds these bytes there. */
  ghost predicate Reads(s: State, sp: nat, a: nat, bytes: seq<Byte>)
    requires sp in s.spaces
  {
    forall k {:trigger bytes[k]} :: 0 <= k < |bytes| ==> ReadByte(s, sp, a + k) == Some(bytes[k])
  }

  lemma ReadsPart(s: State, sp: nat, a: nat, bytes: seq<Byte>, from: nat, to: nat)
    requires sp in s.spaces && Reads(s, sp, a, bytes) && from <= to <= |bytes|
    ensures Reads(s, sp, a + from, bytes[from..to])
  {
    forall k | 0 <= k < to - from ensures ReadByte(s, sp, a + from + k) == Some(bytes[from..to][k]) {
      assert bytes[from..to][k] == bytes[from + k];
    }
  }

  ghost predicate ReadsEight(s: State, sp: nat, a: nat, b: seq<Byte>)
    requires sp in s.spaces
  {
    |b| == 8 && Reads(s, sp, a, b)
  }

  /** A word of eight bytes; `None` if the program faults. */
  ghost function LoadWord(s: State, sp: nat, a: nat): Option<nat>
    requires sp in s.spaces
  {
    if exists b :: ReadsEight(s, sp, a, b) then
      var b :| ReadsEight(s, sp, a, b);
      Some(FromBytes(b))
    else None
  }

  /** The characters up to the next null. */
  ghost function LoadText(s: State, sp: nat, a: nat): Option<seq<Byte>>
    requires sp in s.spaces
    decreases USER_STACK_TOP - a
  {
    if a >= USER_STACK_TOP || ReadByte(s, sp, a).None? then None
    else if ReadByte(s, sp, a).value == 0 then Some([])
    else
      match LoadText(s, sp, a + 1)
      case None => None
      case Some(rest) => Some([ReadByte(s, sp, a).value] + rest)
  }

  /** What memory looks like to a program: the word and the string at each address, `None` where it faults. */
  datatype View = View(word: nat -> Option<nat>, text: nat -> Option<seq<Byte>>)

  ghost function ViewOf(s: State, sp: nat): View
    requires sp in s.spaces
  {
    View(a => LoadWord(s, sp, a), a => LoadText(s, sp, a))
  }

  /** The strings of a vector of pointers that ends in null, and where the next thing begins. */
  function LoadTexts(v: View, at: nat): Option<(seq<seq<Byte>>, nat)>
    decreases USER_STACK_TOP - at
  {
    if at >= USER_STACK_TOP || v.word(at).None? then None
    else if v.word(at).value == 0 then Some(([], at + 8))
    else
      var text, more := v.text(v.word(at).value), LoadTexts(v, at + 8);
      if text.None? || more.None? then None else Some(([text.value] + more.value.0, more.value.1))
  }

  /** The entries before the null entry, and that one. */
  function LoadPairs(v: View, at: nat): Option<seq<Auxiliary>>
    decreases USER_STACK_TOP - at
  {
    if at >= USER_STACK_TOP || v.word(at).None? || v.word(at + 8).None? then None
    else
      var entry := Auxiliary(v.word(at).value, v.word(at + 8).value);
      if entry.kind == 0 then Some([entry])
      else
        match LoadPairs(v, at + 16)
        case None => None
        case Some(rest) => Some([entry] + rest)
  }

  function Seen(v: View, rsp: nat): Option<Start> {
    var argc, argv := v.word(rsp), LoadTexts(v, rsp + 8);
    if argc.None? || argv.None? then None
    else
      var envp := LoadTexts(v, argv.value.1);
      if envp.None? then None
      else
        var auxv := LoadPairs(v, envp.value.1);
        if auxv.None? then None else Some(Start(argc.value, argv.value.0, envp.value.0, auxv.value))
  }

  /** What a program that starts with that stack pointer finds; `None` if it faults on the way. */
  ghost function ProgramSees(s: State, sp: nat, rsp: nat): Option<Start>
    requires sp in s.spaces
  {
    Seen(ViewOf(s, sp), rsp)
  }

  // --- reading the image

  lemma {:induction false} WordReads(s: State, sp: nat, a: nat, w: nat)
    requires sp in s.spaces && Reads(s, sp, a, ToBytes(w, 8)) && w < Limit(8)
    ensures LoadWord(s, sp, a) == Some(w)
  {
    var b := ToBytes(w, 8);
    assert ReadsEight(s, sp, a, b);
    forall c | ReadsEight(s, sp, a, c) ensures c == b {
      forall k | 0 <= k < 8 ensures c[k] == b[k] { assert ReadByte(s, sp, a + k) == Some(c[k]); }
    }
    BytesRoundTrip(w, 8);
  }

  lemma {:induction false} TextReads(s: State, sp: nat, a: nat, text: seq<Byte>)
    requires sp in s.spaces && Reads(s, sp, a, text + [0]) && NoNulls(text) && a + |text| < USER_STACK_TOP
    ensures LoadText(s, sp, a) == Some(text)
    decreases |text|
  {
    assert (text + [0])[0] == if text == [] then 0 else text[0];
    if text != [] {
      ReadsPart(s, sp, a, text + [0], 1, |text| + 1);
      assert (text + [0])[1..|text| + 1] == text[1..] + [0];
      TextReads(s, sp, a + 1, text[1..]);
      assert [text[0]] + text[1..] == text;
    }
  }

  /** The image lies in the space, and its words fit eight bytes. */
  ghost predicate InSpace(s: State, sp: nat, m: Image) {
    && sp in s.spaces && LaidOut(m) && Reads(s, sp, m.rsp, ImageBytes(m))
    && forall i :: 0 <= i < |m.words| ==> m.words[i] < Limit(8)
  }

  lemma {:induction false} ImageWord(s: State, sp: nat, m: Image, i: nat)
    requires InSpace(s, sp, m) && i < |m.words|
    ensures LoadWord(s, sp, m.rsp + 8 * i) == Some(m.words[i])
  {
    var bytes := ImageBytes(m);
    ReadsPart(s, sp, m.rsp, bytes, 8 * i, 8 * i + 8);
    WordAt(m.words, i);
    assert bytes[8 * i..8 * i + 8] == WordBytes(m.words)[8 * i..8 * i + 8];
    WordReads(s, sp, m.rsp + 8 * i, m.words[i]);
  }

  /** A string, with its null, lies in the area from there. */
  ghost predicate TextAt(area: seq<Byte>, from: nat, text: seq<Byte>) {
    from + |text| < |area| && area[from..from + |text| + 1] == text + [0] && NoNulls(text)
  }

  lemma {:induction false} ImageText(s: State, sp: nat, m: Image, from: nat, text: seq<Byte>)
    requires InSpace(s, sp, m) && TextAt(m.area, from, text)
    ensures LoadText(s, sp, m.base + from) == Some(text)
  {
    var bytes, start := ImageBytes(m), m.base - m.rsp + from;
    ReadsPart(s, sp, m.rsp, bytes, start, start + |text| + 1);
    assert bytes[start..start + |text| + 1] == m.area[from..from + |text| + 1];
    TextReads(s, sp, m.base + from, text);
  }

  /** The view has the image's words and strings. */
  ghost predicate Shows(v: View, m: Image) {
    && (forall i {:trigger m.words[i]} :: 0 <= i < |m.words| ==> v.word(m.rsp + 8 * i) == Some(m.words[i]))
    && (forall from: nat, text {:trigger TextAt(m.area, from, text)} :: TextAt(m.area, from, text) ==>
          v.text(m.base + from) == Some(text))
  }

  lemma {:induction false} ImageShows(s: State, sp: nat, m: Image)
    requires InSpace(s, sp, m)
    ensures Shows(ViewOf(s, sp), m)
  {
    var v := ViewOf(s, sp);
    forall i | 0 <= i < |m.words| ensures v.word(m.rsp + 8 * i) == Some(m.words[i]) {
      ImageWord(s, sp, m, i);
    }
    forall from: nat, text | TextAt(m.area, from, text) ensures v.text(m.base + from) == Some(text) {
      ImageText(s, sp, m, from, text);
    }
  }

  lemma {:induction false} FirstText(area: seq<Byte>, from: nat, strings: seq<seq<Byte>>)
    requires LiesAt(area, from, strings) && strings != []
    ensures from + |strings[0]| < |area| && area[from..from + |strings[0]| + 1] == strings[0] + [0]
    ensures LiesAt(area, from + |strings[0]| + 1, strings[1..])
  {
    var s, rest, packed := strings[0], Packed(strings[1..]), Packed(strings);
    var part := area[from..from + |packed|];
    assert part == packed && packed == s + [0] + rest;
    assert area[from..from + |s| + 1] == part[..|s| + 1] && packed[..|s| + 1] == s + [0];
    var next := from + |s| + 1;
    assert area[next..next + |rest|] == part[|s| + 1..] && packed[|s| + 1..] == rest;
  }

  lemma {:induction false} TextsRead(v: View, m: Image, at: nat, strings: seq<seq<Byte>>, from: nat)
    requires Shows(v, m) && LaidOut(m) && m.base > 0 && AllPlain(strings) && LiesAt(m.area, from, strings)
    requires Points(m.words, at, m.base, strings, from)
    ensures LoadTexts(v, m.rsp + 8 * at) == Some((strings, m.rsp + 8 * (at + |strings| + 1)))
    decreases |strings|
  {
    if strings == [] {
      assert m.words[at] == 0;
    } else {
      PointsRest(m.words, at, m.base, strings, from);
      FirstText(m.area, from, strings);
      assert m.words[at] == m.base + from && TextAt(m.area, from, strings[0]);
      TextsRead(v, m, at + 1, strings[1..], from + |strings[0]| + 1);
      assert [strings[0]] + strings[1..] == strings;
    }
  }

  lemma {:induction false} FlatFirst(words: seq<nat>, at: nat, auxv: seq<Auxiliary>)
    requires at <= |words| && WellEnded(auxv) && words[at..] == Flattened(auxv)
    ensures at + 1 < |words| && words[at] == auxv[0].kind && words[at + 1] == auxv[0].value
    ensures words[at + 2..] == Flattened(auxv[1..])
  {
    var flat := Flattened(auxv);
    assert flat == [auxv[0].kind, auxv[0].value] + Flattened(auxv[1..]);
    assert words[at..][0] == flat[0] && words[at..][1] == flat[1];
    assert words[at + 2..] == words[at..][2..];
  }

  lemma {:induction false} PairsRead(v: View, m: Image, at: nat, auxv: seq<Auxiliary>)
    requires Shows(v, m) && LaidOut(m) && at <= |m.words| && WellEnded(auxv) && m.words[at..] == Flattened(auxv)
    ensures LoadPairs(v, m.rsp + 8 * at) == Some(auxv)
    decreases |auxv|
  {
    FlatFirst(m.words, at, auxv);
    if |auxv| > 1 {
      PairsRead(v, m, at + 2, auxv[1..]);
      assert [auxv[0]] + auxv[1..] == auxv;
    } else {
      assert auxv == [auxv[0]];
    }
  }

  /** A program in a space that holds the image finds what the image was made from. */
  lemma {:induction false} ProgramReads(s: State, sp: nat, m: Image, argv: seq<seq<Byte>>, envp: seq<seq<Byte>>,
    auxv: seq<Auxiliary>)
    requires InSpace(s, sp, m) && m.base > 0 && AllPlain(argv) && AllPlain(envp) && WellEnded(auxv)
    requires Written(m.words, m.area, argv, envp, auxv, m.base)
    ensures ProgramSees(s, sp, m.rsp) == Some(Start(|argv|, argv, envp, auxv))
  {
    ImageShows(s, sp, m);
    ViewReads(ViewOf(s, sp), m, argv, envp, auxv);
  }

  lemma {:induction false} ViewReads(v: View, m: Image, argv: seq<seq<Byte>>, envp: seq<seq<Byte>>,
    auxv: seq<Auxiliary>)
    requires Shows(v, m) && LaidOut(m) && m.base > 0 && AllPlain(argv) && AllPlain(envp) && WellEnded(auxv)
    requires Written(m.words, m.area, argv, envp, auxv, m.base)
    ensures Seen(v, m.rsp) == Some(Start(|argv|, argv, envp, auxv))
  {
    assert v.word(m.rsp + 8 * 0) == Some(m.words[0]);
    TextsRead(v, m, 1, argv, 0);
    TextsRead(v, m, |argv| + 2, envp, |Packed(argv)|);
    PairsRead(v, m, |argv| + |envp| + 3, auxv);
  }

  // --- the words fit

  ghost predicate FitWords(words: seq<nat>) {
    forall i :: 0 <= i < |words| ==> words[i] < Limit(8)
  }

  lemma LimitIs()
    ensures Limit(8) == 0x1_0000_0000_0000_0000
  {
    assert Limit(4) == 0x1_0000_0000;
  }

  ghost predicate FitPairs(auxv: seq<Auxiliary>) {
    forall i :: 0 <= i < |auxv| ==> auxv[i].kind < Limit(8) && auxv[i].value < Limit(8)
  }

  lemma {:induction false} WordsFit(m: Image, argv: seq<seq<Byte>>, envp: seq<seq<Byte>>, auxv: seq<Auxiliary>)
    requires LaidOut(m) && Written(m.words, m.area, argv, envp, auxv, m.base) && FitPairs(auxv) && auxv != []
    requires |argv| <= MAX_ARGUMENTS
    ensures FitWords(m.words)
  {
    LimitIs();
    forall i | 0 <= i < |m.words| ensures m.words[i] < Limit(8) {
      if 1 <= i <= |argv| + 1 {
        PointerFits(m, 1, argv, 0, i - 1);
      } else if |argv| + 2 <= i <= |argv| + |envp| + 2 {
        PointerFits(m, |argv| + 2, envp, |Packed(argv)|, i - |argv| - 2);
      } else if i >= |argv| + |envp| + 3 {
        var j := i - (|argv| + |envp| + 3);
        assert m.words[i] == Flattened(auxv)[j];
        FlattenedAt(auxv, 0);
        FlattenedAt(auxv, j / 2);
        assert j == 2 * (j / 2) || j == 2 * (j / 2) + 1;
      }
    }
  }

  lemma {:induction false} PointerFits(m: Image, at: nat, strings: seq<seq<Byte>>, from: nat, i: nat)
    requires LaidOut(m) && Points(m.words, at, m.base, strings, from) && LiesAt(m.area, from, strings)
    requires i <= |strings|
    ensures m.words[at + i] <= USER_STACK_TOP
  {
    if i < |strings| {
      assert PointsTo(m.words, at, m.base, Offsets(strings, from), i);
      OffsetAt(strings, from, i);
      PackedPrefix(strings, i);
    }
  }

  // --- the code

  const STACK_FIRST: nat := (USER_STACK_TOP - USER_STACK_SIZE) / 4096
  const STACK_PAGES: nat := USER_STACK_SIZE / 4096
  const STACK_FLAGS: Flags := Flags(true, true, false, false, true, 0)

  ghost predicate Words64(x: Executable) {
    x.phdrAddress < Limit(8) && x.phdrEntrySize < Limit(8) && x.phdrCount < Limit(8) && x.entry < Limit(8)
  }

  lemma AuxiliaryFits(x: Executable)
    requires Words64(x)
    ensures FitPairs(AuxiliaryVector(x))
  {
    LimitIs();
  }

  /** Every page from there to the top of the stack is mapped, and none is foreign. */
  lemma StackMapped(s0: State, s: State, sp: nat, a: nat, length: nat)
    requires sp in s0.spaces && sp in s.spaces && Filled(s0, s, sp, STACK_FIRST, STACK_PAGES, STACK_FLAGS)
    requires forall n :: n in PageMap(s0, sp) && InRange(n, STACK_FIRST, STACK_PAGES) ==>
      !PageMap(s0, sp)[n].flags.foreign
    requires USER_STACK_TOP - USER_STACK_SIZE <= a && a + length <= USER_STACK_TOP
    ensures AllMapped(s, sp, a, length) && NoneForeign(s, sp, a, length)
  {
    forall b: nat | a <= b < a + length
      ensures b / 4096 in PageMap(s, sp) && !PageMap(s, sp)[b / 4096].flags.foreign
    {
      assert InRange(b / 4096, STACK_FIRST, STACK_PAGES);
    }
  }

  ghost predicate OtherReads(s0: State, s: State, q: nat, a: nat)
    requires q in s0.spaces
  {
    q in s.spaces && ReadByte(s, q, a) == ReadByte(s0, q, a)
  }

  /** Whatever another space could read it still reads. */
  ghost predicate OthersRead(s0: State, s: State, sp: nat) {
    forall q, a: nat {:trigger OtherReads(s0, s, q, a)} :: q in s0.spaces && q != sp ==> OtherReads(s0, s, q, a)
  }

  lemma FillingUnseen(s0: State, t0: Tree, s: State, sp: nat)
    requires Inv(s0, t0) && OnlySpace(s0, s, sp) && MemoryKept(s0, s)
    ensures OthersRead(s0, s, sp)
  {
    forall q, a: nat | q in s0.spaces && q != sp ensures OtherReads(s0, s, q, a) {
      if a / 4096 in PageMap(s0, q) { MappedHasData(s0, t0, q, a / 4096); }
    }
  }

  /**
   * `setup_user_stack`. It succeeds exactly when the pages can be had, the strings are not too big and the
   * buffer can be had; then a program that starts with that stack pointer finds its arguments, its
   * environment and the auxiliary vector, and no other space reads anything new.
   */
  method SetUp(m: AddressSpaces, sp: nat, x: Executable, argv: seq<seq<Byte>>, envp: seq<seq<Byte>>, memory: bool)
    returns (r: Result<nat>)
    requires m.Valid() && sp in m.st.spaces && AllPlain(argv) && AllPlain(envp) && Words64(x)
    requires forall n :: n in PageMap(m.st, sp) && InRange(n, STACK_FIRST, STACK_PAGES) ==>
      !PageMap(m.st, sp)[n].flags.foreign
    modifies m
    ensures m.Valid() && sp in m.st.spaces && OthersRead(old(m.st), m.st, sp)
    ensures r.Ok? <==> old(StackAffordable(m, sp)) && !TooBig(argv, envp) && memory
    ensures r.Err? ==> r.error == if old(StackAffordable(m, sp)) && TooBig(argv, envp) then E2BIG else ENOMEM
    ensures r.Ok? ==>
      r.value % 16 == 0 && ProgramSees(m.st, sp, r.value) == Some(Start(|argv|, argv, envp, AuxiliaryVector(x)))
  {
    ghost var s0, t0 := m.st, m.tree;
    var mapped := m.MapAnonymous(sp, STACK_FIRST, STACK_PAGES, STACK_FLAGS);
    FillingUnseen(s0, t0, m.st, sp);
    if mapped.Err? { return Err(mapped.error); }
    ghost var s1 := m.st;
    r := Place(m, sp, x, argv, envp, memory, s0);
    OthersStillRead(s0, s1, m.st, sp);
  }

  lemma OthersStillRead(s0: State, s1: State, s2: State, sp: nat)
    requires OthersRead(s0, s1, sp) && OthersRead(s1, s2, sp)
    ensures OthersRead(s0, s2, sp)
  {
    forall q, a: nat | q in s0.spaces && q != sp ensures OtherReads(s0, s2, q, a) {
      assert OtherReads(s0, s1, q, a) && OtherReads(s1, s2, q, a);
    }
  }

  /** `setup_user_stack` once the stack is mapped. */
  method Place(m: AddressSpaces, sp: nat, x: Executable, argv: seq<seq<Byte>>, envp: seq<seq<Byte>>, memory: bool,
    ghost s0: State)
    returns (r: Result<nat>)
    requires m.Valid() && sp in m.st.spaces && sp in s0.spaces && AllPlain(argv) && AllPlain(envp) && Words64(x)
    requires Filled(s0, m.st, sp, STACK_FIRST, STACK_PAGES, STACK_FLAGS)
    requires forall n :: n in PageMap(s0, sp) && InRange(n, STACK_FIRST, STACK_PAGES) ==>
      !PageMap(s0, sp)[n].flags.foreign
    modifies m
    ensures m.Valid() && sp in m.st.spaces && OthersRead(old(m.st), m.st, sp)
    ensures r.Ok? <==> !TooBig(argv, envp) && memory
    ensures r.Err? ==> r.error == if TooBig(argv, envp) then E2BIG else ENOMEM
    ensures r.Ok? ==>
      r.value % 16 == 0 && ProgramSees(m.st, sp, r.value) == Some(Start(|argv|, argv, envp, AuxiliaryVector(x)))
  {
    var image := SetupUserStack(x, argv, envp, memory);
    if image.Err? { return Err(image.error); }
    CopyImage(m, sp, image.value, s0);
    ImageSeen(m.st, sp, image.value, x, argv, envp);
    return Ok(image.value.rsp);
  }

  lemma {:induction false} ImageSeen(s: State, sp: nat, m: Image, x: Executable, argv: seq<seq<Byte>>,
    envp: seq<seq<Byte>>)
    requires sp in s.spaces && LaidOut(m) && Reads(s, sp, m.rsp, ImageBytes(m)) && |argv| <= MAX_ARGUMENTS
    requires AllPlain(argv) && AllPlain(envp) && Words64(x)
    requires Written(m.words, m.area, argv, envp, AuxiliaryVector(x), m.base)
    ensures ProgramSees(s, sp, m.rsp) == Some(Start(|argv|, argv, envp, AuxiliaryVector(x)))
  {
    AuxiliaryFits(x);
    WordsFit(m, argv, envp, AuxiliaryVector(x));
    ProgramReads(s, sp, m, argv, envp, AuxiliaryVector(x));
  }

  /** The frames the stack needs are free. */
  ghost predicate StackAffordable(m: AddressSpaces, sp: nat)
    requires sp in m.st.spaces
    reads m
  {
    Bill(PageMap(m.st, sp), m.tree.node.Keys, sp, STACK_FIRST)(STACK_PAGES) <= |m.st.free|
  }

  /** The copy cannot fail: the stack is mapped. */
  method CopyImage(m: AddressSpaces, sp: nat, image: Image, ghost s0: State)
    requires m.Valid() && sp in m.st.spaces && sp in s0.spaces && LaidOut(image)
    requires Filled(s0, m.st, sp, STACK_FIRST, STACK_PAGES, STACK_FLAGS)
    requires forall n :: n in PageMap(s0, sp) && InRange(n, STACK_FIRST, STACK_PAGES) ==>
      !PageMap(s0, sp)[n].flags.foreign
    modifies m
    ensures m.Valid() && sp in m.st.spaces && Reads(m.st, sp, image.rsp, ImageBytes(image))
    ensures OthersRead(old(m.st), m.st, sp)
  {
    var bytes := ImageBytes(image);
    StackMapped(s0, m.st, sp, image.rsp, |bytes|);
    var r := CopyInto(m, sp, image.rsp, bytes);
  }
}
