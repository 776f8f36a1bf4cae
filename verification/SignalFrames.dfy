/** The interrupt frame, user memory, and what delivering a signal and returning from it do to them. */
module SignalFrames {
  import opened Base

  const WORDS: nat := 0x1_0000_0000_0000_0000

  type Word = n: int | 0 <= n < WORDS

  const USER_SPACE_END: Word := 0x0000_8000_0000_0000
  const USER_CODE: Word := 0x23
  const USER_DATA: Word := 0x1B

  /** Where `rax` and `rdi` lie among the general registers. */
  const RAX: nat := 14
  const RDI: nat := 9

  type General = g: seq<Word> | |g| == 15 witness seq(15, _ => 0)

  /** `general` is r15 to r8, rbp, rdi, rsi, rdx, rcx, rbx, rax, as they lie in memory. */
  datatype Frame = Frame(general: General, vector: Word, errorCode: Word, rip: Word, cs: Word, rflags: bv64, rsp: Word,
    ss: Word)

  // --- user memory

  /** Eight bytes of memory, as a number or as the flags register. */
  datatype Cell = Number(n: Word) | Flags(f: bv64)

  function AsNumber(c: Cell): Word {
    match c case Number(n) => n case Flags(f) => f as int
  }

  function AsFlags(c: Cell): bv64 {
    match c case Number(n) => n as bv64 case Flags(f) => f
  }

  /** What was never written reads as zero. */
  type Memory = map<Word, Cell>

  function Load(m: Memory, a: Word): Cell {
    if a in m then m[a] else Number(0)
  }

  function Store(m: Memory, a: Word, cells: seq<Cell>): Memory
    requires a + 8 * |cells| <= WORDS
    decreases |cells|
  {
    if cells == [] then m else Store(m[a := cells[0]], if |cells| == 1 then a else a + 8, cells[1..])
  }

  function Fetch(m: Memory, a: Word, count: nat): (r: seq<Cell>)
    requires a + 8 * count <= WORDS
    ensures |r| == count
  {
    seq(count, k requires 0 <= k < count => Load(m, a + 8 * k))
  }

  predicate IsCell(a: Word, k: int, b: Word) {
    b == a + 8 * k
  }

  /** A store changes nothing but its cells. */
  lemma {:induction false} StoreSkips(m: Memory, a: Word, cells: seq<Cell>, b: Word)
    requires a + 8 * |cells| <= WORDS && forall k :: 0 <= k < |cells| ==> !IsCell(a, k, b)
    ensures Load(Store(m, a, cells), b) == Load(m, b)
    decreases |cells|
  {
    if cells != [] {
      assert !IsCell(a, 0, b);
      if |cells| > 1 {
        var next: Word := a + 8;
        forall k | 0 <= k < |cells| - 1 ensures !IsCell(next, k, b) { assert !IsCell(a, k + 1, b); }
        StoreSkips(m[a := cells[0]], next, cells[1..], b);
      }
    }
  }

  lemma StoreMisses(m: Memory, a: Word, cells: seq<Cell>, b: Word)
    requires a + 8 * |cells| <= WORDS && (b < a || a + 8 * |cells| <= b)
    ensures Load(Store(m, a, cells), b) == Load(m, b)
  {
    forall k | 0 <= k < |cells| ensures !IsCell(a, k, b) { }
    StoreSkips(m, a, cells, b);
  }

  lemma {:induction false} StoreHits(m: Memory, a: Word, cells: seq<Cell>, k: nat)
    requires a + 8 * |cells| <= WORDS && k < |cells|
    ensures Load(Store(m, a, cells), a + 8 * k) == cells[k]
    decreases |cells|
  {
    if k > 0 {
      StoreHits(m[a := cells[0]], a + 8, cells[1..], k - 1);
    } else if |cells| > 1 {
      StoreMisses(m[a := cells[0]], a + 8, cells[1..], a);
    }
  }

  lemma FetchStored(m: Memory, a: Word, cells: seq<Cell>)
    requires a + 8 * |cells| <= WORDS
    ensures Fetch(Store(m, a, cells), a, |cells|) == cells
  {
    forall k | 0 <= k < |cells| ensures Fetch(Store(m, a, cells), a, |cells|)[k] == cells[k] {
      StoreHits(m, a, cells, k);
    }
  }

  /** A store that stays clear of a stretch leaves it as it was. */
  lemma FetchElsewhere(m: Memory, a: Word, cells: seq<Cell>, b: Word, count: nat)
    requires a + 8 * |cells| <= WORDS && b + 8 * count <= WORDS
    requires a + 8 * |cells| <= b || b + 8 * count <= a
    ensures Fetch(Store(m, a, cells), b, count) == Fetch(m, b, count)
  {
    forall k | 0 <= k < count ensures Fetch(Store(m, a, cells), b, count)[k] == Fetch(m, b, count)[k] {
      StoreMisses(m, a, cells, b + 8 * k);
    }
  }

  // --- a context: the frame and the signal number

  const FRAME_CELLS: nat := 22
  const CONTEXT_SIZE: nat := 184

  function Numbers(words: seq<Word>): (cells: seq<Cell>)
    ensures |cells| == |words|
  {
    seq(|words|, k requires 0 <= k < |words| => Number(words[k]))
  }

  function Cells(f: Frame): (cells: seq<Cell>)
    ensures |cells| == FRAME_CELLS
  {
    Numbers(f.general) + [Number(f.vector), Number(f.errorCode), Number(f.rip), Number(f.cs), Flags(f.rflags),
      Number(f.rsp), Number(f.ss)]
  }

  function FrameOf(cells: seq<Cell>): Frame
    requires |cells| == FRAME_CELLS
  {
    Frame(seq(15, k requires 0 <= k < 15 => AsNumber(cells[k])),
          AsNumber(cells[15]), AsNumber(cells[16]), AsNumber(cells[17]), AsNumber(cells[18]),
          AsFlags(cells[19]), AsNumber(cells[20]), AsNumber(cells[21]))
  }

  lemma FrameRoundTrip(f: Frame)
    ensures FrameOf(Cells(f)) == f
  {
    assert FrameOf(Cells(f)).general == f.general;
  }

  // --- the two frames a handler comes with

  function Wrapped(n: int): Word {
    n % WORDS
  }

  function WithRax(f: Frame, value: Word): Frame {
    f.(general := f.general[RAX := value])
  }

  /** The interrupted call put back, to run again. */
  function Rewound(f: Frame, number: Word): Frame {
    WithRax(f, number).(rip := Wrapped(f.rip - 2))
  }

  /** The frame `sigreturn` makes of a saved one: selectors forced, flags masked. */
  function Sanitized(saved: Frame, vector: Word): Frame {
    saved.(cs := USER_CODE, ss := USER_DATA, rflags := (saved.rflags & 0xCD5) | 0x202, vector := vector, errorCode := 0)
  }

  /** General registers, rip, rsp and the arithmetic flags are those saved, whatever the rest is. */
  ghost predicate SameToUser(f: Frame, g: Frame) {
    f.general == g.general && f.rip == g.rip && f.rsp == g.rsp && f.rflags & 0xCD5 == g.rflags & 0xCD5
  }

  lemma SanitizedSame(saved: Frame, vector: Word)
    ensures SameToUser(Sanitized(saved, vector), saved)
    ensures Sanitized(saved, vector).rflags & 0x202 == 0x202 && Sanitized(saved, vector).rflags & !0xED7 == 0
  {
  }

  /** Where the context goes: below the red zone, aligned. */
  function ContextAt(rsp: Word): Word {
    var top := Wrapped(rsp - 128);
    Wrapped(top - top % 16 - CONTEXT_SIZE)
  }

  /** `copy_to_user` takes the range: it does not wrap, lies in the user half and is mapped. */
  predicate Reachable(a: Word, length: nat, mapped: bool) {
    mapped && a + length <= USER_SPACE_END
  }

  predicate PushFits(rsp: Word, mapped: bool) {
    Reachable(ContextAt(rsp), CONTEXT_SIZE, mapped) && Reachable(Wrapped(ContextAt(rsp) - 8), 8, mapped)
  }

  /** When the push fits nothing wrapped, and all of it lies below the red zone. */
  lemma PushPlace(rsp: Word)
    requires PushFits(rsp, true)
    ensures var c := ContextAt(rsp);
      8 <= c && c + CONTEXT_SIZE <= rsp - 128 < c + CONTEXT_SIZE + 16 && (c + CONTEXT_SIZE) % 16 == 0 &&
        Wrapped(c - 8) == c - 8 && (c - 8) % 16 == 0
  {
  }
}
