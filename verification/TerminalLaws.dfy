/** What a terminal shows for what is sent to it, in terms of cells and the cursor. */
module TerminalLaws {
  import opened Base
  import opened TerminalSpec

  /** The cell on the screen at that row and column. */
  function At(t: Term, rows: nat, y: int, x: int): Cell
    requires 0 <= y < rows <= |t.history| && 0 <= x < |t.history[|t.history| - rows + y]|
  {
    t.history[|t.history| - rows + y][x]
  }

  // --- numbers in control sequences

  function Decimal(n: nat): seq<Byte> {
    if n < 10 then [0x30 + n] else Decimal(n / 10) + [0x30 + n % 10]
  }

  /** Which parameter the next digit belongs to. */
  function Current(core: Core): nat {
    if core.count == 0 then 0 else core.count - 1
  }

  function WithNumber(t: Term, n: nat): Term
    requires |t.core.parameters| == MAX_PARAMETERS && t.core.count <= MAX_PARAMETERS
  {
    var i := Current(t.core);
    t.(core := t.core.(count := i + 1, parameters := t.core.parameters[i := n]))
  }

  lemma OneByte(t: Term, c: Byte, columns: nat, rows: nat)
    requires TermOk(t, columns, rows)
    ensures FedAll(t, [c], columns, rows) == Fed(t, c, columns, rows)
  {
    FedOk(t, c, columns, rows);
    assert [c][1..] == [];
  }

  /** The digits of a number are that number. */
  lemma {:induction false} NumberFed(t: Term, n: nat, columns: nat, rows: nat)
    requires TermOk(t, columns, rows) && t.core.state == Csi && t.core.parameters[Current(t.core)] == 0
    ensures FedAll(t, Decimal(n), columns, rows) == WithNumber(t, n) && TermOk(WithNumber(t, n), columns, rows)
  {
    if n < 10 {
      assert t.core.parameters[Current(t.core) := 0] == t.core.parameters;
      DigitFed(t, t, 0, n, columns, rows);
      OneByte(t, 0x30 + n, columns, rows);
    } else {
      NumberFed(t, n / 10, columns, rows);
      SplitAnywhere(t, Decimal(n / 10), [0x30 + n % 10], columns, rows);
      DigitFed(t, WithNumber(t, n / 10), n / 10, n % 10, columns, rows);
      OneByte(WithNumber(t, n / 10), 0x30 + n % 10, columns, rows);
    }
  }

  lemma DigitFed(t: Term, t1: Term, n: nat, digit: nat, columns: nat, rows: nat)
    requires TermOk(t1, columns, rows) && |t.core.parameters| == MAX_PARAMETERS && t.core.count <= MAX_PARAMETERS
    requires t.core.state == Csi && digit < 10 && (t1 == WithNumber(t, n) || (t1 == t && n == 0))
    requires t1.core.parameters == t.core.parameters[Current(t.core) := n]
    ensures Fed(t1, 0x30 + digit, columns, rows) == WithNumber(t, n * 10 + digit)
    ensures TermOk(WithNumber(t, n * 10 + digit), columns, rows)
  {
    FedOk(t1, 0x30 + digit, columns, rows);
    var i := Current(t.core);
    assert t1.core.parameters[i := n * 10 + digit] == t.core.parameters[i := n * 10 + digit];
  }

  /** The beginning of a control sequence. */
  function Opened(t: Term): Term
    requires |t.core.parameters| == MAX_PARAMETERS
  {
    t.(core := t.core.(state := Csi, count := 0, marked := false, parameters := t.core.parameters[0 := 0]))
  }

  lemma OpenedFed(t: Term, columns: nat, rows: nat)
    requires TermOk(t, columns, rows) && t.core.state == Ground
    ensures FedAll(t, [0x1B, 0x5B], columns, rows) == Opened(t) && TermOk(Opened(t), columns, rows)
  {
    assert [0x1B, 0x5B] == [0x1B] + [0x5B];
    SplitAnywhere(t, [0x1B], [0x5B], columns, rows);
    OneByte(t, 0x1B, columns, rows);
    OneByte(Fed(t, 0x1B, columns, rows), 0x5B, columns, rows);
  }

  /** A control sequence with one number, and what comes of it before the parser is back where it was. */
  lemma {:induction false} ControlFed(t: Term, n: nat, final: Byte, columns: nat, rows: nat)
    requires TermOk(t, columns, rows) && t.core.state == Ground && Finishes(Opened(t).core, final)
    ensures TermOk(WithNumber(Opened(t), n), columns, rows)
    ensures FedAll(t, [0x1B, 0x5B] + Decimal(n) + [final], columns, rows) ==
      Executed(WithNumber(Opened(t), n), final, columns, rows)
  {
    var lead := [0x1B, 0x5B];
    OpenedFed(t, columns, rows);
    NumberFed(Opened(t), n, columns, rows);
    SplitAnywhere(t, lead, Decimal(n), columns, rows);
    SplitAnywhere(t, lead + Decimal(n), [final], columns, rows);
    OneByte(WithNumber(Opened(t), n), final, columns, rows);
  }

  // --- the cursor

  function AtLeastOne(n: nat): nat {
    if n == 0 then 1 else n
  }

  function Least(a: int, b: int): int {
    if a < b then a else b
  }

  /** Two numbers and the byte that ends the sequence. */
  lemma {:induction false} TwoNumbersFed(t: Term, r: nat, c: nat, final: Byte, columns: nat, rows: nat)
    requires TermOk(t, columns, rows) && t.core.state == Ground && Finishes(Opened(t).core, final)
    ensures var t1 := WithNumber(Opened(t), r);
      var t2 := WithNumber(t1.(core := Separator(t1.core)), c);
      && TermOk(t2, columns, rows)
      && FedAll(t, [0x1B, 0x5B] + Decimal(r) + [0x3B] + Decimal(c) + [final], columns, rows) ==
        Executed(t2, final, columns, rows)
  {
    var lead, t1 := [0x1B, 0x5B] + Decimal(r), WithNumber(Opened(t), r);
    OpenedFed(t, columns, rows);
    NumberFed(Opened(t), r, columns, rows);
    SplitAnywhere(t, [0x1B, 0x5B], Decimal(r), columns, rows);
    SplitAnywhere(t, lead, [0x3B], columns, rows);
    OneByte(t1, 0x3B, columns, rows);
    var t2 := Fed(t1, 0x3B, columns, rows);
    FedOk(t1, 0x3B, columns, rows);
    NumberFed(t2, c, columns, rows);
    SplitAnywhere(t, lead + [0x3B], Decimal(c), columns, rows);
    SplitAnywhere(t, lead + [0x3B] + Decimal(c), [final], columns, rows);
    OneByte(WithNumber(t2, c), final, columns, rows);
  }

  /** `ESC [ r ; c H` puts the cursor on row r and column c, counted from one, or as near as the screen goes. */
  lemma {:induction false} Positioned(t: Term, r: nat, c: nat, final: Byte, columns: nat, rows: nat)
    requires TermOk(t, columns, rows) && t.core.state == Ground && (final == 0x48 || final == 0x66)
    ensures var t' := FedAll(t, [0x1B, 0x5B] + Decimal(r) + [0x3B] + Decimal(c) + [final], columns, rows);
      && t'.core.y == Least(AtLeastOne(r), rows) - 1 && t'.core.x == Least(AtLeastOne(c), columns) - 1
      && t'.history == t.history && t'.core.pen == t.core.pen && t'.core.state == Ground
      && t'.core.savedX == t.core.savedX && t'.core.savedY == t.core.savedY && TermOk(t', columns, rows)
  {
    TwoNumbersFed(t, r, c, final, columns, rows);
  }

  /** The arrows move the cursor that many places, once if none is given, and stop at the edge. */
  lemma {:induction false} Stepped(t: Term, n: nat, final: Byte, columns: nat, rows: nat)
    requires TermOk(t, columns, rows) && t.core.state == Ground && 0x41 <= final <= 0x44
    ensures var t', k := FedAll(t, [0x1B, 0x5B] + Decimal(n) + [final], columns, rows), AtLeastOne(n);
      && t'.history == t.history && t'.core.pen == t.core.pen && t'.core.state == Ground
      && (final == 0x41 ==> t'.core.y == (if k < t.core.y then t.core.y - k else 0))
      && (final == 0x42 ==> t'.core.y == Least(t.core.y + k, rows - 1))
      && (final == 0x43 ==> t'.core.x == Least(t.core.x + k, columns - 1))
      && (final == 0x44 ==> t'.core.x == (if k < t.core.x then t.core.x - k else 0))
      && (final == 0x41 || final == 0x42 ==> t'.core.x == Least(t.core.x, columns - 1))
      && (final == 0x43 || final == 0x44 ==> t'.core.y == t.core.y)
  {
    ControlFed(t, n, final, columns, rows);
  }

  /** `ESC [ n G` and `ESC [ n d` go to a column or a row. */
  lemma {:induction false} Aligned(t: Term, n: nat, final: Byte, columns: nat, rows: nat)
    requires TermOk(t, columns, rows) && t.core.state == Ground && (final == 0x47 || final == 0x64)
    ensures var t' := FedAll(t, [0x1B, 0x5B] + Decimal(n) + [final], columns, rows);
      && t'.history == t.history
      && (final == 0x47 ==> t'.core.x == Least(AtLeastOne(n), columns) - 1 && t'.core.y == t.core.y)
      && (final == 0x64 ==> t'.core.y == Least(AtLeastOne(n), rows) - 1 && t'.core.x == Least(t.core.x, columns - 1))
  {
    ControlFed(t, n, final, columns, rows);
  }

  // --- colours

  /** What a number asks of the pen: one thing about it, and the rest as it was. */
  lemma {:induction false} Rendered(t: Term, n: nat, columns: nat, rows: nat)
    requires TermOk(t, columns, rows) && t.core.state == Ground
    ensures var t', was := FedAll(t, [0x1B, 0x5B] + Decimal(n) + [0x6D], columns, rows), t.core.pen;
      var pen := t'.core.pen;
      && t'.history == t.history && t'.core.y == t.core.y && t'.core.x == Least(t.core.x, columns - 1)
      && pen.foreground == (if 30 <= n <= 37 then n - 30 else if 90 <= n <= 97 then n - 82
           else if n == 0 || n == 39 then -1 else was.foreground)
      && pen.background == (if 40 <= n <= 47 then n - 40 else if 100 <= n <= 107 then n - 92
           else if n == 0 || n == 49 then -1 else was.background)
      && pen.attributes.bold == (n == 1 || (n != 0 && n != 22 && was.attributes.bold))
      && pen.attributes.dim == (n == 2 || (n != 0 && n != 22 && was.attributes.dim))
      && pen.attributes.inverse == (n == 7 || (n != 0 && n != 27 && was.attributes.inverse))
  {
    ControlFed(t, n, 0x6D, columns, rows);
    var core := WithNumber(Opened(t), n).core;
    assert core.parameters[..core.count] == [n];
    assert SgrAll(core.pen, [n]) == Sgr(core.pen, n) by { assert [n][1..] == []; }
  }

  // --- erasing

  /** `ESC [ n K` clears from the cursor on, up to and with the cursor, or the whole line. */
  lemma {:induction false} LineErasedAt(t: Term, n: nat, columns: nat, rows: nat, y: int, x: int)
    requires TermOk(t, columns, rows) && t.core.state == Ground && 0 <= y < rows && 0 <= x < columns
    ensures var t' := FedAll(t, [0x1B, 0x5B] + Decimal(n) + [0x4B], columns, rows);
      && TermOk(t', columns, rows) && |t'.history| == |t.history| && t'.core.y == t.core.y
      && At(t', rows, y, x) ==
        if y == t.core.y && (if n == 0 then x >= t.core.x else if n == 1 then x <= t.core.x else true)
        then Cell(0x20, PLAIN, -1, t.core.pen.background) else At(t, rows, y, x)
  {
    ControlFed(t, n, 0x4B, columns, rows);
    var t1 := WithNumber(Opened(t), n);
    ExecutedOk(t1, 0x4B, columns, rows);
    var mode, row := Parameter(t1.core, 0, 0), t.history[|t.history| - rows + t.core.y];
    assert mode == n;
    var erased := ErasedInLine(row, t1.core, mode);
    assert LineErased(t1, rows, mode).history == t.history[|t.history| - rows + t.core.y := erased];
    assert erased[x] == if (if n == 0 then x >= t.core.x else if n == 1 then x <= t.core.x else true)
      then Blank(t.core.pen) else row[x];
  }

  /** `ESC [ n J` does the same for the screen, and the cursor stays. */
  lemma {:induction false} ScreenErasedAt(t: Term, n: nat, columns: nat, rows: nat, y: int, x: int)
    requires TermOk(t, columns, rows) && t.core.state == Ground && 0 <= y < rows && 0 <= x < columns
    ensures var t' := FedAll(t, [0x1B, 0x5B] + Decimal(n) + [0x4A], columns, rows);
      && TermOk(t', columns, rows) && |t'.history| == |t.history| && t'.core.y == t.core.y
      && At(t', rows, y, x) ==
        if (if n == 0 then y > t.core.y || (y == t.core.y && x >= t.core.x)
            else if n == 1 then y < t.core.y || (y == t.core.y && x <= t.core.x) else true)
        then Cell(0x20, PLAIN, -1, t.core.pen.background) else At(t, rows, y, x)
  {
    ControlFed(t, n, 0x4A, columns, rows);
    var t1 := WithNumber(Opened(t), n);
    ExecutedOk(t1, 0x4A, columns, rows);
    DisplayErasedAt(t1, rows, Parameter(t1.core, 0, 0), |t.history| - rows + y);
    assert Parameter(t1.core, 0, 0) == n;
    var row := t.history[|t.history| - rows + y];
    var erased := ErasedInDisplay(row, y, t1.core, n);
    assert erased[x] == if (if n == 0 then y > t.core.y || (y == t.core.y && x >= t.core.x)
                            else if n == 1 then y < t.core.y || (y == t.core.y && x <= t.core.x) else true)
      then Blank(t.core.pen) else row[x];
  }

  // --- text

  /** A character goes under the cursor, in the pen's colours, and nothing else changes on the screen. */
  lemma CharacterFed(t: Term, c: Byte, columns: nat, rows: nat, y: int, x: int)
    requires TermOk(t, columns, rows) && t.core.state == Ground && c >= 32 && t.core.x < columns
    requires 0 <= y < rows && 0 <= x < columns
    ensures var t' := Fed(t, c, columns, rows);
      && TermOk(t', columns, rows) && |t'.history| == |t.history| && t'.core == t.core.(x := t.core.x + 1)
      && At(t', rows, y, x) ==
        if y == t.core.y && x == t.core.x
        then Cell(c, t.core.pen.attributes, t.core.pen.foreground, t.core.pen.background) else At(t, rows, y, x)
  {
    FedOk(t, c, columns, rows);
  }

  /** A text that fits on the line appears there from the cursor on, and the cursor is behind it. */
  lemma {:induction false} TextFed(t: Term, text: seq<Byte>, columns: nat, rows: nat, y: int, x: int)
    requires TermOk(t, columns, rows) && t.core.state == Ground && t.core.x + |text| <= columns
    requires (forall k :: 0 <= k < |text| ==> text[k] >= 32) && 0 <= y < rows && 0 <= x < columns
    ensures var t' := FedAll(t, text, columns, rows);
      && TermOk(t', columns, rows) && |t'.history| == |t.history| && t'.core == t.core.(x := t.core.x + |text|)
      && At(t', rows, y, x) ==
        if y == t.core.y && t.core.x <= x < t.core.x + |text|
        then Cell(text[x - t.core.x], t.core.pen.attributes, t.core.pen.foreground, t.core.pen.background)
        else At(t, rows, y, x)
    decreases |text|
  {
    if text != [] {
      CharacterFed(t, text[0], columns, rows, y, x);
      TextFed(Fed(t, text[0], columns, rows), text[1..], columns, rows, y, x);
    }
  }

  /** A line feed goes one row down; on the last row the screen moves up instead and a blank row comes in. */
  lemma LineFed(t: Term, columns: nat, rows: nat, y: int)
    requires TermOk(t, columns, rows) && t.core.state == Ground && 0 <= y < rows
    ensures var t' := Fed(t, 10, columns, rows);
      && TermOk(t', columns, rows) && t'.core.x == t.core.x
      && if t.core.y < rows - 1 then t'.history == t.history && t'.core.y == t.core.y + 1
         else
           && t'.core.y == rows - 1 && |t'.history| == |t.history| + 1 && t'.history[..|t.history|] == t.history
           && Screen(t', rows)[y] ==
             if y < rows - 1 then Screen(t, rows)[y + 1]
               else seq(columns, _ => Cell(0x20, PLAIN, -1, t.core.pen.background))
  {
    FedOk(t, 10, columns, rows);
    if t.core.y == rows - 1 {
      var below := t.(core := t.core.(y := rows));
      assert Settled(below, columns, rows) == Term(t.history + [BlankRow(columns, t.core.pen)], t.core);
    }
  }

  /** With the line full the next character begins a new one. */
  lemma {:induction false} WrapIsNewLine(t: Term, c: Byte, columns: nat, rows: nat)
    requires TermOk(t, columns, rows) && t.core.state == Ground && c >= 32 && t.core.x == columns
    ensures Fed(t, c, columns, rows) == FedAll(t, [13, 10, c], columns, rows)
  {
    var t1 := Fed(t, 13, columns, rows);
    FedOk(t, 13, columns, rows);
    FedOk(t1, 10, columns, rows);
    var t2 := Fed(t1, 10, columns, rows);
    assert [13, 10, c][1..] == [10, c] && [10, c][1..] == [c];
    OneByte(t2, c, columns, rows);
  }

  /** A tab goes to the next column that is a multiple of eight, or to the last one. */
  lemma TabFed(t: Term, columns: nat, rows: nat)
    requires TermOk(t, columns, rows) && t.core.state == Ground
    ensures var t' := Fed(t, 9, columns, rows);
      && t'.history == t.history && t'.core.y == t.core.y && t'.core.x <= columns - 1
      && (t'.core.x == columns - 1 || (t.core.x < t'.core.x && t'.core.x % 8 == 0))
      && forall k :: t.core.x < k < t'.core.x ==> k % 8 != 0
  {
  }

  lemma ReturnFed(t: Term, columns: nat, rows: nat)
    requires TermOk(t, columns, rows) && t.core.state == Ground
    ensures Fed(t, 13, columns, rows) == t.(core := t.core.(x := 0))
    ensures Fed(t, 8, columns, rows) == t.(core := t.core.(x := if t.core.x == 0 then 0 else t.core.x - 1))
  {
  }

  /** Saving the cursor, going elsewhere and restoring it: it is back. */
  lemma {:induction false} SavedAndRestored(t: Term, r: nat, c: nat, columns: nat, rows: nat)
    requires TermOk(t, columns, rows) && t.core.state == Ground && t.core.x < columns
    ensures var away := [0x1B, 0x5B] + Decimal(r) + [0x3B] + Decimal(c) + [0x48];
      var t' := FedAll(t, [0x1B, 0x5B, 0x73] + away + [0x1B, 0x5B, 0x75], columns, rows);
      t'.core.x == t.core.x && t'.core.y == t.core.y && t'.history == t.history
  {
    var away := [0x1B, 0x5B] + Decimal(r) + [0x3B] + Decimal(c) + [0x48];
    var save, restore := [0x1B, 0x5B, 0x73], [0x1B, 0x5B, 0x75];
    SplitAnywhere(t, save, away, columns, rows);
    SplitAnywhere(t, save + away, restore, columns, rows);
    BareFed(t, 0x73, columns, rows);
    var t1 := FedAll(t, save, columns, rows);
    Positioned(t1, r, c, 0x48, columns, rows);
    var t2 := FedAll(t1, away, columns, rows);
    BareFed(t2, 0x75, columns, rows);
  }

  lemma {:induction false} BareFed(t: Term, final: Byte, columns: nat, rows: nat)
    requires TermOk(t, columns, rows) && t.core.state == Ground && Finishes(Opened(t).core, final)
    ensures TermOk(Opened(t), columns, rows)
    ensures FedAll(t, [0x1B, 0x5B, final], columns, rows) == Executed(Opened(t), final, columns, rows)
  {
    OpenedFed(t, columns, rows);
    assert [0x1B, 0x5B, final] == [0x1B, 0x5B] + [final];
    SplitAnywhere(t, [0x1B, 0x5B], [final], columns, rows);
    OneByte(Opened(t), final, columns, rows);
  }

  /** `ESC [ ? 25 h` shows the cursor and `ESC [ ? 25 l` hides it; any other private mode does neither. */
  lemma {:induction false} CursorShown(t: Term, n: nat, final: Byte, columns: nat, rows: nat)
    requires TermOk(t, columns, rows) && t.core.state == Ground && (final == 0x68 || final == 0x6C)
    ensures var t' := FedAll(t, [0x1B, 0x5B] + [0x3F] + Decimal(n) + [final], columns, rows);
      t'.core.visible == (if n == 25 then final == 0x68 else t.core.visible) && t'.history == t.history
  {
    var lead := [0x1B, 0x5B] + [0x3F];
    var t1 := Opened(t);
    OpenedFed(t, columns, rows);
    SplitAnywhere(t, [0x1B, 0x5B], [0x3F], columns, rows);
    OneByte(t1, 0x3F, columns, rows);
    var t2 := Fed(t1, 0x3F, columns, rows);
    FedOk(t1, 0x3F, columns, rows);
    NumberFed(t2, n, columns, rows);
    SplitAnywhere(t, lead, Decimal(n), columns, rows);
    SplitAnywhere(t, lead + Decimal(n), [final], columns, rows);
    OneByte(WithNumber(t2, n), final, columns, rows);
  }
}
