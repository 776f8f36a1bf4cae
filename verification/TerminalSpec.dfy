/**
 * What a byte does to a terminal whose history of rows is never cut off: the last rows of it are
 * the screen. The ring that the widget keeps is measured against this.
 */
module TerminalSpec {
  import opened Base

  const MAX_PARAMETERS: nat := 16

  datatype Attributes = Attributes(bold: bool, inverse: bool, dim: bool)

  const PLAIN := Attributes(false, false, false)

  /** Colours are palette indices, or -1 for the default. */
  datatype Cell = Cell(ch: Byte, attributes: Attributes, foreground: int, background: int)

  type Row = seq<Cell>

  datatype Pen = Pen(attributes: Attributes, foreground: int, background: int)

  datatype Parser = Ground | Escape | Csi | Osc

  /** Everything but the grid. */
  datatype Core = Core(
    x: int, y: int, savedX: int, savedY: int, visible: bool, pen: Pen,
    state: Parser, parameters: seq<int>, count: nat, marked: bool)

  datatype Term = Term(history: seq<Row>, core: Core)

  // bytes that mean something, by their place in ASCII
  const ESC: Byte := 0x1B
  const UP: Byte := 0x41
  const DOWN: Byte := 0x42
  const RIGHT: Byte := 0x43
  const LEFT: Byte := 0x44
  const TO_COLUMN: Byte := 0x47
  const TO_ROW: Byte := 0x64
  const TO_POSITION: Byte := 0x48
  const TO_POSITION_TOO: Byte := 0x66
  const ERASE_DISPLAY: Byte := 0x4A
  const ERASE_LINE: Byte := 0x4B
  const RENDITION: Byte := 0x6D
  const SET_MODE: Byte := 0x68
  const RESET_MODE: Byte := 0x6C
  const SAVE: Byte := 0x73
  const RESTORE: Byte := 0x75
  const ZERO: Byte := 0x30
  const NINE: Byte := 0x39
  const SEMICOLON: Byte := 0x3B
  const QUESTION: Byte := 0x3F
  const BRACKET: Byte := 0x5B
  const CLOSING_BRACKET: Byte := 0x5D
  const SPACE: Byte := 0x20

  // --- rows

  function Blank(pen: Pen): Cell {
    Cell(SPACE, PLAIN, -1, pen.background)
  }

  /** The cells from `from` up to `to`, as far as the row has them, blank. */
  function Erased(row: Row, from: int, to: int, pen: Pen): (r: Row)
    ensures |r| == |row|
  {
    seq(|row|, k requires 0 <= k < |row| => if from <= k < to then Blank(pen) else row[k])
  }

  function BlankRow(columns: nat, pen: Pen): (r: Row)
    ensures |r| == columns
  {
    seq(columns, _ => Blank(pen))
  }

  /** The rows on the screen. */
  function Screen(t: Term, rows: nat): seq<Row>
    requires rows <= |t.history|
  {
    t.history[|t.history| - rows..]
  }

  function SetRow(t: Term, rows: nat, y: nat, row: Row): Term
    requires y < rows <= |t.history|
  {
    t.(history := t.history[|t.history| - rows + y := row])
  }

  // --- colours and attributes

  function Sgr(pen: Pen, code: int): Pen {
    if code == 0 then Pen(PLAIN, -1, -1)
    else if code == 1 then pen.(attributes := pen.attributes.(bold := true))
    else if code == 2 then pen.(attributes := pen.attributes.(dim := true))
    else if code == 7 then pen.(attributes := pen.attributes.(inverse := true))
    else if code == 22 then pen.(attributes := pen.attributes.(bold := false, dim := false))
    else if code == 27 then pen.(attributes := pen.attributes.(inverse := false))
    else if 30 <= code <= 37 then pen.(foreground := code - 30)
    else if code == 39 then pen.(foreground := -1)
    else if 40 <= code <= 47 then pen.(background := code - 40)
    else if code == 49 then pen.(background := -1)
    else if 90 <= code <= 97 then pen.(foreground := code - 90 + 8)
    else if 100 <= code <= 107 then pen.(background := code - 100 + 8)
    else pen
  }

  function SgrAll(pen: Pen, codes: seq<int>): Pen
    decreases |codes|
  {
    if codes == [] then pen else SgrAll(Sgr(pen, codes[0]), codes[1..])
  }

  // --- control sequences

  ghost predicate CoreOk(core: Core, columns: nat, rows: nat) {
    && 0 <= core.x <= columns && 0 <= core.y < rows && |core.parameters| == MAX_PARAMETERS &&
      core.count <= MAX_PARAMETERS
  }

  function Parameter(core: Core, index: nat, fallback: int): int
    requires |core.parameters| == MAX_PARAMETERS && core.count <= MAX_PARAMETERS
  {
    if index >= core.count then fallback
    else if core.parameters[index] > 0 then core.parameters[index] else fallback
  }

  /** What a control sequence does to anything but the grid. */
  function Moved(core: Core, final: Byte): Core
    requires |core.parameters| == MAX_PARAMETERS && core.count <= MAX_PARAMETERS
  {
    var n := Parameter(core, 0, 1);
    if final == UP then core.(y := core.y - n)
    else if final == DOWN then core.(y := core.y + n)
    else if final == RIGHT then core.(x := core.x + n)
    else if final == LEFT then core.(x := core.x - n)
    else if final == TO_COLUMN then core.(x := n - 1)
    else if final == TO_ROW then core.(y := n - 1)
    else if final == TO_POSITION || final == TO_POSITION_TOO then core.(y := n - 1, x := Parameter(core, 1, 1) - 1)
    else if final == RENDITION then
      core.(pen := if core.count == 0 then Pen(PLAIN, -1, -1) else SgrAll(core.pen, core.parameters[..core.count]))
    else if (final == SET_MODE || final == RESET_MODE) && core.marked && Parameter(core, 0, 0) == 25 then
      core.(visible := final == SET_MODE)
    else if final == SAVE then core.(savedX := core.x, savedY := core.y)
    else if final == RESTORE then core.(x := core.savedX, y := core.savedY)
    else core
  }

  function Clamp(n: int, limit: nat): int
    requires limit > 0
  {
    if n < 0 then 0 else if n >= limit then limit - 1 else n
  }

  function Clamped(core: Core, columns: nat, rows: nat): Core
    requires columns > 0 && rows > 0
  {
    core.(x := Clamp(core.x, columns), y := Clamp(core.y, rows))
  }

  /** Row `y` after an erasure of the display. */
  function ErasedInDisplay(row: Row, y: int, core: Core, mode: int): (r: Row)
    ensures |r| == |row|
  {
    if mode == 0
      then (if y < core.y then row else if y == core.y then Erased(row, core.x, |row|, core.pen)
      else BlankRow(|row|, core.pen))
    else if mode == 1
      then (if y < core.y then BlankRow(|row|, core.pen) else if y == core.y then Erased(row, 0, core.x + 1, core.pen)
      else row)
    else BlankRow(|row|, core.pen)
  }

  function DisplayErased(t: Term, rows: nat, mode: int): Term
    requires rows <= |t.history|
  {
    var first := |t.history| - rows;
    t.(history := t.history[..first] +
         seq(rows, y requires 0 <= y < rows => ErasedInDisplay(t.history[first + y], y, t.core, mode)))
  }

  function ErasedInLine(row: Row, core: Core, mode: int): (r: Row)
    ensures |r| == |row|
  {
    Erased(row, if mode == 0 then core.x else 0, if mode == 1 then core.x + 1 else |row|, core.pen)
  }

  function LineErased(t: Term, rows: nat, mode: int): Term
    requires rows <= |t.history| && 0 <= t.core.y < rows
  {
    SetRow(t, rows, t.core.y, ErasedInLine(t.history[|t.history| - rows + t.core.y], t.core, mode))
  }

  function Executed(t: Term, final: Byte, columns: nat, rows: nat): Term
    requires columns > 0 && 0 < rows <= |t.history| && CoreOk(t.core, columns, rows)
  {
    Drawn(t, final, rows).(core := Clamped(Moved(t.core, final), columns, rows).(state := Ground))
  }

  /** What a control sequence does to the grid. */
  function Drawn(t: Term, final: Byte, rows: nat): (r: Term)
    requires rows <= |t.history| && 0 <= t.core.y < rows && |t.core.parameters| == MAX_PARAMETERS &&
      t.core.count <= MAX_PARAMETERS
    ensures r.core == t.core
  {
    var mode := Parameter(t.core, 0, 0);
    if final == ERASE_DISPLAY then DisplayErased(t, rows, mode)
    else if final == ERASE_LINE then LineErased(t, rows, mode) else t
  }

  // --- printing

  /** New rows until the cursor is on the screen again. */
  function Settled(t: Term, columns: nat, rows: nat): (r: Term)
    requires rows > 0
    ensures r.core == t.core.(y := if t.core.y < rows then t.core.y else rows - 1)
    ensures |r.history| >= |t.history|
    decreases if t.core.y < rows then 0 else t.core.y - rows + 1
  {
    if t.core.y < rows then t
    else Settled(Term(t.history + [BlankRow(columns, t.core.pen)], t.core.(y := t.core.y - 1)), columns, rows)
  }

  function Wrapped(core: Core, columns: nat): Core {
    if core.x >= columns then core.(x := 0, y := core.y + 1) else core
  }

  function Inked(core: Core, c: Byte): Cell {
    Cell(c, core.pen.attributes, core.pen.foreground, core.pen.background)
  }

  function Printed(t: Term, c: Byte, columns: nat, rows: nat): Term
    requires TermOk(t, columns, rows)
  {
    SettledOk(t.(core := Wrapped(t.core, columns)), columns, rows);
    var s := Settled(t.(core := Wrapped(t.core, columns)), columns, rows);
    var row := s.history[|s.history| - rows + s.core.y];
    assert |row| == columns;
    SetRow(s, rows, s.core.y, row[s.core.x := Inked(s.core, c)]).(core := s.core.(x := s.core.x + 1))
  }

  ghost predicate TermOk(t: Term, columns: nat, rows: nat) {
    columns > 0 && 0 < rows <= |t.history| && CoreOk(t.core, columns, rows) && RowsOk(t.history, columns)
  }

  ghost predicate RowsOk(history: seq<Row>, columns: nat) {
    forall i :: 0 <= i < |history| ==> |history[i]| == columns
  }

  lemma {:induction false} SettledOk(t: Term, columns: nat, rows: nat)
    requires 0 < rows <= |t.history| && RowsOk(t.history, columns)
    ensures RowsOk(Settled(t, columns, rows).history, columns)
    decreases if t.core.y < rows then 0 else t.core.y - rows + 1
  {
    if t.core.y >= rows {
      var longer := t.history + [BlankRow(columns, t.core.pen)];
      forall i | 0 <= i < |longer| ensures |longer[i]| == columns { }
      SettledOk(Term(longer, t.core.(y := t.core.y - 1)), columns, rows);
    }
  }

  lemma PrintedOk(t: Term, c: Byte, columns: nat, rows: nat)
    requires TermOk(t, columns, rows)
    ensures TermOk(Printed(t, c, columns, rows), columns, rows) && |Printed(t, c, columns, rows).history| >= |t.history|
  {
    SettledOk(t.(core := Wrapped(t.core, columns)), columns, rows);
  }

  lemma LineFedOk(t: Term, columns: nat, rows: nat)
    requires TermOk(t, columns, rows)
    ensures var s := Settled(t.(core := t.core.(y := t.core.y + 1)), columns, rows);
      TermOk(s, columns, rows) && |s.history| >= |t.history|
  {
    SettledOk(t.(core := t.core.(y := t.core.y + 1)), columns, rows);
  }

  /** An erased display row by row. */
  lemma DisplayErasedAt(t: Term, rows: nat, mode: int, i: nat)
    requires rows <= |t.history| && i < |t.history|
    ensures |DisplayErased(t, rows, mode).history| == |t.history|
    ensures DisplayErased(t, rows, mode).history[i] ==
      if i < |t.history| - rows then t.history[i]
        else ErasedInDisplay(t.history[i], i - (|t.history| - rows), t.core, mode)
  {
  }

  lemma ExecutedOk(t: Term, final: Byte, columns: nat, rows: nat)
    requires TermOk(t, columns, rows)
    ensures TermOk(Executed(t, final, columns, rows), columns, rows) &&
      |Executed(t, final, columns, rows).history| == |t.history|
  {
    var mode := Parameter(t.core, 0, 0);
    forall i | 0 <= i < |t.history|
      ensures |DisplayErased(t, rows, mode).history| == |t.history| &&
        |DisplayErased(t, rows, mode).history[i]| == columns {
      DisplayErasedAt(t, rows, mode, i);
    }
  }

  // --- one byte

  function Digit(core: Core, c: Byte): Core
    requires |core.parameters| == MAX_PARAMETERS && core.count <= MAX_PARAMETERS
  {
    var count := if core.count == 0 then 1 else core.count;
    core.(count := count, parameters := core.parameters[count - 1 := core.parameters[count - 1] * 10 + (c - ZERO)])
  }

  function Separator(core: Core): Core
    requires |core.parameters| == MAX_PARAMETERS && core.count <= MAX_PARAMETERS
  {
    var count := if core.count == 0 then 1 else core.count;
    if count < MAX_PARAMETERS then core.(count := count + 1, parameters := core.parameters[count := 0])
      else core.(count := count)
  }

  function Tabbed(x: int, columns: nat): int {
    var stop := x - x % 8 + 8;
    if stop >= columns then columns - 1 else stop
  }

  predicate IsDigit(c: Byte) {
    ZERO <= c <= NINE
  }

  /** A byte that ends a control sequence. */
  predicate Finishes(core: Core, c: Byte) {
    core.state == Csi && c != QUESTION && c != SEMICOLON && !IsDigit(c)
  }

  function Fed(t: Term, c: Byte, columns: nat, rows: nat): Term
    requires TermOk(t, columns, rows)
  {
    var core := t.core;
    match core.state
    case Escape =>
      t.(core := if c == BRACKET
        then core.(state := Csi, count := 0, marked := false, parameters := core.parameters[0 := 0])
                 else if c == CLOSING_BRACKET then core.(state := Osc) else core.(state := Ground))
    case Csi =>
      if c == QUESTION then t.(core := core.(marked := true))
      else if IsDigit(c) then t.(core := Digit(core, c))
      else if c == SEMICOLON then t.(core := Separator(core))
      else Executed(t, c, columns, rows)
    case Osc =>
      t.(core := if c == 7 then core.(state := Ground) else if c == ESC then core.(state := Escape) else core)
    case Ground =>
      if c == ESC then t.(core := core.(state := Escape))
      else if c == 13 then t.(core := core.(x := 0))
      else if c == 10 then Settled(t.(core := core.(y := core.y + 1)), columns, rows)
      else if c == 8 then t.(core := if core.x > 0 then core.(x := core.x - 1) else core)
      else if c == 9 then t.(core := core.(x := Tabbed(core.x, columns)))
      else if c < 32 then t
      else Printed(t, c, columns, rows)
  }

  /** A byte keeps the cursor in bounds, the rows whole and the parser's parameters in range. */
  lemma FedOk(t: Term, c: Byte, columns: nat, rows: nat)
    requires TermOk(t, columns, rows)
    ensures TermOk(Fed(t, c, columns, rows), columns, rows) && |Fed(t, c, columns, rows).history| >= |t.history|
  {
    if t.core.state == Ground {
      PrintedOk(t, c, columns, rows);
      LineFedOk(t, columns, rows);
    } else if t.core.state == Csi {
      ExecutedOk(t, c, columns, rows);
    }
  }

  function FedAll(t: Term, bytes: seq<Byte>, columns: nat, rows: nat): Term
    requires TermOk(t, columns, rows)
    decreases |bytes|
  {
    if bytes == [] then t
    else
      FedOk(t, bytes[0], columns, rows);
      FedAll(Fed(t, bytes[0], columns, rows), bytes[1..], columns, rows)
  }

  lemma {:induction false} FedAllOk(t: Term, bytes: seq<Byte>, columns: nat, rows: nat)
    requires TermOk(t, columns, rows)
    ensures TermOk(FedAll(t, bytes, columns, rows), columns, rows)
    decreases |bytes|
  {
    if bytes != [] {
      FedOk(t, bytes[0], columns, rows);
      FedAllOk(Fed(t, bytes[0], columns, rows), bytes[1..], columns, rows);
    }
  }

  /** Where the stream is cut makes no difference. */
  lemma {:induction false} SplitAnywhere(t: Term, first: seq<Byte>, second: seq<Byte>, columns: nat, rows: nat)
    requires TermOk(t, columns, rows)
    ensures TermOk(FedAll(t, first, columns, rows), columns, rows)
    ensures FedAll(t, first + second, columns, rows) == FedAll(FedAll(t, first, columns, rows), second, columns, rows)
    decreases |first|
  {
    FedAllOk(t, first, columns, rows);
    if first == [] {
      assert first + second == second;
    } else {
      assert (first + second)[1..] == first[1..] + second;
      FedOk(t, first[0], columns, rows);
      SplitAnywhere(Fed(t, first[0], columns, rows), first[1..], second, columns, rows);
    }
  }
}
