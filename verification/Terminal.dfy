/** The terminal widget's grid: one ring of rows for scrollback and screen, updated in place. */
module Terminal {
  import opened Base
  import opened TerminalSpec

  const SCROLLBACK_ROWS: nat := 2000

  // --- the ring

  /** The ring index `i` places on from `top`. */
  function Place(top: nat, i: nat, size: nat): nat
    requires size > 0
  {
    (top + i) % size
  }

  lemma PlaceRange(top: nat, i: nat, size: nat)
    requires top < size && i <= size
    ensures Place(top, i, size) == if top + i < size then top + i else top + i - size
  {
  }

  /** The ring holds the last `used` rows of the history. */
  ghost predicate Mirrors(storage: seq<Row>, top: nat, used: nat, history: seq<Row>) {
    && 0 < |storage| && top < |storage| && used <= |storage| && used <= |history|
    && (used < |storage| ==> used == |history|)
    && forall i {:trigger Slot(storage, top, i)} :: 0 <= i < used ==>
      Slot(storage, top, i) == history[|history| - used + i]
  }

  ghost function Slot(storage: seq<Row>, top: nat, i: nat): Row
    requires 0 < |storage| && top < |storage| && i < |storage|
  {
    storage[Place(top, i, |storage|)]
  }

  lemma MirrorSet(storage: seq<Row>, top: nat, used: nat, history: seq<Row>, i: nat, row: Row)
    requires Mirrors(storage, top, used, history) && i < used
    ensures Mirrors(storage[Place(top, i, |storage|) := row], top, used, history[|history| - used + i := row])
  {
    var storage' := storage[Place(top, i, |storage|) := row];
    var history' := history[|history| - used + i := row];
    PlaceRange(top, i, |storage|);
    forall k | 0 <= k < used ensures Slot(storage', top, k) == history'[|history'| - used + k] {
      PlaceRange(top, k, |storage|);
      assert Slot(storage, top, k) == history[|history| - used + k];
    }
  }

  /** A new row goes where the ring has room, or over the oldest row. */
  lemma MirrorScroll(storage: seq<Row>, top: nat, used: nat, history: seq<Row>, row: Row)
    requires Mirrors(storage, top, used, history)
    ensures used < |storage| ==> Mirrors(storage[Place(top, used, |storage|) := row], top, used + 1, history + [row])
    ensures used == |storage| ==>
      Mirrors(storage[top := row], Place(top, 1, |storage|), used, history + [row]) &&
        Place(Place(top, 1, |storage|), used - 1, |storage|) == top
  {
    var n, history' := |storage|, history + [row];
    PlaceRange(top, used, n);
    PlaceRange(top, 1, n);
    if used < n {
      var storage' := storage[Place(top, used, n) := row];
      forall k | 0 <= k < used + 1 ensures Slot(storage', top, k) == history'[|history'| - (used + 1) + k] {
        PlaceRange(top, k, n);
        if k < used { assert Slot(storage, top, k) == history[|history| - used + k]; }
      }
    } else {
      var top' := Place(top, 1, n);
      var storage' := storage[top := row];
      PlaceRange(top', used - 1, n);
      forall k | 0 <= k < used ensures Slot(storage', top', k) == history'[|history'| - used + k] {
        PlaceRange(top', k, n);
        if k + 1 < used {
          PlaceRange(top, k + 1, n);
          assert Slot(storage, top, k + 1) == history[|history| - used + k + 1];
        }
      }
    }
  }

  // --- what has to be painted

  datatype Dirty = Dirty(top: int, bottom: int)

  function Touched(d: Dirty, from: int, to: int, rows: nat): Dirty {
    var low, high := if from < 0 then 0 else from, if to > rows then rows else to;
    if low >= high then d
    else if d.top >= d.bottom then Dirty(low, high)
    else Dirty(if low < d.top then low else d.top, if high > d.bottom then high else d.bottom)
  }

  predicate Covers(d: Dirty, y: int) {
    d.top <= y < d.bottom
  }

  /** Every row that differs from what was last painted is marked. */
  ghost predicate Covered(painted: seq<Row>, screen: seq<Row>, d: Dirty) {
    |painted| == |screen| && forall y :: 0 <= y < |screen| && screen[y] != painted[y] ==> Covers(d, y)
  }

  /** A touch marks the old rows and the new ones, and no row it need not: any range that covers them covers it. */
  lemma TouchedSmallest(d: Dirty, from: int, to: int, rows: nat, other: Dirty)
    requires forall y :: Covers(d, y) || (from <= y < to && 0 <= y < rows) ==> Covers(other, y)
    ensures forall y :: Covers(d, y) || (from <= y < to && 0 <= y < rows) ==> Covers(Touched(d, from, to, rows), y)
    ensures forall y :: Covers(Touched(d, from, to, rows), y) ==> Covers(other, y)
  {
    var low, high := if from < 0 then 0 else from, if to > rows then rows else to;
    if low < high { assert Covers(other, low) && Covers(other, high - 1); }
    if d.top < d.bottom { assert Covers(other, d.top) && Covers(other, d.bottom - 1); }
  }

  lemma ErasedWhole(row: Row, columns: nat, pen: Pen)
    requires |row| == columns
    ensures Erased(row, 0, columns, pen) == BlankRow(columns, pen)
  {
  }

  ghost predicate SettlesTo(history: seq<Row>, next: Core, y: int, columns: nat, rows: nat, goal: Term)
    requires rows > 0
  {
    Settled(Term(history, next.(y := y)), columns, rows) == goal
  }

  lemma SettleStep(history: seq<Row>, next: Core, y: int, columns: nat, rows: nat, goal: Term)
    requires 0 < rows <= y && SettlesTo(history, next, y, columns, rows, goal)
    ensures SettlesTo(history + [BlankRow(columns, next.pen)], next, y - 1, columns, rows, goal)
  {
  }

  lemma SettleDone(history: seq<Row>, next: Core, y: int, columns: nat, rows: nat, goal: Term)
    requires rows > 0 && y < rows && SettlesTo(history, next, y, columns, rows, goal)
    ensures Term(history, next.(y := y)) == goal
  {
  }

  /** A ring of blank rows and a screen of blank rows. */
  lemma MirrorFresh(size: nat, rows: nat, row: Row)
    requires 0 < rows <= size
    ensures Mirrors(seq(size, _ => row), 0, rows, seq(rows, _ => row))
  {
    var storage, history := seq(size, _ => row), seq(rows, _ => row);
    forall i | 0 <= i < rows ensures Slot(storage, 0, i) == history[i] {
      PlaceRange(0, i, size);
    }
  }

  /** A blank screen with the cursor in its corner. */
  function Initial(columns: nat, rows: nat): Term {
    var pen := Pen(PLAIN, -1, -1);
    Term(seq(rows, _ => BlankRow(columns, pen)),
         Core(0, 0, 0, 0, true, pen, Ground, seq(MAX_PARAMETERS, _ => 0), 0, false))
  }

  class Grid {
    const columns: nat
    const rows: nat
    const storage: array<Row>
    var top: nat
    var used: nat
    var view: int
    var core: Core
    var dirty: Dirty
    /** Every row there has ever been, and the screen as it was last painted. */
    ghost var history: seq<Row>
    ghost var painted: seq<Row>

    ghost function Now(): Term
      reads this
    {
      Term(history, core)
    }

    ghost predicate Valid()
      reads this, storage
    {
      && TermOk(Now(), columns, rows) && rows <= used && |painted| == rows
      && Mirrors(storage[..], top, used, history) && RowsOk(storage[..], columns)
    }

    /** Whatever a paint would have to change is marked. */
    ghost predicate Marked()
      reads this
      requires rows <= |history|
    {
      Covered(painted, Screen(Now(), rows), dirty)
    }

    /** `reshape` and `reset_grid`, with a pen and a parser in their first state. */
    constructor (columns: nat, rows: nat)
      requires columns > 0 && rows > 0
      ensures Valid() && this.columns == columns && this.rows == rows && fresh(storage)
      ensures Marked() && Now() == Initial(columns, rows)
    {
      var pen := Pen(PLAIN, -1, -1);
      var size := if SCROLLBACK_ROWS > rows then SCROLLBACK_ROWS else rows;
      this.columns, this.rows := columns, rows;
      storage := new Row[size](_ => BlankRow(columns, pen));
      top, used, view := 0, rows, 0;
      core := Core(0, 0, 0, 0, true, pen, Ground, seq(MAX_PARAMETERS, _ => 0), 0, false);
      dirty := Dirty(0, rows);
      history := seq(rows, _ => BlankRow(columns, pen));
      painted := seq(rows, _ => []);
      new;
      assert storage[..] == seq(size, _ => BlankRow(columns, pen));
      MirrorFresh(size, rows, BlankRow(columns, pen));
    }

    /** `screen_row`. */
    function ScreenIndex(y: nat): (k: nat)
      reads this
      requires storage.Length > 0 && y < rows <= used
      ensures k < storage.Length
    {
      Place(top, used - rows + y, storage.Length)
    }

    lemma ScreenIs(y: nat)
      requires Valid() && y < rows
      ensures storage[ScreenIndex(y)] == history[|history| - rows + y]
    {
      assert Slot(storage[..], top, used - rows + y) == history[|history| - used + (used - rows + y)];
    }

    /** Replaces a row of the screen. */
    method PutRow(y: nat, row: Row)
      requires Valid() && y < rows && |row| == columns
      modifies this`history, storage
      ensures Valid() && history == SetRow(old(Now()), rows, y, row).history
    {
      MirrorSet(storage[..], top, used, history, used - rows + y, row);
      ghost var before := storage[..];
      storage[ScreenIndex(y)] := row;
      assert storage[..] == before[ScreenIndex(y) := row];
      history := history[|history| - rows + y := row];
    }

    /** `erase_cells`. */
    method EraseCells(row: Row, from: int, to: int) returns (r: Row)
      requires |row| == columns
      ensures r == Erased(row, from, to, core.pen)
    {
      var low, high := if from < 0 then 0 else from, if to > columns then columns else to;
      r := row;
      var x := low;
      while x < high
        invariant low <= x && |r| == columns
        invariant forall k :: 0 <= k < columns ==> r[k] == if low <= k < x && k < high then Blank(core.pen) else row[k]
      {
        r := r[x := Blank(core.pen)];
        x := x + 1;
      }
    }

    /** `touch_rows`. */
    method Touch(from: int, to: int)
      modifies this`dirty
      ensures dirty == Touched(old(dirty), from, to, rows)
    {
      var low, high := from, to;
      if low < 0 { low := 0; }
      if high > rows { high := rows; }
      if low >= high { return; }
      if dirty.top >= dirty.bottom {
        dirty := Dirty(low, high);
        return;
      }
      if low < dirty.top { dirty := dirty.(top := low); }
      if high > dirty.bottom { dirty := dirty.(bottom := high); }
    }

    /** `scroll_up`: the history grows by a blank row, whatever the ring has to forget. */
    method ScrollUp()
      requires Valid()
      modifies this`top, this`used, this`view, this`dirty, this`history, storage
      ensures Valid() && history == old(history) + [BlankRow(columns, core.pen)]
      ensures dirty == Touched(old(dirty), 0, rows, rows)
    {
      ghost var before := storage[..];
      MirrorScroll(before, top, used, history, BlankRow(columns, core.pen));
      if used < storage.Length {
        used := used + 1;
      } else {
        top := (top + 1) % storage.Length;
      }
      var bottom := ScreenIndex(rows - 1);
      ErasedWhole(before[bottom], columns, core.pen);
      var blank := EraseCells(storage[bottom], 0, columns);
      storage[bottom] := blank;
      assert storage[..] == before[bottom := blank];
      history := history + [blank];
      Touch(0, rows);
      view := 0;
    }

    /** Scrolls until the cursor, wanted at `next`, is on the screen. */
    method Settle(next: Core)
      requires Valid() && next.y >= 0 && 0 <= next.x <= columns && next.pen == core.pen
      requires |next.parameters| == MAX_PARAMETERS && next.count <= MAX_PARAMETERS
      modifies this, storage
      ensures Valid() && Now() == Settled(Term(old(history), next), columns, rows) && painted == old(painted)
      ensures dirty == SettledDirty(old(dirty), next.y, rows)
    {
      ghost var goal := Settled(Term(history, next), columns, rows);
      var y := next.y;
      assert next.(y := y) == next;
      while y >= rows
        invariant Valid() && y >= 0 && core == old(core) && painted == old(painted)
        invariant dirty == if y < next.y then Touched(old(dirty), 0, rows, rows) else old(dirty)
        invariant SettlesTo(history, next, y, columns, rows, goal)
        decreases y
      {
        SettleStep(history, next, y, columns, rows, goal);
        TouchAgain(old(dirty), rows);
        ScrollUp();
        y := y - 1;
      }
      SettleDone(history, next, y, columns, rows, goal);
      core := next.(y := y);
    }

    /** `put_character`. */
    method PutCharacter(c: Byte)
      requires Valid()
      modifies this, storage
      ensures Valid() && Now() == Printed(old(Now()), c, columns, rows) && painted == old(painted)
      ensures dirty == PrintedDirty(old(dirty), old(core), columns, rows)
    {
      Settle(Wrapped(core, columns));
      ScreenIs(core.y);
      var row := storage[ScreenIndex(core.y)];
      assert |row| == columns;
      DrawRow(core.y, row[core.x := Inked(core, c)]);
      core := core.(x := core.x + 1);
    }

    /** A row replaced and marked. */
    method DrawRow(y: nat, row: Row)
      requires Valid() && y < rows && |row| == columns
      modifies this`history, this`dirty, storage
      ensures Valid() && history == SetRow(old(Now()), rows, y, row).history
      ensures dirty == Touched(old(dirty), y, y + 1, rows)
    {
      PutRow(y, row);
      Touch(y, y + 1);
    }

    /** `erase_in_line`. */
    method EraseInLine(mode: int)
      requires Valid()
      modifies this`history, this`dirty, storage
      ensures Valid() && Now() == LineErased(old(Now()), rows, mode)
      ensures dirty == Touched(old(dirty), core.y, core.y + 1, rows)
    {
      ScreenIs(core.y);
      var from, to := 0, columns;
      if mode == 0 { from := core.x; } else if mode == 1 { to := core.x + 1; }
      var row := storage[ScreenIndex(core.y)];
      var erased := EraseCells(row, from, to);
      DrawRow(core.y, erased);
    }

    /** Rows `from` up to `to` of the screen are as the erasure of the display leaves them, the others as in `t`. */
    ghost predicate ErasedRows(t: Term, mode: int, from: int, to: int)
      reads this
    {
      && |history| == |t.history| && core == t.core && rows <= |history|
      && forall i {:trigger history[i]} :: 0 <= i < |history| ==>
           var y := i - (|history| - rows);
           history[i] == if from <= y < to && 0 <= y then ErasedInDisplay(t.history[i], y, core, mode) else t.history[i]
    }

    /** Part of a screen row erased, unmarked. */
    method EraseRow(y: nat, from: int, to: int)
      requires Valid() && y < rows
      modifies this`history, storage
      ensures Valid() &&
        history == SetRow(old(Now()), rows, y,
        Erased(old(history)[|old(history)| - rows + y], from, to, core.pen)).history
    {
      ScreenIs(y);
      var row := storage[ScreenIndex(y)];
      var erased := EraseCells(row, from, to);
      PutRow(y, erased);
    }

    /** The loops of `erase_in_display` over whole rows. */
    method ClearRows(from: nat, to: nat, ghost t: Term, mode: int, ghost low: int)
      requires Valid() && low <= from <= to <= rows && ErasedRows(t, mode, low, from)
      requires forall y, row: Row {:trigger ErasedInDisplay(row, y, core, mode)} :: from <= y < to ==>
        ErasedInDisplay(row, y, core, mode) == BlankRow(|row|, core.pen)
      modifies this`history, storage
      ensures Valid() && ErasedRows(t, mode, low, to)
    {
      for y := from to to
        invariant Valid() && ErasedRows(t, mode, low, y)
      {
        ghost var row := history[|history| - rows + y];
        assert ErasedInDisplay(row, y, core, mode) == BlankRow(columns, core.pen);
        ErasedWhole(row, columns, core.pen);
        EraseRow(y, 0, columns);
      }
    }

    /** `erase_in_display`: the rows change and nothing is marked. */
    method EraseInDisplay(mode: int)
      requires Valid()
      modifies this`history, storage
      ensures Valid() && Now() == DisplayErased(old(Now()), rows, mode)
    {
      ghost var t := Now();
      if mode == 0 {
        EraseRow(core.y, core.x, columns);
        ClearRows(core.y + 1, rows, t, mode, core.y);
        assert ErasedRows(t, mode, 0, rows);
      } else if mode == 1 {
        ClearRows(0, core.y, t, mode, 0);
        EraseRow(core.y, 0, core.x + 1);
        assert ErasedRows(t, mode, 0, rows);
      } else {
        ClearRows(0, rows, t, mode, 0);
      }
      ErasedRowsDone(t, mode);
    }

    lemma ErasedRowsDone(t: Term, mode: int)
      requires ErasedRows(t, mode, 0, rows)
      ensures Now() == DisplayErased(t, rows, mode)
    {
      forall i | 0 <= i < |history|
        ensures |DisplayErased(t, rows, mode).history| == |history| &&
        history[i] == DisplayErased(t, rows, mode).history[i] {
        DisplayErasedAt(t, rows, mode, i);
      }
    }

    /** `apply_sgr`. */
    method ApplySgr() returns (pen: Pen)
      requires CoreOk(core, columns, rows)
      ensures pen == if core.count == 0 then Pen(PLAIN, -1, -1) else SgrAll(core.pen, core.parameters[..core.count])
    {
      if core.count == 0 { return Pen(PLAIN, -1, -1); }
      ghost var codes := core.parameters[..core.count];
      pen := core.pen;
      for i := 0 to core.count
        invariant SgrAll(pen, codes[i..]) == SgrAll(core.pen, codes)
      {
        assert codes[i..][1..] == codes[i + 1..];
        pen := Sgr(pen, core.parameters[i]);
      }
    }

    /** The part of `execute_csi` that draws. */
    method Draw(final: Byte)
      requires Valid()
      modifies this`history, this`dirty, storage
      ensures Valid() && history == Drawn(old(Now()), final, rows).history
      ensures dirty == if final == ERASE_LINE then Touched(old(dirty), core.y, core.y + 1, rows) else old(dirty)
    {
      if final == ERASE_DISPLAY {
        EraseInDisplay(Parameter(core, 0, 0));
      } else if final == ERASE_LINE {
        EraseInLine(Parameter(core, 0, 0));
      }
    }

    /** The part of `execute_csi` that changes the cursor and the pen. */
    method Steered(final: Byte) returns (next: Core)
      requires CoreOk(core, columns, rows) && columns > 0 && rows > 0
      ensures next == Clamped(Moved(core, final), columns, rows)
    {
      next := Steer(final);
      var x, y := next.x, next.y;
      if x < 0 { x := 0; }
      if x >= columns { x := columns - 1; }
      if y < 0 { y := 0; }
      if y >= rows { y := rows - 1; }
      next := next.(x := x, y := y);
    }

    /** Before the cursor is brought back onto the screen. */
    method Steer(final: Byte) returns (next: Core)
      requires CoreOk(core, columns, rows)
      ensures next == Moved(core, final)
    {
      var n := Parameter(core, 0, 1);
      next := core;
      if final == UP { next := core.(y := core.y - n); }
      else if final == DOWN { next := core.(y := core.y + n); }
      else if final == RIGHT { next := core.(x := core.x + n); }
      else if final == LEFT { next := core.(x := core.x - n); }
      else if final == TO_COLUMN { next := core.(x := n - 1); }
      else if final == TO_ROW { next := core.(y := n - 1); }
      else if final == TO_POSITION || final == TO_POSITION_TOO {
        next := core.(y := n - 1, x := Parameter(core, 1, 1) - 1);
      } else if final == RENDITION {
        var pen := ApplySgr();
        next := core.(pen := pen);
      } else if final == SET_MODE || final == RESET_MODE {
        if core.marked && Parameter(core, 0, 0) == 25 { next := core.(visible := final == SET_MODE); }
      } else if final == SAVE {
        next := core.(savedX := core.x, savedY := core.y);
      } else if final == RESTORE {
        next := core.(x := core.savedX, y := core.savedY);
      }
    }

    /** `execute_csi`, and the end of the sequence. */
    method ExecuteCsi(final: Byte)
      requires Valid() && core.state == Csi
      modifies this`core, this`history, this`dirty, storage
      ensures Valid() && Now() == Executed(old(Now()), final, columns, rows)
      ensures dirty == if final == ERASE_LINE then Touched(old(dirty), old(core).y, old(core).y + 1, rows)
        else old(dirty)
    {
      ExecutedOk(Now(), final, columns, rows);
      Draw(final);
      var next := Steered(final);
      core := next.(state := Ground);
    }

    /** `feed_byte`. */
    method FeedByte(c: Byte)
      requires Valid()
      modifies this, storage
      ensures Valid() && Now() == Fed(old(Now()), c, columns, rows) && painted == old(painted)
      ensures dirty == DirtyFed(old(dirty), old(core), c, columns, rows)
    {
      match core.state {
        case Escape => FeedEscape(c);
        case Csi => FeedCsi(c);
        case Osc =>
          if c == 7 { core := core.(state := Ground); }
          else if c == ESC { core := core.(state := Escape); }
        case Ground => FeedGround(c);
      }
    }

    method FeedEscape(c: Byte)
      requires Valid() && core.state == Escape
      modifies this`core
      ensures Valid() && Now() == Fed(old(Now()), c, columns, rows)
    {
      if c == BRACKET {
        core := core.(state := Csi, count := 0, marked := false, parameters := core.parameters[0 := 0]);
      } else if c == CLOSING_BRACKET {
        core := core.(state := Osc);
      } else {
        core := core.(state := Ground);
      }
    }

    method FeedCsi(c: Byte)
      requires Valid() && core.state == Csi
      modifies this`core, this`history, this`dirty, storage
      ensures Valid() && Now() == Fed(old(Now()), c, columns, rows)
      ensures dirty == DirtyFed(old(dirty), old(core), c, columns, rows)
    {
      if c == QUESTION {
        core := core.(marked := true);
      } else if IsDigit(c) {
        if core.count == 0 { core := core.(count := 1); }
        if core.count <= MAX_PARAMETERS {
          var i := core.count - 1;
          core := core.(parameters := core.parameters[i := core.parameters[i] * 10 + (c - ZERO)]);
        }
      } else if c == SEMICOLON {
        if core.count == 0 { core := core.(count := 1); }
        if core.count < MAX_PARAMETERS {
          core := core.(count := core.count + 1, parameters := core.parameters[core.count := 0]);
        }
      } else {
        ExecuteCsi(c);
      }
    }

    method FeedGround(c: Byte)
      requires Valid() && core.state == Ground
      modifies this, storage
      ensures Valid() && Now() == Fed(old(Now()), c, columns, rows) && painted == old(painted)
      ensures dirty == DirtyFed(old(dirty), old(core), c, columns, rows)
    {
      if c == ESC {
        core := core.(state := Escape);
      } else if c == 13 {
        core := core.(x := 0);
      } else if c == 10 {
        Settle(core.(y := core.y + 1));
      } else if c == 8 {
        if core.x > 0 { core := core.(x := core.x - 1); }
      } else if c == 9 {
        var x := (core.x + 8) - (core.x + 8) % 8;
        core := core.(x := if x >= columns then columns - 1 else x);
      } else if c >= 32 {
        PutCharacter(c);
      }
    }

    /** The loop of `ui_terminal_feed`. */
    method FeedBytes(bytes: seq<Byte>)
      requires Valid()
      modifies this, storage
      ensures Valid() && Now() == FedAll(old(Now()), bytes, columns, rows) && painted == old(painted)
      ensures dirty == DirtyAll(old(dirty), old(Now()), bytes, columns, rows)
    {
      ghost var start, d := Now(), dirty;
      for i := 0 to |bytes|
        invariant Valid() && painted == old(painted)
        invariant FedAll(start, bytes, columns, rows) == FedAll(Now(), bytes[i..], columns, rows)
        invariant DirtyAll(d, start, bytes, columns, rows) == DirtyAll(dirty, Now(), bytes[i..], columns, rows)
      {
        assert bytes[i..][1..] == bytes[i + 1..];
        FeedByte(bytes[i]);
      }
    }

    /**
     * `ui_terminal_feed`: any stream has the effect of its bytes one after the other. If everything that
     * differs from the last paint was marked before, it is marked after exactly when no cell that the
     * stream clears by erasing the display, on a row left unmarked, showed anything else.
     */
    method Feed(bytes: seq<Byte>)
      requires Valid()
      modifies this, storage
      ensures Valid() && Now() == FedAll(old(Now()), bytes, columns, rows) && painted == old(painted)
      ensures dirty == Damage(old(dirty), old(Now()), bytes, columns, rows)
      ensures old(Marked()) ==> (Marked() <==> HarmlessErasures(old(dirty), old(Now()), bytes, columns, rows))
      ensures old(Marked()) && NeverErases(old(Now()), bytes, columns, rows) ==> Marked()
    {
      var was := core.y;
      FeedBytes(bytes);
      Touch(was, was + 1);
      Touch(core.y, core.y + 1);
      FedMarked(painted, old(dirty), old(Now()), bytes, columns, rows);
    }

    /** A paint of the rows `from` up to `to` of the live screen: those are shown, and all marks go. */
    method Paint(from: int, to: int)
      requires Valid()
      modifies this`dirty, this`painted
      ensures Valid() && dirty == Dirty(0, 0)
      ensures forall y :: 0 <= y < rows ==>
        painted[y] == if from <= y < to then Screen(Now(), rows)[y] else old(painted)[y]
      ensures old(Marked()) && (forall y :: Covers(old(dirty), y) ==> from <= y < to) ==>
        Marked() && painted == Screen(Now(), rows)
      ensures from <= 0 && rows <= to ==> Marked() && painted == Screen(Now(), rows)
    {
      dirty := Dirty(0, 0);
      ghost var screen, shown := Screen(Now(), rows), painted;
      painted := seq(rows, y requires 0 <= y < rows => if from <= y < to then screen[y] else shown[y]);
    }
  }

  // --- what a stream marks

  /** Touching all rows twice is touching them once. */
  lemma TouchAgain(d: Dirty, rows: nat)
    ensures Touched(Touched(d, 0, rows, rows), 0, rows, rows) == Touched(d, 0, rows, rows)
  {
  }

  function SettledDirty(d: Dirty, y: int, rows: nat): Dirty {
    if y >= rows then Touched(d, 0, rows, rows) else d
  }

  function PrintedDirty(d: Dirty, core: Core, columns: nat, rows: nat): Dirty {
    var wanted := Wrapped(core, columns).y;
    var y := if wanted < rows then wanted else rows - 1;
    Touched(SettledDirty(d, wanted, rows), y, y + 1, rows)
  }

  /** A byte marks the row it writes on, or all of them if it scrolls; erasing the display marks nothing. */
  function DirtyFed(d: Dirty, core: Core, c: Byte, columns: nat, rows: nat): Dirty {
    if core.state == Ground then
      if c == 10 then SettledDirty(d, core.y + 1, rows)
      else if c < 32 then d
      else PrintedDirty(d, core, columns, rows)
    else if Finishes(core, c) && c == ERASE_LINE then Touched(d, core.y, core.y + 1, rows)
    else d
  }

  ghost function DirtyAll(d: Dirty, t: Term, bytes: seq<Byte>, columns: nat, rows: nat): Dirty
    requires TermOk(t, columns, rows)
    decreases |bytes|
  {
    if bytes == [] then d
    else
      FedOk(t, bytes[0], columns, rows);
      DirtyAll(DirtyFed(d, t.core, bytes[0], columns, rows), Fed(t, bytes[0], columns, rows), bytes[1..], columns, rows)
  }

  /** The rows marked after a feed: those the stream marks, and where the cursor was and is. */
  ghost function Damage(d: Dirty, t: Term, bytes: seq<Byte>, columns: nat, rows: nat): Dirty
    requires TermOk(t, columns, rows)
  {
    var was, now := t.core.y, FedAll(t, bytes, columns, rows).core.y;
    Touched(Touched(DirtyAll(d, t, bytes, columns, rows), was, was + 1, rows), now, now + 1, rows)
  }

  // --- what erasing the display leaves unmarked

  /** No byte of the stream completes an erasure of the display. */
  ghost predicate NeverErases(t: Term, bytes: seq<Byte>, columns: nat, rows: nat)
    requires TermOk(t, columns, rows)
    decreases |bytes|
  {
    if bytes == [] then true
    else
      FedOk(t, bytes[0], columns, rows);
      !(Finishes(t.core, bytes[0]) && bytes[0] == ERASE_DISPLAY) &&
      NeverErases(Fed(t, bytes[0], columns, rows), bytes[1..], columns, rows)
  }

  /** The part of the screen an erasure clears: from the cursor on, up to it, or all. */
  predicate InErased(core: Core, mode: int, y: int, x: int) {
    if mode == 0 then y > core.y || (y == core.y && x >= core.x)
    else if mode == 1 then y < core.y || (y == core.y && x <= core.x)
    else true
  }

  /** The byte completes an erasure of the display that clears this cell. */
  predicate Clears(core: Core, c: Byte, y: int, x: int)
    requires |core.parameters| == MAX_PARAMETERS && core.count <= MAX_PARAMETERS
  {
    Finishes(core, c) && c == ERASE_DISPLAY && InErased(core, Parameter(core, 0, 0), y, x)
  }

  /** What the last erasure of the display in the stream to clear this cell leaves in it. */
  ghost function LastBlank(t: Term, bytes: seq<Byte>, y: int, x: int, columns: nat, rows: nat): Option<Cell>
    requires TermOk(t, columns, rows)
    decreases |bytes|
  {
    if bytes == [] then None
    else
      FedOk(t, bytes[0], columns, rows);
      var later := LastBlank(Fed(t, bytes[0], columns, rows), bytes[1..], y, x, columns, rows);
      if later.Some? then later
      else if Clears(t.core, bytes[0], y, x) then Some(Blank(t.core.pen)) else None
  }

  /** On the rows that stay unmarked, every cell an erasure clears is as blank as it leaves it already. */
  ghost predicate HarmlessErasures(d: Dirty, t: Term, bytes: seq<Byte>, columns: nat, rows: nat)
    requires TermOk(t, columns, rows)
  {
    forall y, x {:trigger Harmless(d, t, bytes, columns, rows, y, x)} :: 0 <= y < rows && 0 <= x < columns ==>
      Harmless(d, t, bytes, columns, rows, y, x)
  }

  ghost predicate Harmless(d: Dirty, t: Term, bytes: seq<Byte>, columns: nat, rows: nat, y: int, x: int)
    requires TermOk(t, columns, rows) && 0 <= y < rows && 0 <= x < columns
  {
    var blank := LastBlank(t, bytes, y, x, columns, rows);
    Covers(Damage(d, t, bytes, columns, rows), y) || blank.None? || CellAt(t, rows, y, x) == blank.value
  }

  function CellAt(t: Term, rows: nat, y: int, x: int): Cell
    requires 0 <= y < rows <= |t.history| && 0 <= x < |t.history[|t.history| - rows + y]|
  {
    t.history[|t.history| - rows + y][x]
  }

  lemma DirtyKeeps(d: Dirty, core: Core, c: Byte, columns: nat, rows: nat, y: int)
    requires 0 <= y < rows && Covers(d, y)
    ensures Covers(DirtyFed(d, core, c, columns, rows), y)
  {
  }

  lemma {:induction false} DirtyAllKeeps(d: Dirty, t: Term, bytes: seq<Byte>, columns: nat, rows: nat, y: int)
    requires TermOk(t, columns, rows) && 0 <= y < rows && Covers(d, y)
    ensures Covers(DirtyAll(d, t, bytes, columns, rows), y)
    decreases |bytes|
  {
    if bytes != [] {
      FedOk(t, bytes[0], columns, rows);
      DirtyKeeps(d, t.core, bytes[0], columns, rows, y);
      DirtyAllKeeps(DirtyFed(d, t.core, bytes[0], columns, rows), Fed(t, bytes[0], columns, rows), bytes[1..], columns,
        rows, y);
    }
  }

  /** A byte that leaves a row unmarked changes nothing on it but what an erasure of the display clears. */
  lemma CellFed(d: Dirty, t: Term, c: Byte, columns: nat, rows: nat, y: int, x: int)
    requires TermOk(t, columns, rows) && 0 <= y < rows && 0 <= x < columns
    requires !Covers(DirtyFed(d, t.core, c, columns, rows), y)
    ensures TermOk(Fed(t, c, columns, rows), columns, rows)
    ensures CellAt(Fed(t, c, columns, rows), rows, y, x) ==
      if Clears(t.core, c, y, x) then Blank(t.core.pen) else CellAt(t, rows, y, x)
  {
    FedOk(t, c, columns, rows);
    if t.core.state == Ground {
      CellInGround(d, t, c, columns, rows, y, x);
    } else if Finishes(t.core, c) {
      CellExecuted(d, t, c, columns, rows, y, x);
    }
  }

  lemma CellInGround(d: Dirty, t: Term, c: Byte, columns: nat, rows: nat, y: int, x: int)
    requires TermOk(t, columns, rows) && TermOk(Fed(t, c, columns, rows), columns, rows) && t.core.state == Ground
    requires 0 <= y < rows && 0 <= x < columns && !Covers(DirtyFed(d, t.core, c, columns, rows), y)
    ensures CellAt(Fed(t, c, columns, rows), rows, y, x) == CellAt(t, rows, y, x)
  {
    var wanted := Wrapped(t.core, columns);
    if c == 10 {
      assert t.core.y + 1 < rows;
    } else if c >= 32 {
      assert wanted.y < rows && wanted.y != y;
    }
  }

  lemma CellExecuted(d: Dirty, t: Term, c: Byte, columns: nat, rows: nat, y: int, x: int)
    requires TermOk(t, columns, rows) && TermOk(Executed(t, c, columns, rows), columns, rows) && Finishes(t.core, c)
    requires 0 <= y < rows && 0 <= x < columns && !Covers(DirtyFed(d, t.core, c, columns, rows), y)
    ensures CellAt(Executed(t, c, columns, rows), rows, y, x) ==
      if Clears(t.core, c, y, x) then Blank(t.core.pen) else CellAt(t, rows, y, x)
  {
    if c == ERASE_DISPLAY {
      DisplayErasedAt(t, rows, Parameter(t.core, 0, 0), |t.history| - rows + y);
    } else if c == ERASE_LINE {
      assert y != t.core.y;
    }
  }

  lemma {:induction false} CellFedAll(d: Dirty, t: Term, bytes: seq<Byte>, columns: nat, rows: nat, y: int, x: int)
    requires TermOk(t, columns, rows) && 0 <= y < rows && 0 <= x < columns
    requires !Covers(DirtyAll(d, t, bytes, columns, rows), y)
    ensures TermOk(FedAll(t, bytes, columns, rows), columns, rows)
    ensures var blank := LastBlank(t, bytes, y, x, columns, rows);
      CellAt(FedAll(t, bytes, columns, rows), rows, y, x) == if blank.Some? then blank.value else CellAt(t, rows, y, x)
    decreases |bytes|
  {
    FedAllOk(t, bytes, columns, rows);
    if bytes != [] {
      FedOk(t, bytes[0], columns, rows);
      var d', t' := DirtyFed(d, t.core, bytes[0], columns, rows), Fed(t, bytes[0], columns, rows);
      if Covers(d', y) { DirtyAllKeeps(d', t', bytes[1..], columns, rows, y); }
      CellFed(d, t, bytes[0], columns, rows, y, x);
      CellFedAll(d', t', bytes[1..], columns, rows, y, x);
    }
  }

  lemma DamageKeeps(d: Dirty, t: Term, bytes: seq<Byte>, columns: nat, rows: nat, y: int)
    requires TermOk(t, columns, rows) && 0 <= y < rows && !Covers(Damage(d, t, bytes, columns, rows), y)
    ensures !Covers(DirtyAll(d, t, bytes, columns, rows), y) && !Covers(d, y)
  {
    FedAllOk(t, bytes, columns, rows);
    if Covers(d, y) { DirtyAllKeeps(d, t, bytes, columns, rows, y); }
  }

  /** A row left unmarked is as it was painted exactly when no erasure did any harm on it. */
  lemma RowExactly(painted: seq<Row>, d: Dirty, t: Term, bytes: seq<Byte>, columns: nat, rows: nat, y: int)
    requires TermOk(t, columns, rows) && Covered(painted, Screen(t, rows), d)
    requires 0 <= y < rows && !Covers(Damage(d, t, bytes, columns, rows), y)
    ensures TermOk(FedAll(t, bytes, columns, rows), columns, rows)
    ensures Screen(FedAll(t, bytes, columns, rows), rows)[y] == painted[y] <==>
      forall x :: 0 <= x < columns ==> Harmless(d, t, bytes, columns, rows, y, x)
  {
    FedAllOk(t, bytes, columns, rows);
    DamageKeeps(d, t, bytes, columns, rows, y);
    var before, after := Screen(t, rows)[y], Screen(FedAll(t, bytes, columns, rows), rows)[y];
    assert before == painted[y];
    forall x | 0 <= x < columns ensures after[x] == before[x] <==> Harmless(d, t, bytes, columns, rows, y, x) {
      CellFedAll(d, t, bytes, columns, rows, y, x);
    }
    if forall x :: 0 <= x < columns ==> Harmless(d, t, bytes, columns, rows, y, x) {
      assert after == before;
    }
  }

  /** After any stream everything is marked exactly when its erasures of the display did no harm. */
  lemma MarkedExactly(painted: seq<Row>, d: Dirty, t: Term, bytes: seq<Byte>, columns: nat, rows: nat)
    requires TermOk(t, columns, rows) && Covered(painted, Screen(t, rows), d)
    ensures TermOk(FedAll(t, bytes, columns, rows), columns, rows)
    ensures Covered(painted, Screen(FedAll(t, bytes, columns, rows), rows), Damage(d, t, bytes, columns, rows)) <==>
      HarmlessErasures(d, t, bytes, columns, rows)
  {
    FedAllOk(t, bytes, columns, rows);
    forall y | 0 <= y < rows && !Covers(Damage(d, t, bytes, columns, rows), y)
      ensures Screen(FedAll(t, bytes, columns, rows), rows)[y] == painted[y] <==>
        forall x :: 0 <= x < columns ==> Harmless(d, t, bytes, columns, rows, y, x)
    {
      RowExactly(painted, d, t, bytes, columns, rows, y);
    }
  }

  lemma FedMarked(painted: seq<Row>, d: Dirty, t: Term, bytes: seq<Byte>, columns: nat, rows: nat)
    requires TermOk(t, columns, rows)
    ensures TermOk(FedAll(t, bytes, columns, rows), columns, rows)
    ensures Covered(painted, Screen(t, rows), d) ==>
      (Covered(painted, Screen(FedAll(t, bytes, columns, rows), rows), Damage(d, t, bytes, columns, rows)) <==>
       HarmlessErasures(d, t, bytes, columns, rows))
    ensures NeverErases(t, bytes, columns, rows) ==> HarmlessErasures(d, t, bytes, columns, rows)
  {
    FedAllOk(t, bytes, columns, rows);
    if Covered(painted, Screen(t, rows), d) { MarkedExactly(painted, d, t, bytes, columns, rows); }
    if NeverErases(t, bytes, columns, rows) { NeverHarms(d, t, bytes, columns, rows); }
  }

  lemma {:induction false} NeverBlanks(t: Term, bytes: seq<Byte>, columns: nat, rows: nat, y: int, x: int)
    requires TermOk(t, columns, rows) && NeverErases(t, bytes, columns, rows)
    ensures LastBlank(t, bytes, y, x, columns, rows).None?
    decreases |bytes|
  {
    if bytes != [] {
      FedOk(t, bytes[0], columns, rows);
      NeverBlanks(Fed(t, bytes[0], columns, rows), bytes[1..], columns, rows, y, x);
    }
  }

  lemma NeverHarms(d: Dirty, t: Term, bytes: seq<Byte>, columns: nat, rows: nat)
    requires TermOk(t, columns, rows) && NeverErases(t, bytes, columns, rows)
    ensures HarmlessErasures(d, t, bytes, columns, rows)
  {
    forall y, x | 0 <= y < rows && 0 <= x < columns ensures Harmless(d, t, bytes, columns, rows, y, x) {
      NeverBlanks(t, bytes, columns, rows, y, x);
    }
  }

  // --- clearing the screen

  /** `ESC [ 2 J`. */
  const CLEAR: seq<Byte> := [ESC, BRACKET, 0x32, ERASE_DISPLAY]

  /** The terminal after the bytes that lead up to the erasure. */
  lemma ClearCore(t: Term, columns: nat, rows: nat) returns (t1: Term, t2: Term, t3: Term)
    requires TermOk(t, columns, rows) && t.core.state == Ground
    ensures TermOk(t1, columns, rows) && TermOk(t2, columns, rows) && TermOk(t3, columns, rows)
    ensures t1 == Fed(t, ESC, columns, rows) && t2 == Fed(t1, BRACKET, columns, rows) &&
      t3 == Fed(t2, 0x32, columns, rows)
    ensures t1.core.state == Escape && t2.core.state == Csi && t3.core.state == Csi && Parameter(t3.core, 0, 0) == 2
    ensures t3.history == t.history && t3.core.pen == t.core.pen && t3.core.y == t.core.y
    ensures Fed(t3, ERASE_DISPLAY, columns, rows).core.y == t.core.y
  {
    t1 := Fed(t, ESC, columns, rows);
    t2 := Fed(t1, BRACKET, columns, rows);
    t3 := Fed(t2, 0x32, columns, rows);
  }

  lemma ClearStream(d: Dirty, t: Term, columns: nat, rows: nat, y: int, x: int)
    requires TermOk(t, columns, rows) && t.core.state == Ground
    ensures Damage(d, t, CLEAR, columns, rows) == Touched(d, t.core.y, t.core.y + 1, rows)
    ensures LastBlank(t, CLEAR, y, x, columns, rows) == Some(Blank(t.core.pen))
  {
    var t1, t2, t3 := ClearCore(t, columns, rows);
    FedOk(t3, ERASE_DISPLAY, columns, rows);
    var t4 := Fed(t3, ERASE_DISPLAY, columns, rows);
    var rest1, rest2, rest3 := CLEAR[1..], CLEAR[2..], CLEAR[3..];
    assert rest1[1..] == rest2 && rest2[1..] == rest3 && rest3[1..] == [];
    assert FedAll(t3, rest3, columns, rows) == t4;
    assert FedAll(t2, rest2, columns, rows) == t4;
    assert FedAll(t1, rest1, columns, rows) == t4;
    assert LastBlank(t3, rest3, y, x, columns, rows) == Some(Blank(t.core.pen));
    assert LastBlank(t2, rest2, y, x, columns, rows) == Some(Blank(t.core.pen));
    assert LastBlank(t1, rest1, y, x, columns, rows) == Some(Blank(t.core.pen));
    assert DirtyAll(d, t3, rest3, columns, rows) == d;
    assert DirtyAll(d, t2, rest2, columns, rows) == d;
    assert DirtyAll(d, t1, rest1, columns, rows) == d;
  }

  /** Clearing a screen leaves everything marked exactly when every row that stays unmarked was blank. */
  method Clear(g: Grid)
    requires g.Valid() && g.Marked() && g.core.state == Ground
    modifies g, g.storage
    ensures g.Valid()
    ensures g.Marked() <==>
      forall y :: 0 <= y < g.rows && !Covers(Touched(old(g.dirty), old(g.core.y), old(g.core.y) + 1, g.rows), y) ==>
      old(Screen(g.Now(), g.rows))[y] == BlankRow(g.columns, old(g.core.pen))
  {
    ghost var t, d := g.Now(), g.dirty;
    g.Feed(CLEAR);
    ClearHarm(d, t, g.columns, g.rows);
  }

  lemma ClearHarm(d: Dirty, t: Term, columns: nat, rows: nat)
    requires TermOk(t, columns, rows) && t.core.state == Ground
    ensures HarmlessErasures(d, t, CLEAR, columns, rows) <==>
      forall y :: 0 <= y < rows && !Covers(Touched(d, t.core.y, t.core.y + 1, rows), y) ==>
        Screen(t, rows)[y] == BlankRow(columns, t.core.pen)
  {
    var damage := Touched(d, t.core.y, t.core.y + 1, rows);
    forall y, x | 0 <= y < rows && 0 <= x < columns
      ensures Harmless(d, t, CLEAR, columns, rows, y, x) <==>
        Covers(damage, y) || CellAt(t, rows, y, x) == Blank(t.core.pen)
    {
      ClearStream(d, t, columns, rows, y, x);
    }
    if HarmlessErasures(d, t, CLEAR, columns, rows) {
      forall y | 0 <= y < rows && !Covers(damage, y) ensures Screen(t, rows)[y] == BlankRow(columns, t.core.pen) {
        forall x | 0 <= x < columns ensures Screen(t, rows)[y][x] == Blank(t.core.pen) {
          assert Harmless(d, t, CLEAR, columns, rows, y, x);
          assert CellAt(t, rows, y, x) == Blank(t.core.pen);
        }
      }
    }
    if forall y :: 0 <= y < rows && !Covers(damage, y) ==> Screen(t, rows)[y] == BlankRow(columns, t.core.pen) {
      forall y, x | 0 <= y < rows && 0 <= x < columns ensures Harmless(d, t, CLEAR, columns, rows, y, x) {
        assert !Covers(damage, y) ==> Screen(t, rows)[y][x] == Blank(t.core.pen);
      }
    }
  }

  lemma LetterAndDown(pen: Pen)
    requires pen == Pen(PLAIN, -1, -1)
    ensures var t := FedAll(Initial(1, 2), [0x78, 13, 10], 1, 2);
      TermOk(t, 1, 2) && t.core.state == Ground && t.core.y == 1 && CellAt(t, 2, 0, 0) != Blank(t.core.pen)
  {
    var t := Initial(1, 2);
    FedOk(t, 0x78, 1, 2);
    var t1 := Fed(t, 0x78, 1, 2);
    FedOk(t1, 13, 1, 2);
    var t2 := Fed(t1, 13, 1, 2);
    FedOk(t2, 10, 1, 2);
    var t3 := Fed(t2, 10, 1, 2);
    var bytes: seq<Byte> := [0x78, 13, 10];
    assert bytes[1..][1..] == [10] && bytes[1..][1..][1..] == [];
    assert FedAll(t2, [10], 1, 2) == t3;
    assert FedAll(t1, bytes[1..], 1, 2) == t3;
    assert CellAt(t1, 2, 0, 0).ch == 0x78;
  }

  /** A letter on the first row, painted, the cursor on the second: clearing takes it and marks the second row. */
  method ClearUnmarked() returns (g: Grid)
    ensures g.Valid() && g.rows == 2 && !g.Marked()
  {
    g := new Grid(1, 2);
    g.Feed([0x78, 13, 10]);
    LetterAndDown(Pen(PLAIN, -1, -1));
    g.Paint(0, 2);
    assert !Covers(Touched(Dirty(0, 0), 1, 2, 2), 0);
    ghost var row := Screen(g.Now(), 2)[0];
    assert row[0] != BlankRow(1, g.core.pen)[0];
    Clear(g);
  }

  // --- feeding a stream in two pieces

  /** Whatever the one marks the other marks. */
  ghost predicate Within(d: Dirty, d': Dirty) {
    forall y {:trigger Covers(d, y)} :: Covers(d, y) ==> Covers(d', y)
  }

  lemma TouchWithin(d: Dirty, d': Dirty, from: int, to: int, rows: nat)
    requires Within(d, d')
    ensures Within(Touched(d, from, to, rows), Touched(d', from, to, rows)) && Within(d, Touched(d', from, to, rows))
  {
    if d.top < d.bottom { assert Covers(d, d.top) && Covers(d, d.bottom - 1); }
  }

  lemma FedWithin(d: Dirty, d': Dirty, core: Core, c: Byte, columns: nat, rows: nat)
    requires Within(d, d')
    ensures Within(DirtyFed(d, core, c, columns, rows), DirtyFed(d', core, c, columns, rows))
  {
    TouchWithin(d, d', 0, rows, rows);
    if core.state == Ground && c >= 32 {
      var wanted := Wrapped(core, columns).y;
      var y := if wanted < rows then wanted else rows - 1;
      TouchWithin(SettledDirty(d, wanted, rows), SettledDirty(d', wanted, rows), y, y + 1, rows);
    } else {
      TouchWithin(d, d', core.y, core.y + 1, rows);
    }
  }

  lemma {:induction false} FedAllWithin(d: Dirty, d': Dirty, t: Term, bytes: seq<Byte>, columns: nat, rows: nat)
    requires TermOk(t, columns, rows) && Within(d, d')
    ensures Within(DirtyAll(d, t, bytes, columns, rows), DirtyAll(d', t, bytes, columns, rows))
    decreases |bytes|
  {
    if bytes != [] {
      FedOk(t, bytes[0], columns, rows);
      FedWithin(d, d', t.core, bytes[0], columns, rows);
      FedAllWithin(DirtyFed(d, t.core, bytes[0], columns, rows), DirtyFed(d', t.core, bytes[0], columns, rows),
        Fed(t, bytes[0], columns, rows), bytes[1..], columns, rows);
    }
  }

  /**
   * Cutting a stream marks no row less. `t` is the terminal at the cut, `d` what the bytes before it have
   * marked and `was` the cursor's row before them: fed at once, the rest ends with the rows on the left,
   * fed separately with those on the right.
   */
  lemma SplitMarksMore(d: Dirty, t: Term, bytes: seq<Byte>, columns: nat, rows: nat, was: int)
    requires TermOk(t, columns, rows) && 0 <= was < rows
    ensures var mid, now := t.core.y, FedAll(t, bytes, columns, rows).core.y;
      Within(Touched(Touched(DirtyAll(d, t, bytes, columns, rows), was, was + 1, rows), now, now + 1, rows),
        Damage(Touched(Touched(d, was, was + 1, rows), mid, mid + 1, rows), t, bytes, columns, rows))
  {
    FedAllOk(t, bytes, columns, rows);
    var mid, now := t.core.y, FedAll(t, bytes, columns, rows).core.y;
    var d1 := Touched(d, was, was + 1, rows);
    var d2 := Touched(d1, mid, mid + 1, rows);
    TouchWithin(d, d, was, was + 1, rows);
    TouchWithin(d1, d1, mid, mid + 1, rows);
    FedAllWithin(d, d2, t, bytes, columns, rows);
    DirtyAllKeeps(d2, t, bytes, columns, rows, was);
    var one, two := DirtyAll(d, t, bytes, columns, rows), DirtyAll(d2, t, bytes, columns, rows);
    TouchedInto(one, two, was, rows);
    TouchWithin(Touched(one, was, was + 1, rows), two, mid, mid + 1, rows);
    TouchWithin(Touched(one, was, was + 1, rows), Touched(two, mid, mid + 1, rows), now, now + 1, rows);
  }

  lemma TouchedInto(d: Dirty, d': Dirty, k: int, rows: nat)
    requires Within(d, d') && Covers(d', k) && 0 <= k < rows
    ensures Within(Touched(d, k, k + 1, rows), d')
  {
    TouchedSmallest(d, k, k + 1, rows, d');
  }
}
