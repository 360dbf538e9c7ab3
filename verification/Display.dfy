/**
 The 24-row text screen, as a value: what one output byte does to it.

 The kernel has two output engines written out separately, one on video memory
 and one on the saved buffer of a background terminal.  Both are proved (in
 Console.dfy) to compute the functions of this module.

 The functions are then tied to an independent reference, the `Tape`: a paper
 roll on which characters are only ever appended and from which a scroll never
 removes anything.  A screen is the last 24 rows of its tape.
 */
module Display {
  import opened Common

  const COLS := 80
  const ROWS := 24
  const CELLS := 1920     // ROWS * COLS
  const SPACE: byte := 32
  const CR: byte := 13

  datatype Cell = Cell(ch: byte, attr: byte)

  function Blank(attr: byte): Cell { Cell(SPACE, attr) }

  function BlankRow(attr: byte): (r: seq<Cell>)
    ensures |r| == COLS && forall i :: 0 <= i < COLS ==> r[i] == Blank(attr)
  {
    seq(COLS, _ => Blank(attr))
  }

  /** `rowStack` counts the rows wrapped since the last newline. */
  datatype Screen = Screen(cells: seq<Cell>, x: int, y: int, rowStack: int)

  predicate Safe(s: Screen) {
    && |s.cells| == CELLS
    && 0 <= s.x < COLS
    && 0 <= s.y < ROWS
    && 0 <= s.rowStack <= s.y
  }

  function ScrollUp(cells: seq<Cell>, attr: byte): (r: seq<Cell>)
    requires |cells| == CELLS
    ensures |r| == CELLS
    ensures forall i :: 0 <= i < CELLS - COLS ==> r[i] == cells[i + COLS]
    ensures forall i :: CELLS - COLS <= i < CELLS ==> r[i] == Blank(attr)
  {
    cells[COLS..] + BlankRow(attr)
  }

  /** A printable byte: written at the cursor; a full row wraps, and wrapping
      below the last row scrolls. */
  function PutChar(s: Screen, c: byte, attr: byte): (r: Screen)
    requires Safe(s)
    ensures Safe(r)
  {
    var written := s.cells[COLS * s.y + s.x := Cell(c, attr)];
    if s.x + 1 < COLS then Screen(written, s.x + 1, s.y, s.rowStack)
    else if s.y + 1 < ROWS then Screen(written, 0, s.y + 1, s.rowStack + 1)
    else Screen(ScrollUp(written, attr), 0, ROWS - 1, Min(s.rowStack + 1, ROWS - 1))
  }

  /** A newline moves down one row, except right after a wrap, where the cursor
      already stands at the start of a fresh row. */
  function NewLine(s: Screen, attr: byte): (r: Screen)
    requires Safe(s)
    ensures Safe(r)
  {
    var wrapped := s.x == 0 && s.rowStack != 0;
    if s.y + 1 < ROWS then Screen(s.cells, 0, if wrapped then s.y else s.y + 1, 0)
    else Screen(ScrollUp(s.cells, attr), 0, if wrapped then ROWS - 2 else ROWS - 1, 0)
  }

  function PutByte(s: Screen, c: byte, attr: byte): (r: Screen)
    requires Safe(s)
    ensures Safe(r)
  {
    if c == LF || c == CR then NewLine(s, attr) else PutChar(s, c, attr)
  }

  function PutBytes(s: Screen, bytes: seq<byte>, attr: byte): (r: Screen)
    requires Safe(s)
    ensures Safe(r)
  {
    if bytes == [] then s
    else PutByte(PutBytes(s, bytes[..|bytes| - 1], attr), bytes[|bytes| - 1], attr)
  }

  // ---------------------------------------------------------------- the tape

  /** Everything printed so far, row after row; `pos` is the linear cursor. */
  datatype Tape = Tape(cells: seq<Cell>, pos: int, rowStack: int)

  function Top(t: Tape): int { |t.cells| - CELLS }

  predicate Loaded(t: Tape) {
    && |t.cells| >= CELLS
    && |t.cells| % COLS == 0
    && Top(t) <= t.pos < |t.cells|
    && 0 <= t.rowStack
    && COLS * t.rowStack <= t.pos - Top(t)
  }

  /** What the screen shows of a tape: its last 24 rows. */
  function Window(t: Tape): (s: Screen)
    requires Loaded(t)
    ensures Safe(s)
    ensures COLS * s.y + s.x == t.pos - Top(t)
  {
    var p := t.pos - Top(t);
    Screen(t.cells[Top(t)..], p % COLS, p / COLS, t.rowStack)
  }

  /** The tape on which only the current screen has been printed. */
  function FreshTape(s: Screen): (t: Tape)
    requires Safe(s)
    ensures Loaded(t) && Window(t) == s
  {
    Tape(s.cells, COLS * s.y + s.x, s.rowStack)
  }

  /** Feed one blank row. */
  function Feed(t: Tape, attr: byte): Tape {
    t.(cells := t.cells + BlankRow(attr))
  }

  function TapePutChar(t: Tape, c: byte, attr: byte): (r: Tape)
    requires Loaded(t)
  {
    var pos := t.pos + 1;
    var rows := if pos % COLS == 0 then Min(t.rowStack + 1, ROWS - 1) else t.rowStack;
    var printed := Tape(t.cells[t.pos := Cell(c, attr)], pos, rows);
    if pos == |t.cells| then Feed(printed, attr) else printed
  }

  function TapeNewLine(t: Tape, attr: byte): (r: Tape)
    requires Loaded(t)
  {
    var wrapped := t.pos % COLS == 0 && t.rowStack != 0;
    var pos := if wrapped then t.pos else t.pos - t.pos % COLS + COLS;
    var moved := Tape(t.cells, pos, 0);
    if t.pos + COLS >= |t.cells| then Feed(moved, attr) else moved
  }

  function TapePutByte(t: Tape, c: byte, attr: byte): (r: Tape)
    requires Loaded(t)
  {
    if c == LF || c == CR then TapeNewLine(t, attr) else TapePutChar(t, c, attr)
  }

  lemma RowsOfPosition(t: Tape)
    requires Loaded(t)
    ensures t.pos % COLS == (t.pos - Top(t)) % COLS
    ensures (t.pos - Top(t)) / COLS == ROWS - 1 <==> t.pos + COLS >= |t.cells|
  {
  }

  lemma WindowOfPutChar(t: Tape, c: byte, attr: byte)
    requires Loaded(t)
    ensures Loaded(TapePutChar(t, c, attr))
    ensures Window(TapePutChar(t, c, attr)) == PutChar(Window(t), c, attr)
  {
    RowsOfPosition(t);
    var r := TapePutChar(t, c, attr);
    assert (t.pos + 1) % COLS == 0 <==> Window(t).x == COLS - 1;
    assert Window(r).cells == PutChar(Window(t), c, attr).cells;
  }

  lemma WindowOfNewLine(t: Tape, attr: byte)
    requires Loaded(t)
    ensures Loaded(TapeNewLine(t, attr))
    ensures Window(TapeNewLine(t, attr)) == NewLine(Window(t), attr)
  {
    RowsOfPosition(t);
    var r := TapeNewLine(t, attr);
    assert Window(r).cells == NewLine(Window(t), attr).cells;
  }

  lemma WindowOfPutByte(t: Tape, c: byte, attr: byte)
    requires Loaded(t)
    ensures Loaded(TapePutByte(t, c, attr))
    ensures Window(TapePutByte(t, c, attr)) == PutByte(Window(t), c, attr)
  {
    if c == LF || c == CR { WindowOfNewLine(t, attr); } else { WindowOfPutChar(t, c, attr); }
  }

  /** A newline or a carriage return moves to the start of the next row, or stays at the
      start of a row just wrapped to; nothing on the tape changes, and at most one blank
      row is fed, when the cursor was on the last one. */
  lemma LineEndMovesOn(t: Tape, c: byte, attr: byte)
    requires Loaded(t) && (c == LF || c == CR)
    ensures var r := TapePutByte(t, c, attr);
            && Loaded(r) && Window(r) == PutByte(Window(t), c, attr)
            && RowStartBehind(t, r) && FedAtMostOne(t, r, attr) && r.rowStack == 0
  {
    WindowOfNewLine(t, attr);
    RowsOfPosition(t);
  }

  /** The cursor of `r` is at the first row start behind that of `t`, or there already
      if `t` has just wrapped. */
  predicate RowStartBehind(t: Tape, r: Tape) {
    && r.pos % COLS == 0 && t.pos <= r.pos <= t.pos + COLS
    && (r.pos == t.pos <==> t.pos % COLS == 0 && t.rowStack != 0)
  }

  predicate FedAtMostOne(t: Tape, r: Tape, attr: byte)
    requires Loaded(t)
  {
    && |r.cells| == |t.cells| + (if Window(t).y == ROWS - 1 then COLS else 0)
    && r.cells[..|t.cells|] == t.cells
    && forall i :: |t.cells| <= i < |r.cells| ==> r.cells[i] == Blank(attr)
  }

  ghost predicate History(t: Tape, r: Tape) {
    && Loaded(t) && Loaded(r)
    && |t.cells| <= |r.cells| && t.pos <= r.pos
    && r.cells[..t.pos] == t.cells[..t.pos]
  }

  function TapePutBytes(t: Tape, bytes: seq<byte>, attr: byte): (r: Tape)
    requires Loaded(t)
    ensures Loaded(r)
  {
    if bytes == [] then t
    else
      var s := TapePutBytes(t, bytes[..|bytes| - 1], attr);
      WindowOfPutByte(s, bytes[|bytes| - 1], attr);
      TapePutByte(s, bytes[|bytes| - 1], attr)
  }

  /** Printing any text on a safe screen shows the last 24 rows of the tape, and
      nothing printed earlier is ever altered on the tape: scrolling only moves
      the window. */
  lemma {:induction false} ScreenIsWindowOfTape(t: Tape, bytes: seq<byte>, attr: byte)
    requires Loaded(t)
    ensures Window(TapePutBytes(t, bytes, attr)) == PutBytes(Window(t), bytes, attr)
    ensures History(t, TapePutBytes(t, bytes, attr))
  {
    if bytes != [] {
      var init, last := bytes[..|bytes| - 1], bytes[|bytes| - 1];
      ScreenIsWindowOfTape(t, init, attr);
      var s := TapePutBytes(t, init, attr);
      WindowOfPutByte(s, last, attr);
      assert TapePutByte(s, last, attr).cells[..t.pos] == s.cells[..t.pos];
    }
  }

  predicate Printable(bytes: seq<byte>) {
    forall j :: 0 <= j < |bytes| ==> bytes[j] != LF && bytes[j] != CR
  }

  lemma PrintedByteIsOnTheTape(t: Tape, s: Tape, text: seq<byte>, c: byte, attr: byte)
    requires Loaded(t) && Loaded(s) && s.pos == t.pos + |text| && c != LF && c != CR
    requires forall j :: 0 <= j < |text| ==> s.cells[t.pos + j] == Cell(text[j], attr)
    ensures var r, more := TapePutByte(s, c, attr), text + [c];
            && r.pos == t.pos + |more| && |r.cells| >= r.pos
            && forall j :: 0 <= j < |more| ==> r.cells[t.pos + j] == Cell(more[j], attr)
  {
  }

  /** A text without newlines lands, byte for byte, right after the cursor. */
  lemma {:induction false} PrintedTextIsOnTheTape(t: Tape, bytes: seq<byte>, attr: byte)
    requires Loaded(t) && Printable(bytes)
    ensures var r := TapePutBytes(t, bytes, attr);
            && r.pos == t.pos + |bytes|
            && forall j :: 0 <= j < |bytes| ==> r.cells[t.pos + j] == Cell(bytes[j], attr)
  {
    if bytes != [] {
      var init, last := bytes[..|bytes| - 1], bytes[|bytes| - 1];
      PrintedTextIsOnTheTape(t, init, attr);
      PrintedByteIsOnTheTape(t, TapePutBytes(t, init, attr), init, last, attr);
      assert init + [last] == bytes;
    }
  }
}
