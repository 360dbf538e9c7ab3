/**
 The line being typed: the key buffer (127 characters, then an 8-bit counter of
 characters that no longer fit), backspace, and the promise that the line on the
 screen is the line handed to the reading program.
 */
module LineEditor {
  import opened Common
  import opened Display

  const KEY_LIMIT := 127        // KEY_ARR_SIZE - 1
  const COUNTER_LIMIT := 255    // the overflow counter is 8 bits wide

  /** One terminal as its user sees it.  `column` is the leftmost column backspace
      may reach on the first row; `keys` is the live prefix of the key buffer. */
  datatype Terminal = Terminal(screen: Screen, column: int, keys: seq<byte>, overflow: byte)

  predicate Sound(t: Terminal) {
    Safe(t.screen) && 0 <= t.column < COLS && |t.keys| <= KEY_LIMIT
  }

  function Push(t: Terminal, c: byte): Terminal {
    if |t.keys| < KEY_LIMIT then t.(keys := t.keys + [c])
    else t.(overflow := (t.overflow + 1) % 256)
  }

  function Pop(t: Terminal): Terminal {
    if t.overflow != 0 then t.(overflow := t.overflow - 1)
    else if t.keys != [] then t.(keys := t.keys[..|t.keys| - 1])
    else t
  }

  function TypeKey(t: Terminal, c: byte, attr: byte): (r: Terminal)
    requires Sound(t)
    ensures Sound(r)
  {
    Push(t.(screen := PutByte(t.screen, c, attr)), c)
  }

  predicate AtPrompt(t: Terminal) { t.screen.x == t.column && t.screen.rowStack == 0 }

  /** The cursor lies left of the column backspace may reach, on the first row. */
  predicate BeforePrompt(t: Terminal) {
    t.screen.x == 0 && t.screen.rowStack == 0 && t.column != 0
  }

  /** Backspace: nothing at the prompt, the end of the row above right after a
      wrap, the previous cell otherwise. */
  function Erase(t: Terminal, attr: byte): (r: Terminal)
    requires Sound(t) && !BeforePrompt(t)
    ensures Sound(r)
  {
    if AtPrompt(t) then t
    else
      var s := t.screen;
      var cells := s.cells[COLS * s.y + s.x - 1 := Blank(attr)];
      if s.x == 0 && s.rowStack != 0
      then Pop(t.(screen := Screen(cells, COLS - 1, s.y - 1, s.rowStack - 1)))
      else Pop(t.(screen := Screen(cells, s.x - 1, s.y, s.rowStack)))
  }

  /** Enter appends a newline to the buffer (when it still fits) and moves on. */
  function EnterKey(t: Terminal, attr: byte): (r: Terminal)
    requires Sound(t)
    ensures Sound(r)
  {
    var p := Push(t, LF);
    p.(screen := NewLine(p.screen, attr))
  }

  /** A write by a program of this terminal. */
  function WriteText(t: Terminal, bytes: seq<byte>, attr: byte): (r: Terminal)
    requires Sound(t)
    ensures Sound(r)
  {
    var s := PutBytes(t.screen, bytes, attr);
    Terminal(s, s.x, t.keys, t.overflow)
  }

  // ------------------------------------------------------- where backspace goes

  /** The column to which backspace moves the cursor, on any safe screen. */
  function ErasedColumn(t: Terminal): int {
    if AtPrompt(t) then t.screen.x
    else if t.screen.x == 0 && t.screen.rowStack != 0 then COLS - 1
    else t.screen.x - 1
  }

  /** The cell that backspace blanks unless the cursor is at the prompt: the one in
      front of the cursor, be it on the row above. */
  function ErasedCell(t: Terminal): int { COLS * t.screen.y + t.screen.x - 1 }

  /** What backspace does to column and cells as long as it stays on the screen. */
  lemma EraseMoves(t: Terminal, attr: byte)
    requires Sound(t) && !BeforePrompt(t)
    ensures Erase(t, attr).screen.x == ErasedColumn(t)
    ensures AtPrompt(t) ==> Erase(t, attr) == t
    ensures !AtPrompt(t) ==>
      && 0 <= ErasedCell(t) < CELLS
      && Erase(t, attr).screen.cells == t.screen.cells[ErasedCell(t) := Blank(attr)]
      && Erase(t, attr).keys == Pop(t).keys && Erase(t, attr).overflow == Pop(t).overflow
  {
  }

  /** Backspace keeps the cursor on the screen if and only if the cursor is not at
      the start of a first row that has a prompt column; there it goes to column -1. */
  lemma BackspaceStaysOnScreenIff(t: Terminal)
    requires Sound(t)
    ensures 0 <= ErasedColumn(t) < COLS <==> !BeforePrompt(t)
    ensures BeforePrompt(t) ==> ErasedColumn(t) == -1
  {
  }

  /** Even there it writes on the page, into the last cell of the row above, unless the
      cursor is on the top row: then, and only then, it writes in front of the page. */
  lemma BackspaceWritesOnPageIff(t: Terminal)
    requires Sound(t) && !AtPrompt(t)
    ensures 0 <= ErasedCell(t) < CELLS <==> !(BeforePrompt(t) && t.screen.y == 0)
    ensures BeforePrompt(t) ==> ErasedCell(t) == COLS * t.screen.y - 1
  {
  }

  /** Such cursors are reached: by Enter, and by anything printed that ends in a
      newline, exactly when a prompt column is set. */
  lemma NewlineReachesBeforePrompt(t: Terminal, text: seq<byte>, attr: byte)
    requires Sound(t) && text != [] && text[|text| - 1] == LF
    ensures BeforePrompt(EnterKey(t, attr)) <==> t.column != 0
    ensures BeforePrompt(t.(screen := PutBytes(t.screen, text, attr))) <==> t.column != 0
  {
    assert EnterKey(t, attr).screen.x == 0 && EnterKey(t, attr).screen.rowStack == 0;
  }

  /** With an empty line, backspace leaves the program's prompt alone exactly when
      no wrap is counted. */
  lemma BackspaceAtPrompt(t: Terminal, attr: byte)
    requires Sound(t) && t.screen.x == t.column
    ensures Erase(t, attr) == t <==> t.screen.rowStack == 0
  {
    if t.screen.rowStack != 0 {
      assert Erase(t, attr).screen.x != t.screen.x;
    }
  }

  /** Without a newline, a wrap is counted exactly if one was before or the text does
      not fit its row. */
  lemma {:induction false} PrintedTextWrapsIff(s: Screen, text: seq<byte>, attr: byte)
    requires Safe(s) && Printable(text)
    ensures var r := PutBytes(s, text, attr);
            && (r.rowStack == 0 <==> s.rowStack == 0 && s.x + |text| < COLS)
            && (r.rowStack == 0 ==> r.x == s.x + |text|)
  {
    if text != [] {
      PrintedTextWrapsIff(s, text[..|text| - 1], attr);
    }
  }

  /** So a prompt is safe from backspace if and only if it was printed without a wrap. */
  lemma PromptIsSafeIff(t: Terminal, prompt: seq<byte>, attr: byte)
    requires Sound(t) && Printable(prompt)
    ensures var p := WriteText(t, prompt, attr);
            Erase(p, attr) == p <==> t.screen.rowStack == 0 && t.screen.x + |prompt| < COLS
  {
    PrintedTextWrapsIff(t.screen, prompt, attr);
    BackspaceAtPrompt(WriteText(t, prompt, attr), attr);
  }

  // ------------------------------------------------ what you see is what you submit

  datatype Key = Char(c: byte) | Backspace

  predicate Typable(ks: seq<Key>) {
    forall i :: 0 <= i < |ks| && ks[i].Char? ==> ks[i].c != LF && ks[i].c != CR
  }

  /** The line a user has in mind after these keys. */
  function Pending(ks: seq<Key>): (line: seq<byte>)
    ensures |line| <= |ks|
  {
    if ks == [] then []
    else
      var before := Pending(ks[..|ks| - 1]);
      match ks[|ks| - 1]
      case Char(c) => before + [c]
      case Backspace => if before == [] then [] else before[..|before| - 1]
  }

  /** No moment of the run has more than 127 + 255 pending characters. */
  predicate FitsCounter(ks: seq<Key>) {
    forall n :: 0 <= n <= |ks| ==> |Pending(ks[..n])| <= KEY_LIMIT + COUNTER_LIMIT
  }

  /** The same keys on the terminal.  A backspace that would leave the screen is not
      modelled and keeps the terminal; `TypingStaysOnScreen` shows that no run from a
      prompt meets one. */
  function Press(t: Terminal, k: Key, attr: byte): (r: Terminal)
    requires Sound(t)
    ensures Sound(r)
  {
    match k
    case Char(c) => TypeKey(t, c, attr)
    case Backspace => if BeforePrompt(t) then t else Erase(t, attr)
  }

  function PressAll(t: Terminal, ks: seq<Key>, attr: byte): (r: Terminal)
    requires Sound(t)
    ensures Sound(r)
  {
    if ks == [] then t else Press(PressAll(t, ks[..|ks| - 1], attr), ks[|ks| - 1], attr)
  }

  lemma PressOneMore(t: Terminal, ks: seq<Key>, k: Key, attr: byte)
    requires Sound(t)
    ensures PressAll(t, ks + [k], attr) == Press(PressAll(t, ks, attr), k, attr)
  {
    assert (ks + [k])[..|ks|] == ks;
  }

  /** On its first row the cursor is not left of the prompt column. */
  predicate InLine(t: Terminal) { t.screen.rowStack == 0 ==> t.screen.x >= t.column }

  /** However many characters are typed and erased, no backspace of the run meets the
      cursor before the prompt. */
  lemma {:induction false} TypingStaysOnScreen(t: Terminal, ks: seq<Key>, n: nat, attr: byte)
    requires Sound(t) && InLine(t) && Typable(ks) && n <= |ks|
    ensures InLine(PressAll(t, ks[..n], attr)) && !BeforePrompt(PressAll(t, ks[..n], attr))
    ensures PressAll(t, ks[..n], attr).column == t.column
  {
    if n > 0 {
      TypingStaysOnScreen(t, ks, n - 1, attr);
      assert ks[..n][..n - 1] == ks[..n - 1];
    }
  }

  /** What a program's read of `nbytes` bytes gets of the pending line. */
  function Delivered(t: Terminal, nbytes: int): seq<byte> {
    t.keys[..if nbytes < 0 then 0 else Min(|t.keys|, nbytes)]
  }

  predicate FreshPrompt(t: Terminal) {
    Sound(t) && AtPrompt(t) && t.keys == [] && t.overflow == 0
  }

  /** The screen's count of typed characters and the buffer's count. */
  function Shown(t: Terminal): int { COLS * t.screen.rowStack + t.screen.x - t.column }
  function Buffered(t: Terminal): int { |t.keys| + t.overflow }

  /** The tape under a terminal that holds exactly `line` after the prompt that
      stood at `start` on tape `t0`. */
  ghost predicate LineOnTape(t0: Tape, t: Tape, line: seq<byte>, attr: byte) {
    && Loaded(t0) && Loaded(t)
    && |t0.cells| <= |t.cells|
    && t.pos == t0.pos + |line|
    && COLS * t.rowStack == t.pos - t.pos % COLS - (t0.pos - t0.pos % COLS)
    && t.cells[..t0.pos] == t0.cells[..t0.pos]
    && (forall j :: 0 <= j < |line| ==> t.cells[t0.pos + j] == Cell(line[j], attr))
    && ((forall i :: t0.pos <= i < |t0.cells| ==> t0.cells[i].ch == SPACE)
        ==> forall i :: t.pos <= i < |t.cells| ==> t.cells[i].ch == SPACE)
  }

  predicate KeysHold(t: Terminal, line: seq<byte>) {
    && t.keys == line[..Min(|line|, KEY_LIMIT)]
    && |line| == |t.keys| + t.overflow
  }

  ghost predicate Editing(t0: Terminal, t: Terminal, tape: Tape, line: seq<byte>, attr: byte) {
    && Sound(t0) && Sound(t)
    && t.column == t0.column
    && LineOnTape(FreshTape(t0.screen), tape, line, attr)
    && t.screen == Window(tape)
    && KeysHold(t, line)
  }

  lemma NextPosition(start: int, n: nat)
    requires 0 <= start
    ensures var p := start + n;
            (p + 1) - (p + 1) % COLS == p - p % COLS + (if (p + 1) % COLS == 0 then COLS else 0)
    ensures n < 400 ==> start + n - (start + n) % COLS - (start - start % COLS) <= COLS * 5
  {
  }

  lemma CharOnTape(t0: Tape, t: Tape, line: seq<byte>, c: byte, attr: byte)
    requires LineOnTape(t0, t, line, attr)
    requires |line| <= KEY_LIMIT + COUNTER_LIMIT
    ensures LineOnTape(t0, TapePutChar(t, c, attr), line + [c], attr)
  {
    var r := TapePutChar(t, c, attr);
    WindowOfPutChar(t, c, attr);
    RowsOnTape(t0.pos, |line|, t.rowStack);
    assert r.cells[..t0.pos] == t0.cells[..t0.pos] by {
      assert r.cells[..t.pos] == t.cells[..t.pos];
      assert r.cells[..t0.pos] == r.cells[..t.pos][..t0.pos];
      assert t.cells[..t0.pos] == t.cells[..t.pos][..t0.pos];
    }
  }

  /** The counted wraps keep pace with the rows of the tape. */
  lemma RowsOnTape(start: nat, n: nat, rows: int)
    requires n <= KEY_LIMIT + COUNTER_LIMIT
    requires COLS * rows == start + n - (start + n) % COLS - (start - start % COLS)
    ensures var p := start + n + 1;
            COLS * (if p % COLS == 0 then Min(rows + 1, ROWS - 1) else rows)
            == p - p % COLS - (start - start % COLS)
  {
    NextPosition(start, n);
    assert rows <= 5;
  }

  lemma PushHolds(t: Terminal, line: seq<byte>, c: byte)
    requires KeysHold(t, line) && |line| < KEY_LIMIT + COUNTER_LIMIT
    ensures KeysHold(Push(t, c), line + [c])
  {
    if |line| < KEY_LIMIT {
      assert (line + [c])[..|line| + 1] == line + [c];
    } else {
      assert (line + [c])[..KEY_LIMIT] == line[..KEY_LIMIT];
    }
  }

  lemma CharKeepsEditing(t0: Terminal, t: Terminal, tape: Tape, line: seq<byte>, c: byte, attr: byte)
    requires Editing(t0, t, tape, line, attr)
    requires c != LF && c != CR
    requires |line| < KEY_LIMIT + COUNTER_LIMIT
    ensures Editing(t0, TypeKey(t, c, attr), TapePutChar(tape, c, attr), line + [c], attr)
  {
    WindowOfPutChar(tape, c, attr);
    CharOnTape(FreshTape(t0.screen), tape, line, c, attr);
    PushHolds(t.(screen := PutByte(t.screen, c, attr)), line, c);
  }

  /** One step back on the tape. */
  function TapeErase(t: Tape, attr: byte): Tape
    requires Loaded(t) && Top(t) < t.pos
  {
    Tape(t.cells[t.pos - 1 := Blank(attr)], t.pos - 1,
         if t.pos % COLS == 0 then t.rowStack - 1 else t.rowStack)
  }

  lemma EraseOnTape(t0: Tape, t: Tape, line: seq<byte>, attr: byte)
    requires LineOnTape(t0, t, line, attr) && line != []
    requires Top(t) < t.pos
    ensures LineOnTape(t0, TapeErase(t, attr), line[..|line| - 1], attr)
  {
    var r := TapeErase(t, attr);
    assert r.cells[..t0.pos] == t.cells[..t0.pos];
    assert COLS * r.rowStack == r.pos - r.pos % COLS - (t0.pos - t0.pos % COLS) by {
      NextPosition(t0.pos, |line| - 1);
    }
  }

  lemma PopHolds(t: Terminal, line: seq<byte>)
    requires KeysHold(t, line) && line != []
    ensures KeysHold(Pop(t), line[..|line| - 1])
  {
  }

  /** Where the cursor stands on a non-empty line. */
  lemma CursorInLine(t0: Terminal, t: Terminal, tape: Tape, line: seq<byte>, attr: byte)
    requires FreshPrompt(t0) && Editing(t0, t, tape, line, attr)
    ensures Shown(t) == |line|
    ensures tape.pos % COLS == t.screen.x
    ensures AtPrompt(t) <==> line == []
    ensures !BeforePrompt(t)
    ensures line != [] ==> Top(tape) < tape.pos
  {
    RowsOfPosition(tape);
    assert FreshTape(t0.screen).pos % COLS == t0.column;
  }

  lemma EraseKeepsEditing(t0: Terminal, t: Terminal, tape: Tape, line: seq<byte>, attr: byte)
    requires FreshPrompt(t0) && Editing(t0, t, tape, line, attr)
    requires line != [] && !BeforePrompt(t) && Top(tape) < tape.pos
    ensures Editing(t0, Erase(t, attr), TapeErase(tape, attr), line[..|line| - 1], attr)
  {
    CursorInLine(t0, t, tape, line, attr);
    EraseOnTape(FreshTape(t0.screen), tape, line, attr);
    PopHolds(t, line);
    WindowOfErase(tape, attr);
    assert Erase(t, attr).screen == Window(TapeErase(tape, attr));
  }

  lemma WindowOfErase(t: Tape, attr: byte)
    requires Loaded(t) && Top(t) < t.pos && Loaded(TapeErase(t, attr))
    ensures var s := Window(t);
            Window(TapeErase(t, attr)) ==
              Screen(s.cells[COLS * s.y + s.x - 1 := Blank(attr)],
                     if s.x == 0 then COLS - 1 else s.x - 1,
                     if s.x == 0 then s.y - 1 else s.y,
                     if s.x == 0 then s.rowStack - 1 else s.rowStack)
  {
    RowsOfPosition(t);
    var s, r := Window(t), TapeErase(t, attr);
    assert Window(r).cells == s.cells[COLS * s.y + s.x - 1 := Blank(attr)];
  }

  lemma PendingPrefix(ks: seq<Key>, n: nat)
    requires 0 < n <= |ks|
    ensures ks[..n][..n - 1] == ks[..n - 1] && ks[..n][n - 1] == ks[n - 1]
  {
  }

  lemma {:induction false} RunKeepsEditing(t0: Terminal, ks: seq<Key>, attr: byte) returns (tape: Tape)
    requires FreshPrompt(t0) && Typable(ks) && FitsCounter(ks)
    ensures Editing(t0, PressAll(t0, ks, attr), tape, Pending(ks), attr)
  {
    if ks == [] {
      tape := FreshTape(t0.screen);
    } else {
      var init, last := ks[..|ks| - 1], ks[|ks| - 1];
      assert FitsCounter(init) by {
        forall n | 0 <= n <= |init|
          ensures |Pending(init[..n])| <= KEY_LIMIT + COUNTER_LIMIT
        {
          assert init[..n] == ks[..n];
        }
      }
      tape := RunKeepsEditing(t0, init, attr);
      var t, line := PressAll(t0, init, attr), Pending(init);
      CursorInLine(t0, t, tape, line, attr);
      match last
      case Char(c) =>
        assert ks[..|ks|] == ks;
        CharKeepsEditing(t0, t, tape, line, c, attr);
        tape := TapePutChar(tape, c, attr);
      case Backspace =>
        if line != [] {
          EraseKeepsEditing(t0, t, tape, line, attr);
          tape := TapeErase(tape, attr);
        }
    }
  }

  /** The row on which the pending line starts. */
  function LineRow(t: Terminal): int { t.screen.y - t.screen.rowStack }

  /** Linear position of the first character of the line. */
  function LineStart(t: Terminal): int { COLS * LineRow(t) + t.column }

  /** The screen shows `line` from its start to the cursor, and above it exactly
      what was there when the prompt was fresh, moved up by whole rows. */
  ghost predicate ShowsLine(t0: Terminal, t: Terminal, line: seq<byte>, attr: byte) {
    && Sound(t0) && Sound(t)
    && 0 <= LineStart(t) <= LineStart(t0)
    && LineStart(t) + |line| == COLS * t.screen.y + t.screen.x
    && (forall j :: 0 <= j < |line| ==>
          t.screen.cells[LineStart(t) + j] == Cell(line[j], attr))
    && (forall k :: 0 <= k < LineStart(t) ==>
          t.screen.cells[k] == t0.screen.cells[k + LineStart(t0) - LineStart(t)])
    && ((forall k :: LineStart(t0) <= k < CELLS ==> t0.screen.cells[k].ch == SPACE)
        ==> forall k :: LineStart(t) + |line| <= k < CELLS ==> t.screen.cells[k].ch == SPACE)
  }

  lemma EditingShowsLine(t0: Terminal, t: Terminal, tape: Tape, line: seq<byte>, attr: byte)
    requires FreshPrompt(t0) && Editing(t0, t, tape, line, attr)
    ensures ShowsLine(t0, t, line, attr)
  {
    CursorInLine(t0, t, tape, line, attr);
    var base := FreshTape(t0.screen);
    var top := Top(tape);
    assert LineStart(t) + top == base.pos;
    forall j | 0 <= j < |line|
      ensures t.screen.cells[LineStart(t) + j] == Cell(line[j], attr)
    {
      assert t.screen.cells[LineStart(t) + j] == tape.cells[base.pos + j];
    }
    forall k | 0 <= k < LineStart(t)
      ensures t.screen.cells[k] == t0.screen.cells[k + LineStart(t0) - LineStart(t)]
    {
      assert tape.cells[..base.pos][k + top] == base.cells[..base.pos][k + top];
    }
  }

  /** What you see is what you submit: after any run of character keys and
      backspaces from a fresh prompt that never has more than 382 characters
      pending, screen, wrap counters and key buffer agree on one line. */
  lemma WhatYouSeeIsTheLine(t0: Terminal, ks: seq<Key>, attr: byte)
    requires FreshPrompt(t0) && Typable(ks) && FitsCounter(ks)
    ensures var t := PressAll(t0, ks, attr);
            var line := Pending(ks);
            && Shown(t) == |line| == Buffered(t)
            && t.keys == line[..Min(|line|, KEY_LIMIT)]
            && t.column == t0.column
            && ShowsLine(t0, t, line, attr)
  {
    var tape := RunKeepsEditing(t0, ks, attr);
    EditingShowsLine(t0, PressAll(t0, ks, attr), tape, Pending(ks), attr);
    CursorInLine(t0, PressAll(t0, ks, attr), tape, Pending(ks), attr);
  }

  /** What a read returns after Enter: the line on the screen and its newline, cut
      to the 127 characters the buffer holds. */
  lemma WhatYouSeeIsWhatYouSubmit(t0: Terminal, ks: seq<Key>, attr: byte)
    requires FreshPrompt(t0) && Typable(ks) && FitsCounter(ks)
    ensures var line := Pending(ks);
            EnterKey(PressAll(t0, ks, attr), attr).keys
              == (line + [LF])[..Min(|line| + 1, 127)]
  {
    WhatYouSeeIsTheLine(t0, ks, attr);
    var line := Pending(ks);
    if |line| < KEY_LIMIT {
      assert line[..|line|] == line;
      assert (line + [LF])[..|line| + 1] == line + [LF];
    } else {
      assert (line + [LF])[..KEY_LIMIT] == line[..KEY_LIMIT];
    }
  }

  /** On every terminal, Enter leaves the text on the screen as it is and puts the cursor
      at the start of the next row, or of the row just wrapped to; the screen moves up by
      one row if the cursor was on its last. */
  lemma EnterOnTape(t: Terminal, attr: byte) returns (r: Tape)
    requires Sound(t)
    ensures var tape, e := FreshTape(t.screen), EnterKey(t, attr);
            && Loaded(r) && e.screen == Window(r) && e.column == t.column
            && RowStartBehind(tape, r) && FedAtMostOne(tape, r, attr) && r.rowStack == 0
  {
    LineEndMovesOn(FreshTape(t.screen), LF, attr);
    r := TapePutByte(FreshTape(t.screen), LF, attr);
  }

  /** Enter after a line typed at a fresh prompt: the line stays where it is, and the
      cursor goes to the first row behind it. */
  lemma EnterLeavesTheLine(t0: Terminal, ks: seq<Key>, attr: byte) returns (tape: Tape, r: Tape)
    requires FreshPrompt(t0) && Typable(ks) && FitsCounter(ks)
    ensures Editing(t0, PressAll(t0, ks, attr), tape, Pending(ks), attr)
    ensures Loaded(r) && EnterKey(PressAll(t0, ks, attr), attr).screen == Window(r) && r.rowStack == 0
    ensures FedAtMostOne(tape, r, attr)
    ensures r.pos % COLS == 0 && tape.pos <= r.pos <= tape.pos + COLS
    ensures r.pos == tape.pos <==> tape.pos % COLS == 0 && Pending(ks) != []
  {
    tape := RunKeepsEditing(t0, ks, attr);
    LineEndMovesOn(tape, LF, attr);
    r := TapePutByte(tape, LF, attr);
    if tape.pos % COLS == 0 {
      WrappedLine(FreshTape(t0.screen), tape, Pending(ks), attr);
    }
  }

  /** A line that ends at the end of a row has wrapped. */
  lemma WrappedLine(t0: Tape, t: Tape, line: seq<byte>, attr: byte)
    requires LineOnTape(t0, t, line, attr) && t.pos % COLS == 0
    ensures t.rowStack != 0 <==> line != []
  {
  }

  /** One character too many: the 8-bit counter wraps and the counts part. */
  lemma CounterWraps(t0: Terminal, t: Terminal, tape: Tape, line: seq<byte>, c: byte, attr: byte)
    requires FreshPrompt(t0) && Editing(t0, t, tape, line, attr)
    requires c != LF && c != CR && |line| == KEY_LIMIT + COUNTER_LIMIT
    ensures Shown(TypeKey(t, c, attr)) == |line| + 1
    ensures Buffered(TypeKey(t, c, attr)) == KEY_LIMIT
  {
    ScreenCountsOn(t0, t, tape, line, c, attr);
  }

  /** The screen counts every character. */
  lemma ScreenCountsOn(t0: Terminal, t: Terminal, tape: Tape, line: seq<byte>, c: byte, attr: byte)
    requires FreshPrompt(t0) && Editing(t0, t, tape, line, attr)
    requires c != LF && c != CR && |line| == KEY_LIMIT + COUNTER_LIMIT
    ensures Shown(t.(screen := PutByte(t.screen, c, attr))) == |line| + 1
  {
    var base := FreshTape(t0.screen);
    var r := TapePutChar(tape, c, attr);
    CharOnTape(base, tape, line, c, attr);
    WindowOfPutChar(tape, c, attr);
    assert base.pos % COLS == t0.column;
    CountOnTape(base, r, line + [c], attr);
    assert PutByte(t.screen, c, attr) == Window(r);
  }

  lemma CountOnTape(t0: Tape, t: Tape, line: seq<byte>, attr: byte)
    requires LineOnTape(t0, t, line, attr)
    ensures COLS * Window(t).rowStack + Window(t).x - t0.pos % COLS == |line|
  {
    RowsOfPosition(t);
  }

  /** The buffer's count agrees with the screen's at every moment of a run exactly
      when the run never has more than 382 characters pending. */
  lemma {:induction false} CountsAgreeIffLineFits(t0: Terminal, ks: seq<Key>, attr: byte)
    requires FreshPrompt(t0) && Typable(ks)
    ensures (forall n :: 0 <= n <= |ks| ==>
               Shown(PressAll(t0, ks[..n], attr)) == Buffered(PressAll(t0, ks[..n], attr)))
            <==> forall n :: 0 <= n <= |ks| ==> |Pending(ks[..n])| <= 382
  {
    if FitsCounter(ks) {
      forall n | 0 <= n <= |ks|
        ensures Shown(PressAll(t0, ks[..n], attr)) == Buffered(PressAll(t0, ks[..n], attr))
      {
        CountsAgree(t0, ks, n, attr);
      }
    } else {
      var n := CountsPart(t0, ks, attr);
    }
  }

  lemma CountsAgree(t0: Terminal, ks: seq<Key>, n: nat, attr: byte)
    requires FreshPrompt(t0) && Typable(ks) && FitsCounter(ks) && n <= |ks|
    ensures Shown(PressAll(t0, ks[..n], attr)) == Buffered(PressAll(t0, ks[..n], attr))
  {
    assert forall m :: 0 <= m <= n ==> ks[..n][..m] == ks[..m];
    WhatYouSeeIsTheLine(t0, ks[..n], attr);
  }

  /** A run that does not fit has a moment at which the counts part. */
  lemma CountsPart(t0: Terminal, ks: seq<Key>, attr: byte) returns (n: nat)
    requires FreshPrompt(t0) && Typable(ks) && !FitsCounter(ks)
    ensures n <= |ks| && Shown(PressAll(t0, ks[..n], attr)) != Buffered(PressAll(t0, ks[..n], attr))
  {
    n := FirstOverflow(ks, |ks|);
    var init := ks[..n - 1];
    assert forall m :: 0 <= m <= n - 1 ==> init[..m] == ks[..m];
    assert ks[..n] == init + [ks[n - 1]];
    OneKeyTooMany(t0, init, ks[n - 1], attr);
  }

  lemma OneKeyTooMany(t0: Terminal, ks: seq<Key>, k: Key, attr: byte)
    requires FreshPrompt(t0) && Typable(ks) && FitsCounter(ks) && |Pending(ks)| == KEY_LIMIT + COUNTER_LIMIT
    requires k.Char? && k.c != LF && k.c != CR
    ensures Shown(PressAll(t0, ks + [k], attr)) != Buffered(PressAll(t0, ks + [k], attr))
  {
    var tape := RunKeepsEditing(t0, ks, attr);
    CounterWraps(t0, PressAll(t0, ks, attr), tape, Pending(ks), k.c, attr);
    PressOneMore(t0, ks, k, attr);
  }

  lemma {:induction false} FirstOverflow(ks: seq<Key>, bound: nat) returns (n: nat)
    requires bound <= |ks|
    requires exists m :: 0 <= m <= bound && |Pending(ks[..m])| > KEY_LIMIT + COUNTER_LIMIT
    ensures 0 < n <= bound && ks[n - 1].Char?
    ensures |Pending(ks[..n - 1])| == KEY_LIMIT + COUNTER_LIMIT
    ensures forall m :: 0 <= m < n ==> |Pending(ks[..m])| <= KEY_LIMIT + COUNTER_LIMIT
  {
    if exists m :: 0 <= m <= bound - 1 && |Pending(ks[..m])| > KEY_LIMIT + COUNTER_LIMIT {
      n := FirstOverflow(ks, bound - 1);
    } else {
      n := bound;
      assert |Pending(ks[..0])| == 0;
      PendingPrefix(ks, n);
    }
  }
}
